/** The records of the resumable stage pipeline and what a run from nothing produces. */
module PipelineModel {
  import opened Bytes
  import T = Text

  datatype Stage = Entries | Growth | Flows | Lifecycle | Conclude | Report

  const STAGES: seq<Stage> := [Entries, Growth, Flows, Lifecycle, Conclude, Report]

  function Index(s: Stage): (i: nat)
    ensures i < |STAGES| && STAGES[i] == s
  {
    match s
    case Entries => 0
    case Growth => 1
    case Flows => 2
    case Lifecycle => 3
    case Conclude => 4
    case Report => 5
  }

  lemma IndexOf(i: nat)
    requires i < |STAGES|
    ensures Index(STAGES[i]) == i
  {
  }

  type Path = T.Name
  type Files = map<Path, bytes>

  /** One artifact as a manifest lists it. */
  datatype Artifact = Artifact(path: Path, sha256: Digest, recordCount: nat, byteCount: nat, schemaVersion: string)

  /** The hash of an artifact list, injective like `Digest`. */
  datatype OutputHash = OutputHash(artifacts: seq<Artifact>)

  /** What the pipeline is configured with: everything a fingerprint is computed from. */
  datatype Config = Config(
    schemaVersion: string, toolVersion: string, implementation: map<Stage, string>, database: string,
    queryPack: string, configHash: string, configFingerprint: string, model: string, report: string)

  /** The canonical dictionary of one stage fingerprint. */
  datatype Fingerprint = Fingerprint(
    stage: Stage, schemaVersion: string, toolVersion: string, implementation: string, database: string,
    queryPack: string, configHash: string, configFingerprint: string, model: string, report: string,
    upstream: map<Stage, OutputHash>)

  function FingerprintOf(c: Config, stage: Stage, upstream: map<Stage, OutputHash>): Fingerprint
  {
    Fingerprint(
      stage, c.schemaVersion, c.toolVersion,
      if stage in c.implementation then c.implementation[stage] else "v1",
      c.database, c.queryPack,
      if c.configHash != "" then c.configHash else c.configFingerprint,
      if c.configFingerprint != "" then c.configFingerprint else c.configHash,
      if stage != Entries then c.model else "",
      if stage == Report then c.report else "",
      upstream)
  }

  /** The fingerprint names this configuration, as far as the stage depends on it. */
  predicate Describes(f: Fingerprint, c: Config, stage: Stage)
  {
    && f.stage == stage && f.schemaVersion == c.schemaVersion && f.toolVersion == c.toolVersion
    && f.database == c.database && f.queryPack == c.queryPack
    && (stage in c.implementation ==> f.implementation == c.implementation[stage])
    && (stage !in c.implementation ==> f.implementation == "v1")
    && (c.configHash != "" ==> f.configHash == c.configHash)
    && (c.configFingerprint != "" ==> f.configFingerprint == c.configFingerprint)
    && (c.configHash == "" || c.configFingerprint == "" ==> f.configHash == f.configFingerprint)
    && (c.configHash == "" && c.configFingerprint == "" ==> f.configHash == "")
    && (stage != Entries ==> f.model == c.model) && (stage == Report ==> f.report == c.report)
  }

  /** The configurations agree on everything the stage depends on. */
  predicate SameFor(stage: Stage, c: Config, d: Config)
  {
    && c.schemaVersion == d.schemaVersion && c.toolVersion == d.toolVersion
    && c.database == d.database && c.queryPack == d.queryPack
    && (if stage in c.implementation then c.implementation[stage] else "v1")
       == (if stage in d.implementation then d.implementation[stage] else "v1")
    && (if c.configHash != "" then c.configHash else c.configFingerprint)
       == (if d.configHash != "" then d.configHash else d.configFingerprint)
    && (if c.configFingerprint != "" then c.configFingerprint else c.configHash)
       == (if d.configFingerprint != "" then d.configFingerprint else d.configHash)
    && (stage != Entries ==> c.model == d.model) && (stage == Report ==> c.report == d.report)
  }

  /** A stage has the same fingerprint under two configurations exactly when they agree on
      everything it depends on, and its upstream hashes are the same. */
  lemma FingerprintMeans(
      c: Config, d: Config, stage: Stage, upstream: map<Stage, OutputHash>, other: map<Stage, OutputHash>)
    ensures FingerprintOf(c, stage, upstream) == FingerprintOf(d, stage, other) <==>
        SameFor(stage, c, d) && upstream == other
  {
  }

  /** What describes two configurations does not tell them apart. */
  lemma DescribesBoth(f: Fingerprint, c: Config, d: Config, stage: Stage)
    requires Describes(f, c, stage) && Describes(f, d, stage)
    ensures SameFor(stage, c, d)
  {
  }

  /** A published stage manifest; `stamp` stands for its times, identity and free metadata. */
  datatype Manifest = Manifest(
    stage: Stage, fingerprint: Fingerprint, artifacts: seq<Artifact>, outputHash: OutputHash, stamp: int)

  datatype StageMeta = Pending | Invalid | Failed(code: string) | Completed(manifest: Manifest)

  datatype RunStatus = RunPending | RunRunning | RunFailed(error: string) | RunCompleted

  /** The document `run.json`. */
  datatype RunDoc = RunDoc(status: RunStatus, attempt: nat, stages: seq<StageMeta>)

  const NEW_RUN := RunDoc(RunPending, 0, seq(|STAGES|, _ => Pending))

  /** Everything later runs can see of an output directory. Scratch directories are
      private to one publication and never read again. */
  datatype Snapshot = Snapshot(files: Files, manifests: map<Stage, Manifest>, run: Option<RunDoc>)

  const EMPTY := Snapshot(map[], map[], None)

  // ---- Listings ------------------------------------------------------------------

  function ArtifactOf(path: Path, data: bytes, schemaVersion: string): Artifact
  {
    Artifact(path, Sha256(data), RecordCount(data), |data|, schemaVersion)
  }

  /** The artifact list of a set of files, in path order. */
  function Listing(files: Files, schemaVersion: string): seq<Artifact>
  {
    var paths := T.Sorted(files.Keys);
    seq(|paths|, i requires 0 <= i < |paths| =>
      assert paths[i] in files by { T.SortedElements(files.Keys); assert paths[i] in paths; }
      ArtifactOf(paths[i], files[paths[i]], schemaVersion))
  }

  lemma ListingEntry(files: Files, schemaVersion: string, i: nat)
    requires i < |Listing(files, schemaVersion)|
    ensures var a := Listing(files, schemaVersion)[i];
            a.path in files && a == ArtifactOf(a.path, files[a.path], schemaVersion)
  {
    T.SortedElements(files.Keys);
    assert T.Sorted(files.Keys)[i] in T.Sorted(files.Keys);
  }

  /** The files an artifact list describes, recovered through the injective digest. */
  function FilesOf(artifacts: seq<Artifact>): Files
  {
    if artifacts == [] then map[] else
      var a := artifacts[|artifacts| - 1];
      FilesOf(artifacts[..|artifacts| - 1])[a.path := a.sha256.preimage]
  }

  lemma {:induction false} FilesOfHas(list: seq<Artifact>, i: nat)
    requires i < |list| && forall j | i < j < |list| :: list[j].path != list[i].path
    ensures list[i].path in FilesOf(list) && FilesOf(list)[list[i].path] == list[i].sha256.preimage
  {
    if i < |list| - 1 { FilesOfHas(list[..|list| - 1], i); }
  }

  lemma {:induction false} FilesOfOnly(list: seq<Artifact>, p: Path) returns (i: nat)
    requires p in FilesOf(list)
    ensures i < |list| && list[i].path == p
  {
    if list[|list| - 1].path == p {
      i := |list| - 1;
    } else {
      i := FilesOfOnly(list[..|list| - 1], p);
    }
  }

  lemma ListedAt(files: Files, schemaVersion: string, p: Path) returns (i: nat)
    requires p in files
    ensures i < |Listing(files, schemaVersion)|
    ensures Listing(files, schemaVersion)[i] == ArtifactOf(p, files[p], schemaVersion)
    ensures forall j | i < j < |Listing(files, schemaVersion)| :: Listing(files, schemaVersion)[j].path != p
  {
    var paths := T.Sorted(files.Keys);
    T.SortedElements(files.Keys);
    assert p in paths;
    i :| 0 <= i < |paths| && paths[i] == p;
  }

  /** The listing determines the files: nothing is lost by publishing digests only. */
  lemma ListingRoundTrip(files: Files, schemaVersion: string)
    ensures FilesOf(Listing(files, schemaVersion)) == files
  {
    var list := Listing(files, schemaVersion);
    var back := FilesOf(list);
    forall p | p in files ensures p in back && back[p] == files[p] {
      var i := ListedAt(files, schemaVersion, p);
      FilesOfHas(list, i);
    }
    forall p | p in back ensures p in files {
      var i := FilesOfOnly(list, p);
      ListingEntry(files, schemaVersion, i);
    }
  }

  // ---- Executors -----------------------------------------------------------------

  /** A deterministic stage executor: what it returns depends on its fingerprint and on
      the upstream artifacts that fingerprint covers. None stands for any failure. */
  type Executor = (Fingerprint, map<Stage, Files>) -> Option<Files>

  /** Stages own disjoint sets of paths. */
  ghost predicate Disjoint(exec: Executor, owner: Path -> Stage)
  {
    forall f, u, p {:trigger p in exec(f, u).value} :: exec(f, u).Some? && p in exec(f, u).value ==> owner(p) == f.stage
  }

  /** The upstream artifacts whose hashes a fingerprint carries. */
  function Upstream(f: Fingerprint): map<Stage, Files>
  {
    map s | s in f.upstream :: FilesOf(f.upstream[s].artifacts)
  }

  function HashesOf(outputs: map<Stage, Files>, schemaVersion: string): map<Stage, OutputHash>
  {
    map s | s in outputs :: OutputHash(Listing(outputs[s], schemaVersion))
  }

  lemma UpstreamOfHashes(c: Config, stage: Stage, outputs: map<Stage, Files>)
    ensures Upstream(FingerprintOf(c, stage, HashesOf(outputs, c.schemaVersion))) == outputs
  {
    forall s | s in outputs ensures FilesOf(Listing(outputs[s], c.schemaVersion)) == outputs[s] {
      ListingRoundTrip(outputs[s], c.schemaVersion);
    }
  }

  // ---- A run from an empty directory ----------------------------------------------

  /** What the first `n` stages produce when each is executed on the outputs before it. */
  function Fresh(exec: Executor, c: Config, n: nat): Option<map<Stage, Files>>
    requires n <= |STAGES|
  {
    if n == 0 then Some(map[]) else
      var before := Fresh(exec, c, n - 1);
      if before.None? then None else
        var f := FreshFingerprint(c, STAGES[n - 1], before.value);
        var out := exec(f, before.value);
        if out.None? || out.value == map[] then None else Some(before.value[STAGES[n - 1] := out.value])
  }

  function FreshFingerprint(c: Config, stage: Stage, before: map<Stage, Files>): Fingerprint
  {
    FingerprintOf(c, stage, HashesOf(before, c.schemaVersion))
  }

  lemma {:induction false} FreshKeys(exec: Executor, c: Config, n: nat, s: Stage)
    requires n <= |STAGES| && Fresh(exec, c, n).Some?
    ensures s in Fresh(exec, c, n).value <==> Index(s) < n
  {
    if n > 0 {
      FreshKeys(exec, c, n - 1, s);
      IndexOf(n - 1);
    }
  }

  // ---- What holds of every directory a pipeline has ever written ---------------------

  /** A manifest that one completed publication wrote: it lists exactly what the executor
      returns for that fingerprint. */
  ghost predicate Genuine(exec: Executor, m: Manifest)
  {
    var out := exec(m.fingerprint, Upstream(m.fingerprint));
    && m.stage == m.fingerprint.stage
    && out.Some? && out.value != map[]
    && m.artifacts == Listing(out.value, m.fingerprint.schemaVersion)
    && m.outputHash == OutputHash(m.artifacts)
  }

  /** Completed stages form a prefix of the stage order, each with its own manifest. */
  ghost predicate CompletedPrefix(exec: Executor, run: RunDoc)
  {
    && |run.stages| == |STAGES|
    && (forall i | 0 <= i < |STAGES| && run.stages[i].Completed? ::
          run.stages[i].manifest.stage == STAGES[i] && Genuine(exec, run.stages[i].manifest))
    && (forall i, j | 0 <= i < j < |STAGES| && run.stages[j].Completed? :: run.stages[i].Completed?)
  }

  ghost predicate Inv(exec: Executor, s: Snapshot)
  {
    && (forall k | k in s.manifests :: s.manifests[k].stage == k && Genuine(exec, s.manifests[k]))
    && (s.run.Some? ==> CompletedPrefix(exec, s.run.value))
  }

  // ---- Reuse -----------------------------------------------------------------------

  /** The bytes under the listed path are the listed bytes. */
  predicate Intact(files: Files, a: Artifact)
  {
    && a.path in files
    && Sha256(files[a.path]) == a.sha256
    && RecordCount(files[a.path]) == a.recordCount
  }

  /** The test that lets a run skip a stage. */
  predicate Reusable(s: Snapshot, meta: StageMeta, stage: Stage, expected: Fingerprint, schemaVersion: string)
  {
    && meta.Completed? && meta.manifest.fingerprint == expected
    && meta.manifest.artifacts != []
    && meta.manifest.outputHash == OutputHash(meta.manifest.artifacts)
    && stage in s.manifests && s.manifests[stage] == meta.manifest
    && forall i | 0 <= i < |meta.manifest.artifacts| ::
         meta.manifest.artifacts[i].schemaVersion == schemaVersion && Intact(s.files, meta.manifest.artifacts[i])
  }

  /** `out` lies in the directory unchanged. */
  ghost predicate Holds(files: Files, out: Files)
  {
    forall p | p in out :: p in files && files[p] == out[p]
  }

  lemma IntactHolds(files: Files, out: Files, schemaVersion: string)
    requires forall i | 0 <= i < |Listing(out, schemaVersion)| :: Intact(files, Listing(out, schemaVersion)[i])
    ensures Holds(files, out)
  {
    forall p | p in out ensures p in files && files[p] == out[p] {
      var i := ListedAt(out, schemaVersion, p);
      assert Intact(files, Listing(out, schemaVersion)[i]);
    }
  }

  lemma HoldsIntact(files: Files, out: Files, schemaVersion: string)
    requires Holds(files, out)
    ensures forall i | 0 <= i < |Listing(out, schemaVersion)| :: Intact(files, Listing(out, schemaVersion)[i])
  {
    forall i | 0 <= i < |Listing(out, schemaVersion)| ensures Intact(files, Listing(out, schemaVersion)[i]) {
      ListingEntry(out, schemaVersion, i);
    }
  }

  /** A stage is skipped only if its files are exactly what the executor returns for the
      expected fingerprint. */
  lemma ReusableIsExact(exec: Executor, s: Snapshot, meta: StageMeta, expected: Fingerprint, schemaVersion: string)
    requires Inv(exec, s) && Reusable(s, meta, expected.stage, expected, schemaVersion)
    ensures var out := exec(expected, Upstream(expected));
            && out.Some? && out.value != map[]
            && meta.manifest.artifacts == Listing(out.value, expected.schemaVersion)
            && Holds(s.files, out.value)
  {
    var out := exec(expected, Upstream(expected));
    assert Genuine(exec, s.manifests[expected.stage]);
    IntactHolds(s.files, out.value, expected.schemaVersion);
  }

  /** Converse: a genuine manifest recorded both in `run.json` and on disk, with its files
      in place, is always reused. */
  lemma ExactIsReusable(exec: Executor, s: Snapshot, m: Manifest)
    requires Genuine(exec, m) && m.stage in s.manifests && s.manifests[m.stage] == m
    requires Holds(s.files, exec(m.fingerprint, Upstream(m.fingerprint)).value)
    ensures Reusable(s, Completed(m), m.stage, m.fingerprint, m.fingerprint.schemaVersion)
  {
    var out := exec(m.fingerprint, Upstream(m.fingerprint)).value;
    HoldsIntact(s.files, out, m.fingerprint.schemaVersion);
    var p :| p in out;
    var i := ListedAt(out, m.fingerprint.schemaVersion, p);
  }
}
