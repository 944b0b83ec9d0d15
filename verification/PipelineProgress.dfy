/** What a run has established after each stage, compared with a run from an empty directory. */
module PipelineProgress {
  import opened Bytes
  import opened PipelineModel
  import opened PipelineDisk
  import opened PipelinePublish
  import T = Text

  // ---- Progress --------------------------------------------------------------------

  /** Stage `s` is recorded complete with output `out`, and `out` is in the directory. */
  ghost predicate StageCurrent(
      files: Files, manifests: map<Stage, Manifest>, stages: seq<StageMeta>, schemaVersion: string,
                               s: Stage, out: Files)
  {
    && |stages| == |STAGES| && stages[Index(s)].Completed?
    && var m := stages[Index(s)].manifest;
    && m.artifacts == Listing(out, schemaVersion) && m.outputHash == OutputHash(m.artifacts)
    && s in manifests && manifests[s] == m
    && Holds(files, out)
  }

  ghost predicate AllCurrent(
      files: Files, manifests: map<Stage, Manifest>, stages: seq<StageMeta>, schemaVersion: string,
                             outputs: map<Stage, Files>)
  {
    forall s | s in outputs :: StageCurrent(files, manifests, stages, schemaVersion, s, outputs[s])
  }

  /** The first `n` stages stand as a run from an empty directory would leave them. */
  ghost predicate Current(
      exec: Executor, c: Config, files: Files, manifests: map<Stage, Manifest>, stages: seq<StageMeta>, n: nat)
  {
    n <= |STAGES| && Fresh(exec, c, n).Some?
        && AllCurrent(files, manifests, stages, c.schemaVersion, Fresh(exec, c, n).value)
  }

  lemma OwnedListing(exec: Executor, owner: Path -> Stage, m: Manifest, i: nat)
    requires Disjoint(exec, owner) && Genuine(exec, m) && i < |m.artifacts|
    ensures owner(m.artifacts[i].path) == m.stage
  {
    var out := exec(m.fingerprint, Upstream(m.fingerprint)).value;
    ListingEntry(out, m.fingerprint.schemaVersion, i);
  }

  lemma OldPathsOwned(exec: Executor, owner: Path -> Stage, prior: map<Stage, Manifest>, s: Stage, p: Path)
    requires Disjoint(exec, owner) && (s in prior ==> Genuine(exec, prior[s]) && prior[s].stage == s)
    requires p in OldPaths(prior, s)
    ensures owner(p) == s
  {
    var i :| 0 <= i < |prior[s].artifacts| && prior[s].artifacts[i].path == p;
    OwnedListing(exec, owner, prior[s], i);
  }

  lemma {:induction false} FreshOwned(exec: Executor, c: Config, owner: Path -> Stage, n: nat, s: Stage, p: Path)
    requires Disjoint(exec, owner) && n <= |STAGES| && Fresh(exec, c, n).Some?
    requires s in Fresh(exec, c, n).value && p in Fresh(exec, c, n).value[s]
    ensures owner(p) == s
  {
    var before := Fresh(exec, c, n - 1).value;
    if s in before && s != STAGES[n - 1] {
      FreshOwned(exec, c, owner, n - 1, s, p);
    } else {
      var f := FreshFingerprint(c, STAGES[n - 1], before);
      assert p in exec(f, before).value;
    }
  }

  /** One more stage, whose output the executor gave for the fresh fingerprint. */
  lemma FreshNext(exec: Executor, c: Config, n: nat, f: Fingerprint)
    requires n < |STAGES| && Fresh(exec, c, n).Some?
    requires f == FreshFingerprint(c, STAGES[n], Fresh(exec, c, n).value)
    ensures Upstream(f) == Fresh(exec, c, n).value
    ensures var out := exec(f, Upstream(f));
            Fresh(exec, c, n + 1) ==
            if out.None? || out.value == map[] then None else Some(Fresh(exec, c, n).value[STAGES[n] := out.value])
  {
    UpstreamOfHashes(c, STAGES[n], Fresh(exec, c, n).value);
  }

  lemma {:induction false} FreshSome(exec: Executor, c: Config, n: nat, k: nat)
    requires n <= k <= |STAGES| && Fresh(exec, c, k).Some?
    ensures Fresh(exec, c, n).Some?
    decreases k
  {
    if n < k { FreshSome(exec, c, n, k - 1); }
  }

  lemma HashesNext(outputs: map<Stage, Files>, s: Stage, out: Files, schemaVersion: string)
    ensures HashesOf(outputs[s := out], schemaVersion) ==
        HashesOf(outputs, schemaVersion)[s := OutputHash(Listing(out, schemaVersion))]
  {
  }

  lemma CurrentNext(
      exec: Executor, c: Config, files: Files, manifests: map<Stage, Manifest>, stages: seq<StageMeta>, n: nat,
      f: Fingerprint, out: Files)
    requires n < |STAGES| && Fresh(exec, c, n).Some? && f == FreshFingerprint(c, STAGES[n], Fresh(exec, c, n).value)
    requires exec(f, Upstream(f)) == Some(out) && out != map[]
    requires AllCurrent(files, manifests, stages, c.schemaVersion, Fresh(exec, c, n).value[f.stage := out])
    ensures Current(exec, c, files, manifests, stages, n + 1)
  {
    FreshNext(exec, c, n, f);
  }

  /** A stage found reusable stands as a fresh run would leave it. */
  lemma ReusedIsCurrent(
      exec: Executor, c: Config, now: Snapshot, stages: seq<StageMeta>, n: nat, f: Fingerprint)
    requires Inv(exec, now) && |stages| == |STAGES| && n < |STAGES|
    requires Current(exec, c, now.files, now.manifests, stages, n)
    requires f == FreshFingerprint(c, STAGES[n], Fresh(exec, c, n).value)
    requires Reusable(now, stages[n], STAGES[n], f, c.schemaVersion)
    ensures Current(exec, c, now.files, now.manifests, stages, n + 1)
  {
    IndexOf(n);
    ReusedStage(exec, now, stages, stages[n], f, Fresh(exec, c, n).value);
    CurrentNext(exec, c, now.files, now.manifests, stages, n, f, exec(f, Upstream(f)).value);
  }

  lemma ReusedStage(
      exec: Executor, now: Snapshot, stages: seq<StageMeta>, meta: StageMeta, f: Fingerprint,
      outputs: map<Stage, Files>)
    requires Inv(exec, now) && |stages| == |STAGES| && stages[Index(f.stage)] == meta
    requires Reusable(now, meta, f.stage, f, f.schemaVersion)
    requires AllCurrent(now.files, now.manifests, stages, f.schemaVersion, outputs)
    ensures exec(f, Upstream(f)).Some? && exec(f, Upstream(f)).value != map[]
    ensures AllCurrent(now.files, now.manifests, stages, f.schemaVersion,
        outputs[f.stage := exec(f, Upstream(f)).value])
  {
    ReusableIsExact(exec, now, meta, f, f.schemaVersion);
  }

  lemma StillHolds(files: Files, owned: set<Path>, out: Files, other: Files)
    requires Holds(files, other) && forall p | p in other :: p !in owned && p !in out
    ensures Holds(Superseded(files, owned, out), other)
  {
  }

  /** Publishing a stage touches nothing an earlier stage produced. */
  lemma EarlierUntouched(
      exec: Executor, owner: Path -> Stage, c: Config, prior: map<Stage, Manifest>, n: nat, f: Fingerprint, out: Files,
      s: Stage)
    requires n < |STAGES| && Disjoint(exec, owner) && Fresh(exec, c, n).Some? && s in Fresh(exec, c, n).value
    requires STAGES[n] in prior ==> Genuine(exec, prior[STAGES[n]]) && prior[STAGES[n]].stage == STAGES[n]
    requires f.stage == STAGES[n] && exec(f, Upstream(f)) == Some(out)
    ensures s != STAGES[n]
    ensures forall p | p in Fresh(exec, c, n).value[s] :: p !in OldPaths(prior, STAGES[n]) && p !in out
  {
    FreshKeys(exec, c, n, s);
    IndexOf(n);
    forall p | p in Fresh(exec, c, n).value[s] ensures p !in OldPaths(prior, STAGES[n]) && p !in out {
      FreshOwned(exec, c, owner, n, s, p);
      if p in OldPaths(prior, STAGES[n]) { OldPathsOwned(exec, owner, prior, STAGES[n], p); }
      var maybe := exec(f, Upstream(f));
      assert p in maybe.value ==> owner(p) == f.stage;
    }
  }

  lemma StillCurrent(
      files: Files, manifests: map<Stage, Manifest>, stages: seq<StageMeta>, schemaVersion: string, owned: set<Path>,
      out: Files, m: Manifest, s: Stage, other: Files)
    requires StageCurrent(files, manifests, stages, schemaVersion, s, other) && s != m.stage
    requires forall p | p in other :: p !in owned && p !in out
    ensures StageCurrent(Superseded(files, owned, out), manifests[m.stage := m], stages[Index(m.stage) := Completed(m)],
                         schemaVersion, s, other)
  {
    StillHolds(files, owned, out, other);
    assert Index(s) != Index(m.stage) by { assert STAGES[Index(s)] != STAGES[Index(m.stage)]; }
  }

  /** A stage just executed and published stands so too, and leaves the earlier ones alone. */
  lemma PublishedIsCurrent(
      exec: Executor, owner: Path -> Stage, c: Config, prior: map<Stage, Manifest>,
      files: Files, manifests: map<Stage, Manifest>, stages: seq<StageMeta>, n: nat, out: Files, m: Manifest)
    requires n < |STAGES| && Disjoint(exec, owner) && Current(exec, c, files, manifests, stages, n)
        && |stages| == |STAGES|
    requires AllGenuine(exec, prior) && Genuine(exec, m) && m.stage == STAGES[n] && out != map[]
    requires m.fingerprint == FreshFingerprint(c, STAGES[n], Fresh(exec, c, n).value)
    requires exec(m.fingerprint, Upstream(m.fingerprint)) == Some(out)
    ensures Current(exec, c, Superseded(files, OldPaths(prior, STAGES[n]), out), manifests[m.stage := m],
                    stages[n := Completed(m)], n + 1)
  {
    IndexOf(n);
    PublishedStage(exec, owner, c, prior, files, manifests, stages, n, out, m);
    CurrentNext(exec, c, Superseded(files, OldPaths(prior, STAGES[n]), out), manifests[m.stage := m],
                stages[n := Completed(m)], n, m.fingerprint, out);
  }

  lemma PublishedStage(
      exec: Executor, owner: Path -> Stage, c: Config, prior: map<Stage, Manifest>,
      files: Files, manifests: map<Stage, Manifest>, stages: seq<StageMeta>, n: nat, out: Files, m: Manifest)
    requires n < |STAGES| && Disjoint(exec, owner) && Fresh(exec, c, n).Some? && |stages| == |STAGES|
    requires AllCurrent(files, manifests, stages, c.schemaVersion, Fresh(exec, c, n).value)
    requires AllGenuine(exec, prior) && Genuine(exec, m) && m.stage == STAGES[n]
    requires exec(m.fingerprint, Upstream(m.fingerprint)) == Some(out) && m.fingerprint.schemaVersion == c.schemaVersion
    ensures AllCurrent(Superseded(files, OldPaths(prior, m.stage), out), manifests[m.stage := m],
                       stages[Index(m.stage) := Completed(m)], c.schemaVersion, Fresh(exec, c, n).value[m.stage := out])
  {
    var before := Fresh(exec, c, n).value;
    var owned := OldPaths(prior, m.stage);
    var files', manifests', stages' := Superseded(files, owned, out), manifests[m.stage := m],
        stages[Index(m.stage) := Completed(m)];
    forall s | s in before ensures StageCurrent(files', manifests', stages', c.schemaVersion, s, before[s]) {
      EarlierUntouched(exec, owner, c, prior, n, m.fingerprint, out, s);
      StillCurrent(files, manifests, stages, c.schemaVersion, owned, out, m, s, before[s]);
    }
    assert StageCurrent(files', manifests', stages', c.schemaVersion, m.stage, out);
  }

  /** Changing the record of stage `n` and after leaves the earlier ones standing. */
  lemma CurrentCut(
      exec: Executor, c: Config, files: Files, manifests: map<Stage, Manifest>, a: seq<StageMeta>, b: seq<StageMeta>,
      n: nat)
    requires Current(exec, c, files, manifests, a, n) && |a| == |b| == |STAGES| && a[..n] == b[..n]
    ensures Current(exec, c, files, manifests, b, n)
  {
    var outputs := Fresh(exec, c, n).value;
    forall s | s in outputs ensures StageCurrent(files, manifests, b, c.schemaVersion, s, outputs[s]) {
      FreshKeys(exec, c, n, s);
      assert a[Index(s)] == a[..n][Index(s)] == b[..n][Index(s)];
    }
  }

  lemma CurrentComplete(
      exec: Executor, c: Config, files: Files, manifests: map<Stage, Manifest>, stages: seq<StageMeta>, n: nat, i: nat)
    requires Current(exec, c, files, manifests, stages, n) && i < n
    ensures |stages| == |STAGES| && stages[i].Completed?
  {
    FreshKeys(exec, c, n, STAGES[i]);
    IndexOf(i);
    assert StageCurrent(files, manifests, stages, c.schemaVersion, STAGES[i], Fresh(exec, c, n).value[STAGES[i]]);
  }

  lemma CutPrefix(exec: Executor, run: RunDoc, stages: seq<StageMeta>, n: nat)
    requires CompletedPrefix(exec, run) && |stages| == |STAGES| && n <= |STAGES| && stages[..n] == run.stages[..n]
    requires forall k | n <= k < |STAGES| :: !stages[k].Completed?
    ensures CompletedPrefix(exec, run.(stages := stages))
  {
    assert forall k | 0 <= k < n :: stages[k] == stages[..n][k] && run.stages[k] == run.stages[..n][k];
  }

  ghost predicate AllGenuine(exec: Executor, manifests: map<Stage, Manifest>)
  {
    forall s | s in manifests :: Genuine(exec, manifests[s]) && manifests[s].stage == s
  }

  lemma CompletePrefix(exec: Executor, run: RunDoc, n: nat, m: Manifest)
    requires CompletedPrefix(exec, run) && n < |STAGES| && m.stage == STAGES[n] && Genuine(exec, m)
    requires forall k | 0 <= k < n :: run.stages[k].Completed?
    requires forall k | n < k < |STAGES| :: !run.stages[k].Completed?
    ensures CompletedPrefix(exec, run.(stages := run.stages[n := Completed(m)]))
  {
  }

  /** The hash of a stage just completed is what later fingerprints must carry for it. */
  lemma HashesAfter(
      exec: Executor, c: Config, files: Files, manifests: map<Stage, Manifest>, stages: seq<StageMeta>, n: nat)
    requires n < |STAGES| && Current(exec, c, files, manifests, stages, n + 1)
    ensures Fresh(exec, c, n).Some? && |stages| == |STAGES| && stages[n].Completed?
    ensures HashesOf(Fresh(exec, c, n + 1).value, c.schemaVersion) ==
            HashesOf(Fresh(exec, c, n).value, c.schemaVersion)[STAGES[n] := stages[n].manifest.outputHash]
  {
    var before := Fresh(exec, c, n).value;
    var out := exec(FreshFingerprint(c, STAGES[n], before), before).value;
    HashesNext(before, STAGES[n], out, c.schemaVersion);
    IndexOf(n);
    var outputs := Fresh(exec, c, n + 1).value;
    assert outputs == before[STAGES[n] := out] && STAGES[n] in outputs;
    assert StageCurrent(files, manifests, stages, c.schemaVersion, STAGES[n], outputs[STAGES[n]]);
  }
}
