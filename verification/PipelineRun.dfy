/** The resumable run: fingerprint each stage, reuse or execute and publish it, checkpoint. */
module PipelineRun {
  import opened Bytes
  import opened PipelineModel
  import opened PipelineDisk
  import opened PipelinePublish
  import opened PipelineProgress
  import T = Text

  /** The records from stage `first` on are invalid. */
  ghost predicate InvalidFrom(stages: seq<StageMeta>, first: nat)
  {
    forall k | first <= k < |stages| :: stages[k] == Invalid
  }

  /** No other entry of the list has this one's path. */
  predicate OnlyMatch(artifacts: seq<Artifact>, i: nat)
    requires i < |artifacts|
  {
    forall j | 0 <= j < |artifacts| && j != i :: artifacts[j].path != artifacts[i].path
  }

  /** The artifact may be read: one match in a list its stage vouches for, of this schema, and
      the file has the listed digest, size and record count. */
  predicate Authentic(files: Files, m: Manifest, i: nat, schemaVersion: string)
    requires i < |m.artifacts|
  {
    var a := m.artifacts[i];
    && m.outputHash == OutputHash(m.artifacts) && OnlyMatch(m.artifacts, i) && a.schemaVersion == schemaVersion
    && Intact(files, a) && |files[a.path]| == a.byteCount
  }

  /** `read_upstream_artifact_bytes`: reads one artifact of a stage by its path. */
  method ReadArtifact(files: Files, m: Manifest, path: Path, schemaVersion: string) returns (r: Option<bytes>)
    ensures r.Some? <==>
        exists i: nat :: i < |m.artifacts| && m.artifacts[i].path == path && Authentic(files, m, i, schemaVersion)
    ensures r.Some? ==> path in files && r.value == files[path]
  {
    if m.artifacts == [] || m.outputHash != OutputHash(m.artifacts) { return None; }
    var at, matches := 0, 0;
    for i := 0 to |m.artifacts|
      invariant matches == 0 <==> forall j | 0 <= j < i :: m.artifacts[j].path != path
      invariant matches > 0 ==> at < i && m.artifacts[at].path == path
      invariant matches <= 1 <==> forall j, k | 0 <= j < k < i :: !(m.artifacts[j].path == path == m.artifacts[k].path)
    {
      if m.artifacts[i].path == path { at, matches := i, matches + 1; }
    }
    if matches != 1 { return None; }
    var a := m.artifacts[at];
    assert OnlyMatch(m.artifacts, at);
    if a.schemaVersion != schemaVersion || !Intact(files, a) || |files[path]| != a.byteCount { return None; }
    assert Authentic(files, m, at, schemaVersion);
    r := Some(files[path]);
  }

  /** Reads every artifact of one upstream stage. */
  method ReadListed(files: Files, m: Manifest, schemaVersion: string) returns (r: Option<Files>)
    ensures r.Some? ==> r.value == FilesOf(m.artifacts)
    ensures r.Some? <==> forall i: nat | i < |m.artifacts| :: Authentic(files, m, i, schemaVersion)
  {
    var read: Files := map[];
    for i := 0 to |m.artifacts|
      invariant read == FilesOf(m.artifacts[..i])
      invariant forall j: nat | j < i :: Authentic(files, m, j, schemaVersion)
    {
      var a := m.artifacts[i];
      var data := ReadArtifact(files, m, a.path, schemaVersion);
      if data.None? {
        assert !Authentic(files, m, i, schemaVersion);
        return None;
      }
      assert Authentic(files, m, i, schemaVersion);
      assert m.artifacts[..i + 1][..i] == m.artifacts[..i];
      read := read[a.path := data.value];
    }
    assert m.artifacts[..|m.artifacts|] == m.artifacts;
    r := Some(read);
  }

  /** The manifests of the first `n` stages. */
  function FirstManifests(manifests: map<Stage, Manifest>, n: nat): map<Stage, Manifest>
    requires n <= |STAGES|
  {
    if n == 0 then map[] else
      var rest, s := FirstManifests(manifests, n - 1), STAGES[n - 1];
      if s in manifests then rest[s := manifests[s]] else rest
  }

  lemma {:induction false} FirstManifestsHas(manifests: map<Stage, Manifest>, n: nat, s: Stage)
    requires n <= |STAGES|
    ensures s in FirstManifests(manifests, n) <==> s in manifests && Index(s) < n
    ensures s in FirstManifests(manifests, n) ==> FirstManifests(manifests, n)[s] == manifests[s]
  {
    if n > 0 {
      IndexOf(n - 1);
      FirstManifestsHas(manifests, n - 1, s);
    }
  }

  lemma FirstManifestsAll(manifests: map<Stage, Manifest>)
    ensures FirstManifests(manifests, |STAGES|) == manifests
  {
    var all := FirstManifests(manifests, |STAGES|);
    forall s ensures s in all <==> s in manifests
             ensures s in all ==> all[s] == manifests[s]
    {
      FirstManifestsHas(manifests, |STAGES|, s);
    }
  }

  lemma HeldAuthentic(files: Files, out: Files, schemaVersion: string, m: Manifest)
    requires Holds(files, out) && m.artifacts == Listing(out, schemaVersion) && m.outputHash == OutputHash(m.artifacts)
    ensures forall j: nat | j < |m.artifacts| :: Authentic(files, m, j, schemaVersion)
  {
    T.SortedElements(out.Keys);
    HoldsIntact(files, out, schemaVersion);
    forall j: nat | j < |m.artifacts| ensures Authentic(files, m, j, schemaVersion) {
      ListingEntry(out, schemaVersion, j);
      assert OnlyMatch(m.artifacts, j);
    }
  }

  /** What a stage needs from the directory is there and reads back as it was produced. */
  lemma ReadsBack(
      exec: Executor, c: Config, files: Files, manifests: map<Stage, Manifest>, stages: seq<StageMeta>, n: nat, i: nat)
    requires Current(exec, c, files, manifests, stages, n) && i < n
    ensures |stages| == |STAGES| && stages[i].Completed?
    ensures STAGES[i] in Fresh(exec, c, n).value
    ensures FilesOf(stages[i].manifest.artifacts) == Fresh(exec, c, n).value[STAGES[i]]
    ensures forall j: nat | j < |stages[i].manifest.artifacts| ::
        Authentic(files, stages[i].manifest, j, c.schemaVersion)
  {
    IndexOf(i);
    FreshKeys(exec, c, n, STAGES[i]);
    var out := Fresh(exec, c, n).value[STAGES[i]];
    assert StageCurrent(files, manifests, stages, c.schemaVersion, STAGES[i], out);
    ListingRoundTrip(out, c.schemaVersion);
    HeldAuthentic(files, out, c.schemaVersion, stages[i].manifest);
  }

  /** The outputs of the first `n` stages among `outputs`. */
  ghost predicate FirstOutputs(read: map<Stage, Files>, outputs: map<Stage, Files>, n: nat)
  {
    forall s :: (s in read <==> Index(s) < n) && (s in read ==> s in outputs && read[s] == outputs[s])
  }

  lemma AllOutputs(exec: Executor, c: Config, read: map<Stage, Files>, n: nat)
    requires n <= |STAGES| && Fresh(exec, c, n).Some? && FirstOutputs(read, Fresh(exec, c, n).value, n)
    ensures read == Fresh(exec, c, n).value
  {
    forall s ensures s in read <==> s in Fresh(exec, c, n).value { FreshKeys(exec, c, n, s); }
  }

  lemma NextOutput(read: map<Stage, Files>, outputs: map<Stage, Files>, n: nat)
    requires n < |STAGES| && FirstOutputs(read, outputs, n) && STAGES[n] in outputs
    ensures FirstOutputs(read[STAGES[n] := outputs[STAGES[n]]], outputs, n + 1)
  {
    IndexOf(n);
  }

  /** Reads the artifacts of the first `n` stages back from the directory. */
  method ReadUpstream(ghost exec: Executor, ghost c: Config, files: Files, ghost manifests: map<Stage, Manifest>,
                      stages: seq<StageMeta>, n: nat, schemaVersion: string) returns (read: map<Stage, Files>)
    requires Current(exec, c, files, manifests, stages, n) && |stages| == |STAGES| && schemaVersion == c.schemaVersion
    ensures read == Fresh(exec, c, n).value
  {
    ghost var outputs := Fresh(exec, c, n).value;
    read := map[];
    for j := 0 to n
      invariant FirstOutputs(read, outputs, j)
    {
      ReadsBack(exec, c, files, manifests, stages, n, j);
      var listed := ReadListed(files, stages[j].manifest, schemaVersion);
      NextOutput(read, outputs, j);
      read := read[STAGES[j] := listed.value];
    }
    AllOutputs(exec, c, read, n);
  }

  /** The reused stages form a prefix. */
  ghost predicate ReusedFirst(skipped: seq<bool>)
  {
    forall j, k | 0 <= j < k < |skipped| && skipped[k] :: skipped[j]
  }

  ghost predicate AllReused(skipped: seq<bool>)
  {
    forall k | 0 <= k < |skipped| :: skipped[k]
  }

  /** Stage `k` is recorded as completed under this configuration. */
  ghost predicate MadeUnder(stages: seq<StageMeta>, c: Config, k: nat)
  {
    && k < |stages| && k < |STAGES| && stages[k].Completed?
    && Describes(stages[k].manifest.fingerprint, c, STAGES[k])
  }

  /** So is every reused stage. */
  ghost predicate ReusedMadeUnder(skipped: seq<bool>, stages: seq<StageMeta>, c: Config)
  {
    forall k: nat | k < |skipped| && skipped[k] :: MadeUnder(stages, c, k)
  }

  /** Stage `i` failed; the later ones are pending. */
  ghost predicate FailedAt(stages: seq<StageMeta>, i: int)
  {
    0 <= i < |stages| && stages[i].Failed? && forall k | i < k < |stages| :: stages[k] == Pending
  }

  /** A directory whose records were all made with another database, query pack or tool, or
      under another configuration, has nothing to reuse. */
  lemma OtherInputsReuseNothing(skipped: seq<bool>, stages: seq<StageMeta>, c: Config)
    requires ReusedMadeUnder(skipped, stages, c)
    requires forall k | 0 <= k < |stages| && stages[k].Completed? ::
               var f := stages[k].manifest.fingerprint;
               || f.database != c.database || f.queryPack != c.queryPack || f.toolVersion != c.toolVersion
               || f.schemaVersion != c.schemaVersion || (c.configHash != "" && f.configHash != c.configHash)
    ensures forall k: nat | k < |skipped| :: !skipped[k]
  {
  }

  lemma MadeNext(skipped: seq<bool>, skip: bool, stages: seq<StageMeta>, c: Config)
    requires ReusedMadeUnder(skipped, stages, c) && (skip ==> MadeUnder(stages, c, |skipped|))
    ensures ReusedMadeUnder(skipped + [skip], stages, c)
  {
  }

  lemma SkippedNext(skipped: seq<bool>, skip: bool)
    requires ReusedFirst(skipped) && (!AllReused(skipped) ==> !skip)
    ensures ReusedFirst(skipped + [skip]) && (AllReused(skipped + [skip]) <==> AllReused(skipped) && skip)
  {
    var next := skipped + [skip];
    assert forall k | 0 <= k < |skipped| :: next[k] == skipped[k];
    assert next[|skipped|] == skip;
  }

  /** The stage records a run may find something to reuse in. */
  function Recorded(resume: bool, saved: Option<RunDoc>): seq<StageMeta>
  {
    if resume && saved.Some? then saved.value.stages else []
  }

  class Pipeline {
    const disk: Disk
    const config: Config
    const exec: Executor
    const resume: bool
    ghost const owner: Path -> Stage
    var run: RunDoc
    var prior: map<Stage, Manifest>

    ghost predicate Sound()
      reads this, disk
    {
      && disk.Valid() && disk.exec == exec && Disjoint(exec, owner)
      && CompletedPrefix(exec, run) && AllGenuine(exec, prior)
    }

    ghost predicate Stands(n: nat)
      reads this, disk
    {
      Current(exec, config, disk.files, disk.manifests, run.stages, n)
    }

    constructor (disk: Disk, config: Config, exec: Executor, resume: bool, ghost owner: Path -> Stage)
      requires disk.Valid() && disk.exec == exec && Disjoint(exec, owner)
      ensures Sound() && this.disk == disk && this.config == config && this.exec == exec && this.resume == resume
      ensures this.owner == owner
    {
      this.disk, this.config, this.exec, this.resume, this.owner := disk, config, exec, resume, owner;
      run, prior := NEW_RUN, map[];
    }

    /** Snapshots the manifests whose artifacts later publications may replace. */
    method LoadPrior()
      requires Sound()
      modifies `prior
      ensures Sound() && prior == disk.manifests
    {
      disk.InvNow();
      prior := map[];
      for i := 0 to |STAGES|
        invariant prior == FirstManifests(disk.manifests, i)
      {
        var s := STAGES[i];
        if s in disk.manifests { prior := prior[s := disk.manifests[s]]; }
      }
      FirstManifestsAll(disk.manifests);
    }

    method LoadRun()
      requires Sound()
      modifies `run
      ensures Sound() && run == if resume && disk.run.Some? then disk.run.value else NEW_RUN
    {
      disk.InvNow();
      run := if resume && disk.run.Some? then disk.run.value else NEW_RUN;
    }

    /** `_reusable`: the recorded stage, its manifest on disk and its files all agree. */
    method CheckReusable(i: nat, expected: Fingerprint) returns (yes: bool)
      requires Sound() && i < |STAGES|
      ensures yes == Reusable(disk.Now(), run.stages[i], STAGES[i], expected, config.schemaVersion)
    {
      var meta := run.stages[i];
      if !meta.Completed? || meta.manifest.fingerprint != expected { return false; }
      var artifacts := meta.manifest.artifacts;
      if artifacts == [] || meta.manifest.outputHash != OutputHash(artifacts) { return false; }
      if STAGES[i] !in disk.manifests || disk.manifests[STAGES[i]] != meta.manifest { return false; }
      for j := 0 to |artifacts|
        invariant forall k | 0 <= k < j ::
            artifacts[k].schemaVersion == config.schemaVersion && Intact(disk.files, artifacts[k])
      {
        if artifacts[j].schemaVersion != config.schemaVersion || !Intact(disk.files, artifacts[j]) { return false; }
      }
      yes := true;
    }

    /** Marks the stages from `first` on invalid. */
    method InvalidateFrom(first: nat)
      requires Sound() && first < |STAGES|
      modifies `run
      ensures Sound() && run == old(run).(stages := run.stages) && run.stages[..first] == old(run.stages)[..first]
      ensures InvalidFrom(run.stages, first)
    {
      ghost var was := run;
      for i := first to |STAGES|
        invariant run == was.(stages := run.stages) && |run.stages| == |STAGES|
            && run.stages[..first] == was.stages[..first]
        invariant forall k | first <= k < i :: run.stages[k] == Invalid
      {
        run := run.(stages := run.stages[i := Invalid]);
      }
      CutPrefix(exec, was, run.stages, first);
    }

    /** Records that stage `first` failed; the later ones are pending again. */
    method MarkFailure(first: nat, code: string)
      requires Sound() && first < |STAGES|
      modifies `run
      ensures Sound() && run.status == RunFailed(code) && run.attempt == old(run.attempt)
      ensures run.stages[..first] == old(run.stages)[..first] && run.stages[first] == Failed(code)
      ensures forall k | first < k < |STAGES| :: run.stages[k] == Pending
    {
      ghost var was := run;
      run := run.(stages := run.stages[first := Failed(code)], status := RunFailed(code));
      for i := first + 1 to |STAGES|
        invariant run == was.(stages := run.stages, status := RunFailed(code)) && |run.stages| == |STAGES|
        invariant run.stages[..first] == was.stages[..first] && run.stages[first] == Failed(code)
        invariant forall k | first < k < i :: run.stages[k] == Pending
      {
        run := run.(stages := run.stages[i := Pending]);
      }
      CutPrefix(exec, was, run.stages, first);
    }

    /** Reads the upstream artifacts back and runs the stage on them. */
    method Execute(i: nat, fp: Fingerprint) returns (e: Effect, out: Option<Files>)
      requires Sound() && i < |STAGES| && Stands(i)
      requires fp == FreshFingerprint(config, STAGES[i], Fresh(exec, config, i).value)
      modifies disk`calm
      ensures disk.calm == (old(disk.calm) && e == Done)
      ensures e == Done ==> out == exec(fp, Upstream(fp))
    {
      var upstream := ReadUpstream(exec, config, disk.files, disk.manifests, run.stages, i, config.schemaVersion);
      FreshNext(exec, config, i, fp);
      e := disk.Chance();
      out := exec(fp, upstream);
    }

    /** Records a published stage as complete. */
    method Record(i: nat, m: Manifest)
      requires Sound() && i < |STAGES| && InvalidFrom(run.stages, i) && m.stage == STAGES[i] && Genuine(exec, m)
      requires forall k | 0 <= k < i :: run.stages[k].Completed?
      modifies `run, `prior
      ensures Sound() && run == old(run).(stages := old(run).stages[i := Completed(m)])
          && InvalidFrom(run.stages, i + 1)
    {
      CompletePrefix(exec, run, i, m);
      run := run.(stages := run.stages[i := Completed(m)]);
      prior := prior[m.stage := m];
    }

    lemma AllComplete(i: nat)
      requires Stands(i) && i <= |STAGES| == |run.stages|
      ensures forall k | 0 <= k < i :: run.stages[k].Completed?
    {
      forall k | 0 <= k < i ensures run.stages[k].Completed? {
        CurrentComplete(exec, config, disk.files, disk.manifests, run.stages, i, k);
      }
    }

    /** Publishes the output of one stage and records it. */
    method Install(i: nat, fp: Fingerprint, out: Files, stamp: int) returns (e: Effect)
      requires Sound() && i < |STAGES| && Stands(i) && InvalidFrom(run.stages, i)
      requires fp == FreshFingerprint(config, STAGES[i], Fresh(exec, config, i).value)
          && exec(fp, Upstream(fp)) == Some(out)
      modifies `run, `prior, disk`files, disk`manifests, disk`trace, disk`calm
      ensures Sound() && run.attempt == old(run.attempt)
      ensures e == Done ==> out != map[] && Stands(i + 1) && InvalidFrom(run.stages, i + 1)
      ensures disk.calm == (old(disk.calm) && (e == Done || out == map[]))
    {
      AllComplete(i);
      ghost var files, manifests, stages := disk.files, disk.manifests, run.stages;
      var r, m := Publish(disk, prior, fp, out, stamp);
      if !r.Complete? { return if r.Refused? then Raised else Escaped; }
      PublishedIsCurrent(exec, owner, config, prior, files, manifests, stages, i, out, m);
      Record(i, m);
      e := Done;
    }

    /** Executes and publishes one stage, then checkpoints. */
    method PublishStage(i: nat, fp: Fingerprint, stamp: int) returns (e: Effect)
      requires Sound() && i < |STAGES| && Stands(i) && InvalidFrom(run.stages, i)
      requires fp == FreshFingerprint(config, STAGES[i], Fresh(exec, config, i).value)
      modifies `run, `prior, disk
      ensures Sound() && run.attempt == old(run.attempt)
      ensures e == Done ==> Stands(i + 1) && InvalidFrom(run.stages, i + 1)
      ensures old(disk.calm) ==> (e == Done <==> disk.calm && Fresh(exec, config, i + 1).Some?)
      ensures disk.calm ==> old(disk.calm)
    {
      FreshNext(exec, config, i, fp);
      var out;
      e, out := Execute(i, fp);
      if e == Done {
        e := Raised;
        if out.Some? {
          e := Install(i, fp, out.value, stamp);
          if e == Done { e := disk.WriteRun(run); }
        }
      }
    }

    /** One iteration of the stage loop. */
    method RunStage(i: nat, stamp: int, hashes: map<Stage, OutputHash>, ghost dirty: bool)
      returns (e: Effect, hashes': map<Stage, OutputHash>, reused: bool)
      requires Sound() && i < |STAGES| && Stands(i) && (dirty ==> InvalidFrom(run.stages, i))
      requires hashes == HashesOf(Fresh(exec, config, i).value, config.schemaVersion)
      modifies `run, `prior, disk
      ensures Sound() && run.attempt == old(run.attempt) && (dirty ==> !reused)
      ensures reused == old(Reusable(disk.Now(), run.stages[i], STAGES[i],
                                     FreshFingerprint(config, STAGES[i], Fresh(exec, config, i).value),
                                         config.schemaVersion))
      ensures reused ==> e == Done && unchanged(this) && unchanged(disk)
      ensures reused ==> MadeUnder(old(run.stages), config, i)
      ensures e == Raised ==> FailedAt(run.stages, i)
      ensures e == Done ==> Stands(i + 1) && hashes' == HashesOf(Fresh(exec, config, i + 1).value, config.schemaVersion)
      ensures e == Done && !reused ==> InvalidFrom(run.stages, i + 1)
      ensures old(disk.calm) ==> (e == Done <==> disk.calm && Fresh(exec, config, i + 1).Some?)
      ensures disk.calm ==> old(disk.calm)
    {
      var expected := FingerprintOf(config, STAGES[i], hashes);
      reused := CheckReusable(i, expected);
      hashes' := hashes;
      if reused {
        disk.InvNow();
        ReusedIsCurrent(exec, config, disk.Now(), run.stages, i, expected);
        e := Done;
      } else {
        ghost var stages := run.stages;
        InvalidateFrom(i);
        CurrentCut(exec, config, disk.files, disk.manifests, stages, run.stages, i);
        e := PublishStage(i, expected, stamp);
        if e == Raised { MarkFailure(i, "ANALYSIS_STAGE_FAILED"); }
      }
      if e == Done {
        HashesAfter(exec, config, disk.files, disk.manifests, run.stages, i);
        hashes' := hashes[STAGES[i] := run.stages[i].manifest.outputHash];
      }
    }

    /** The stage loop. `skipped` tells, stage by stage, which were reused. */
    method RunStages(n: nat, stamp: int) returns (e: Effect, skipped: seq<bool>)
      requires Sound() && n <= |STAGES|
      modifies `run, `prior, disk
      ensures Sound() && run.attempt == old(run.attempt) && |skipped| <= n && ReusedFirst(skipped)
      ensures ReusedMadeUnder(skipped, old(run.stages), config)
      ensures e == Raised ==> FailedAt(run.stages, |skipped| - 1)
      ensures e == Done ==> Stands(n) && |skipped| == n
      ensures e == Done && AllReused(skipped) ==> disk.files == old(disk.files) && disk.manifests == old(disk.manifests)
      ensures old(disk.calm) ==> (e == Done <==> disk.calm && Fresh(exec, config, n).Some?)
    {
      e, skipped := Done, [];
      ghost var recorded := run.stages;
      var hashes: map<Stage, OutputHash> := map[];
      assert Fresh(exec, config, 0) == Some(map[]);
      for i := 0 to n
        invariant Sound() && Stands(i) && hashes == HashesOf(Fresh(exec, config, i).value, config.schemaVersion)
        invariant |skipped| == i && ReusedFirst(skipped) && ReusedMadeUnder(skipped, recorded, config)
        invariant AllReused(skipped) ==> run.stages == recorded
        invariant AllReused(skipped) ==> disk.files == old(disk.files) && disk.manifests == old(disk.manifests)
        invariant !AllReused(skipped) ==> InvalidFrom(run.stages, i)
        invariant disk.calm == old(disk.calm) && e == Done && run.attempt == old(run.attempt)
      {
        var skip;
        e, hashes, skip := RunStage(i, stamp, hashes, !AllReused(skipped));
        MadeNext(skipped, skip, recorded, config);
        SkippedNext(skipped, skip);
        skipped := skipped + [skip];
        if e != Done {
          if Fresh(exec, config, n).Some? { FreshSome(exec, config, i + 1, n); }
          return;
        }
      }
    }

    /** Loads the past, announces the attempt, runs the preflight and the stages. */
    method Attempt(n: nat, stamp: int) returns (e: Effect, skipped: seq<bool>, loaded: bool)
      requires Sound() && n <= |STAGES|
      modifies `run, `prior, disk
      ensures Sound() && ReusedFirst(skipped)
      ensures ReusedMadeUnder(skipped, Recorded(resume, old(disk.run)), config)
      ensures e == Raised && skipped != [] ==> loaded && FailedAt(run.stages, |skipped| - 1)
      ensures loaded ==> run.attempt == (if resume && old(disk.run).Some? then old(disk.run).value.attempt else 0) + 1
      ensures e == Done ==> Stands(n) && |skipped| == n && loaded
      ensures e == Done && AllReused(skipped) ==> disk.files == old(disk.files) && disk.manifests == old(disk.manifests)
      ensures old(disk.calm) ==> (e == Done <==> disk.calm && Fresh(exec, config, n).Some?)
    {
      skipped, loaded := [], false;
      e := disk.Chance();
      if e != Done { return; }
      LoadPrior();
      LoadRun();
      loaded := true;
      run := run.(attempt := run.attempt + 1, status := RunRunning);
      e := disk.WriteRun(run);
      if e != Done { return; }
      e := disk.Chance();
      if e != Done { return; }
      e := disk.WriteRun(run);
      if e != Done { return; }
      e, skipped := RunStages(n, stamp);
    }

    /** Saves the run as failed; a stage failure already recorded is kept. */
    method SaveFailure(finalized: Effect) returns (saved: Effect)
      requires Sound()
      modifies `run, disk`run, disk`trace, disk`calm
      ensures Sound() && disk.calm == (old(disk.calm) && saved == Done)
      ensures run.status.RunFailed? && (saved == Done ==> disk.run == Some(run)) && run.stages == old(run.stages)
    {
      if finalized != Done {
        run := run.(status := RunFailed("ANALYSIS_FINALIZATION_FAILED"));
      } else if !run.status.RunFailed? {
        run := run.(status := RunFailed("ANALYSIS_PIPELINE_FAILED"));
      }
      saved := disk.WriteRun(run);
    }

    /** What follows an attempt: saving a failure, the finalizer, the last checkpoint. */
    method Finish(attempted: bool, loaded: bool) returns (ok: bool, saved: Effect)
      requires Sound()
      modifies `run, disk`run, disk`trace, disk`calm
      ensures Sound() && (ok ==> attempted) && run.stages == old(run.stages)
      ensures ok ==> disk.run == Some(run) && run == old(run).(status := RunCompleted)
      ensures !ok && loaded && saved == Done ==> disk.run == Some(run) && run.status.RunFailed?
      ensures attempted ==> (disk.calm <==> old(disk.calm) && ok)
      ensures disk.calm ==> old(disk.calm)
    {
      saved := Done;
      if !attempted && loaded { saved := SaveFailure(Done); }
      var finalized := disk.Chance();
      ok := attempted && finalized == Done;
      if ok {
        run := run.(status := RunCompleted);
        saved := disk.WriteRun(run);
        ok := saved == Done;
      } else if loaded && (finalized != Done || saved != Done) {
        saved := SaveFailure(finalized);
      }
    }

    /** One run up to `target`. It succeeds exactly when nothing failed and the executors
        produce an output for every stage, and then the directory holds, stage by stage,
        what a run from an empty directory produces. Only a stage recorded as completed under
        this very configuration is reused. A failure that could be saved is on record, with
        the stage that raised. */
    method Run(target: Stage, stamp: int)
      returns (ok: bool, skipped: seq<bool>, saved: bool, ghost ended: Effect)
      requires Sound()
      modifies `run, `prior, disk
      ensures Sound() && ReusedFirst(skipped) && ReusedMadeUnder(skipped, Recorded(resume, old(disk.run)), config)
      ensures ended == Raised && skipped != [] && saved ==>
                disk.run.Some? && FailedAt(disk.run.value.stages, |skipped| - 1)
      ensures ok ==> ended == Done
      ensures ok ==> Stands(Index(target) + 1) && |skipped| == Index(target) + 1
      ensures ok ==> disk.run == Some(run) && run.status == RunCompleted
      ensures ok ==> run.attempt == (if resume && old(disk.run).Some? then old(disk.run).value.attempt else 0) + 1
      ensures ok && AllReused(skipped) ==> disk.files == old(disk.files) && disk.manifests == old(disk.manifests)
      ensures !ok && saved ==> disk.run.Some? && disk.run.value.status.RunFailed?
      ensures ok <==> disk.calm && Fresh(exec, config, Index(target) + 1).Some?
    {
      disk.calm := true;
      var e, loaded;
      e, skipped, loaded := Attempt(Index(target) + 1, stamp);
      var last;
      ended := e;
      ok, last := Finish(e == Done, loaded);
      saved := loaded && last == Done;
    }
  }
}
