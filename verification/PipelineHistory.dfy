/** Whole histories of one output directory: runs of any configuration, target and outcome,
    killed at any step; and what the next completed run leaves. */
module PipelineHistory {
  import opened Bytes
  import opened PipelineModel
  import opened PipelineDisk
  import opened PipelinePublish
  import opened PipelineProgress
  import opened PipelineRun

  /** One use of the directory. `killedAt` picks the moment the process died, if it did. */
  datatype Session = Session(config: Config, resume: bool, target: Stage, stamp: int, killedAt: Option<nat>)

  /** Two directories agree on every artifact the first `n` stages published. */
  ghost predicate SameArtifacts(
      files: Files, manifests: map<Stage, Manifest>, files': Files, manifests': map<Stage, Manifest>, n: nat)
  {
    forall s: Stage | Index(s) < n ::
      && s in manifests && s in manifests' && manifests[s].artifacts == manifests'[s].artifacts
      && forall i | 0 <= i < |manifests[s].artifacts| ::
           var p := manifests[s].artifacts[i].path;
           p in files && p in files' && files[p] == files'[p]
  }

  lemma ListedHeld(files: Files, files': Files, out: Files, schemaVersion: string, i: nat)
    requires Holds(files, out) && Holds(files', out) && i < |Listing(out, schemaVersion)|
    ensures var p := Listing(out, schemaVersion)[i].path; p in files && p in files' && files[p] == files'[p]
  {
    ListingEntry(out, schemaVersion, i);
  }

  /** Completed runs of one configuration agree, whatever the directories went through. */
  lemma CompletedRunsAgree(
      exec: Executor, c: Config, files: Files, manifests: map<Stage, Manifest>, stages: seq<StageMeta>,
      files': Files, manifests': map<Stage, Manifest>, stages': seq<StageMeta>, n: nat)
    requires Current(exec, c, files, manifests, stages, n) && Current(exec, c, files', manifests', stages', n)
    ensures SameArtifacts(files, manifests, files', manifests', n)
  {
    var outputs := Fresh(exec, c, n).value;
    forall s: Stage | Index(s) < n
      ensures s in manifests && s in manifests' && manifests[s].artifacts == manifests'[s].artifacts
      ensures forall i | 0 <= i < |manifests[s].artifacts| ::
                var p := manifests[s].artifacts[i].path;
                p in files && p in files' && files[p] == files'[p]
    {
      FreshKeys(exec, c, n, s);
      assert StageCurrent(files, manifests, stages, c.schemaVersion, s, outputs[s]);
      assert StageCurrent(files', manifests', stages', c.schemaVersion, s, outputs[s]);
      forall i | 0 <= i < |manifests[s].artifacts|
        ensures var p := manifests[s].artifacts[i].path; p in files && p in files' && files[p] == files'[p]
      {
        ListedHeld(files, files', outputs[s], c.schemaVersion, i);
      }
    }
  }

  /** One run by a new process. */
  method RunOnce(
      disk: Disk, exec: Executor, c: Config, resume: bool, target: Stage, stamp: int, ghost owner: Path -> Stage)
    returns (ok: bool, ghost stages: seq<StageMeta>)
    requires disk.Valid() && disk.exec == exec && Disjoint(exec, owner)
    modifies disk
    ensures disk.Valid()
    ensures ok ==> Current(exec, c, disk.files, disk.manifests, stages, Index(target) + 1)
    ensures ok <==> disk.calm && Fresh(exec, c, Index(target) + 1).Some?
  {
    var p := new Pipeline(disk, c, exec, resume, owner);
    var skipped, saved;
    ghost var ended;
    ok, skipped, saved, ended := p.Run(target, stamp);
    stages := p.run.stages;
  }

  /** Any sequence of runs, each of which may fail anywhere or be killed at any step: every
      state the directory was ever in satisfies the invariant (`Valid`). */
  method Live(disk: Disk, exec: Executor, sessions: seq<Session>, ghost owner: Path -> Stage)
    requires disk.Valid() && disk.exec == exec && Disjoint(exec, owner)
    modifies disk
    ensures disk.Valid()
  {
    for i := 0 to |sessions|
      invariant disk.Valid()
    {
      var session := sessions[i];
      var ok, stages := RunOnce(disk, exec, session.config, session.resume, session.target, session.stamp, owner);
      if session.killedAt.Some? && session.killedAt.value < |disk.trace| {
        disk.Kill(session.killedAt.value);
      }
    }
  }

  /** A completed run on a directory with any past publishes the same artifact bytes, for
      every stage up to its target, as a run of the same configuration in an empty directory;
      and the latter cannot fail unless a step of its own does. */
  method RunAfterAnyPast(
      exec: Executor, past: seq<Session>, c: Config, resume: bool, target: Stage, stamp: int,
      ghost owner: Path -> Stage)
    returns (lived: Disk, ok: bool, empty: Disk, first: bool)
    requires Disjoint(exec, owner)
    ensures ok && first ==> SameArtifacts(lived.files, lived.manifests, empty.files, empty.manifests, Index(target) + 1)
    ensures ok && !first ==> !empty.calm
    ensures first && !ok ==> !lived.calm
  {
    ghost var stages, stages';
    lived := new Disk(exec);
    Live(lived, exec, past, owner);
    ok, stages := RunOnce(lived, exec, c, resume, target, stamp, owner);
    empty := new Disk(exec);
    first, stages' := RunOnce(empty, exec, c, false, target, stamp, owner);
    if ok && first {
      CompletedRunsAgree(exec, c, lived.files, lived.manifests, stages, empty.files, empty.manifests, stages',
          Index(target) + 1);
    }
  }
}
