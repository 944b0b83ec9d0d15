/** The output directory, with every state it has ever been in. */
module PipelineDisk {
  import opened Bytes
  import opened PipelineModel

  /** How a file operation ends: done, an ordinary exception before any effect, or an
      escape (interrupt, exit) that may come before or after the effect. */
  datatype Effect = Done | Raised | Escaped

  /** Every state of a trace satisfies the invariant. */
  ghost predicate AllInv(exec: Executor, trace: seq<Snapshot>)
  {
    forall i {:trigger Inv(exec, trace[i])} | 0 <= i < |trace| :: Inv(exec, trace[i])
  }

  lemma AllInvAppend(exec: Executor, trace: seq<Snapshot>, s: Snapshot)
    requires AllInv(exec, trace) && Inv(exec, s)
    ensures AllInv(exec, trace + [s])
  {
    forall i | 0 <= i < |trace + [s]| ensures Inv(exec, (trace + [s])[i]) {
      if i < |trace| { assert Inv(exec, trace[i]); }
    }
  }

  class Disk {
    ghost const exec: Executor
    var files: Files
    var manifests: map<Stage, Manifest>
    var run: Option<RunDoc>
    /** Every state so far, the present one last: a kill leaves one of these behind. */
    var trace: seq<Snapshot>
    /** Nothing has failed since the current run began. */
    ghost var calm: bool

    ghost function Now(): Snapshot
      reads this
    {
      Snapshot(files, manifests, run)
    }

    ghost predicate Valid()
      reads this
    {
      && trace != [] && trace[|trace| - 1] == Now()
      && AllInv(exec, trace)
    }

    lemma InvNow()
      requires Valid()
      ensures Inv(exec, Now())
    {
      assert Inv(exec, trace[|trace| - 1]);
    }

    constructor (ghost exec: Executor)
      ensures Valid() && Now() == EMPTY && this.exec == exec
    {
      this.exec := exec;
      files, manifests, run := map[], map[], None;
      trace := [EMPTY];
      calm := true;
    }

    /** The environment decides how a step ends. */
    method Chance() returns (e: Effect)
      modifies `calm
      ensures calm == (old(calm) && e == Done)
    {
      e := *;
      calm := calm && e == Done;
    }

    method Journal()
      requires AllInv(exec, trace) && Inv(exec, Now())
      modifies `trace
      ensures Valid() && trace == old(trace) + [Now()]
    {
      AllInvAppend(exec, trace, Now());
      trace := trace + [Snapshot(files, manifests, run)];
    }

    /** Moves a file away, as `os.replace` to a scratch path. */
    method MoveOut(p: Path) returns (e: Effect, data: bytes)
      requires Valid() && p in files
      modifies `files, `trace, `calm
      ensures Valid() && old(trace) <= trace
      ensures calm == (old(calm) && e == Done)
      ensures data == old(files)[p]
      ensures e == Done ==> files == old(files) - {p}
      ensures e == Raised ==> files == old(files)
      ensures forall q | q != p :: (q in files <==> q in old(files)) && (q in files ==> files[q] == old(files)[q])
    {
      InvNow();
      data := files[p];
      e := Chance();
      var acted: bool := *;
      if e == Done || (e == Escaped && acted) {
        files := files - {p};
        Journal();
      }
    }

    /** Moves a staged file into place. */
    method MoveIn(p: Path, data: bytes) returns (e: Effect)
      requires Valid()
      modifies `files, `trace, `calm
      ensures Valid() && old(trace) <= trace
      ensures calm == (old(calm) && e == Done)
      ensures e == Done ==> files == old(files)[p := data]
      ensures e == Raised ==> files == old(files)
      ensures forall q | q != p :: (q in files <==> q in old(files)) && (q in files ==> files[q] == old(files)[q])
    {
      InvNow();
      e := Chance();
      var acted: bool := *;
      if e == Done || (e == Escaped && acted) {
        files := files[p := data];
        Journal();
      }
    }

    /** Rollback steps, assumed to succeed. */
    method Unlink(p: Path)
      requires Valid()
      modifies `files, `trace
      ensures Valid() && old(trace) <= trace
      ensures files == old(files) - {p}
    {
      InvNow();
      files := files - {p};
      Journal();
    }

    method PutBack(p: Path, data: bytes)
      requires Valid()
      modifies `files, `trace
      ensures Valid() && old(trace) <= trace
      ensures files == old(files)[p := data]
    {
      InvNow();
      files := files[p := data];
      Journal();
    }

    method TakeManifest(s: Stage) returns (e: Effect)
      requires Valid() && s in manifests
      modifies `manifests, `trace, `calm
      ensures Valid() && old(trace) <= trace
      ensures calm == (old(calm) && e == Done)
      ensures e == Done ==> manifests == old(manifests) - {s}
      ensures e == Raised ==> manifests == old(manifests)
      ensures e == Escaped ==> manifests == old(manifests) || manifests == old(manifests) - {s}
    {
      InvNow();
      e := Chance();
      var acted: bool := *;
      if e == Done || (e == Escaped && acted) {
        manifests := manifests - {s};
        Journal();
      }
    }

    method PutManifest(m: Manifest) returns (e: Effect)
      requires Valid() && Genuine(exec, m)
      modifies `manifests, `trace, `calm
      ensures Valid() && old(trace) <= trace
      ensures calm == (old(calm) && e == Done)
      ensures e == Done ==> manifests == old(manifests)[m.stage := m]
      ensures e == Raised ==> manifests == old(manifests)
      ensures e == Escaped ==> manifests == old(manifests) || manifests == old(manifests)[m.stage := m]
    {
      InvNow();
      e := Chance();
      var acted: bool := *;
      if e == Done || (e == Escaped && acted) {
        manifests := manifests[m.stage := m];
        Journal();
      }
    }

    method DropManifest(s: Stage)
      requires Valid()
      modifies `manifests, `trace
      ensures Valid() && old(trace) <= trace
      ensures manifests == old(manifests) - {s}
    {
      InvNow();
      manifests := manifests - {s};
      Journal();
    }

    method ReturnManifest(m: Manifest)
      requires Valid() && Genuine(exec, m)
      modifies `manifests, `trace
      ensures Valid() && old(trace) <= trace
      ensures manifests == old(manifests)[m.stage := m]
    {
      InvNow();
      manifests := manifests[m.stage := m];
      Journal();
    }

    /** Replaces `run.json` atomically; the directory sync after the replacement can still
        raise, so a failure leaves either document. */
    method WriteRun(doc: RunDoc) returns (e: Effect)
      requires Valid() && CompletedPrefix(exec, doc)
      modifies `run, `trace, `calm
      ensures Valid() && old(trace) <= trace
      ensures calm == (old(calm) && e == Done)
      ensures e == Done ==> run == Some(doc)
      ensures run == old(run) || run == Some(doc)
    {
      InvNow();
      e := Chance();
      var acted: bool := *;
      if e == Done || acted {
        run := Some(doc);
        Journal();
      }
    }

    /** The process dies: the directory is as it was at some past moment `i` of the run. */
    method Kill(i: nat)
      requires Valid() && i < |trace|
      modifies this
      ensures Valid() && Now() == old(trace)[i]
    {
      ghost var past := trace;
      var s := trace[i];
      files, manifests, run := s.files, s.manifests, s.run;
      trace := trace[..i + 1];
      forall j | 0 <= j < |trace| ensures Inv(exec, trace[j]) { assert Inv(exec, past[j]); }
    }
  }
}
