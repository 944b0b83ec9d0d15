/** The batch runner in its own form: an object whose methods update shared state. Each
    method is one atomic step of the machine, so any schedule of calls is a run of it. */
module BatchRunner {
  import opened BatchMachine
  import opened BatchInvariants
  import opened BatchTheorems

  class Runner {
    const limits: Limits
    var records: seq<Record>
    var reusable: seq<bool>
    var interrupt: bool
    var interruptedIds: set<nat>
    var handler: Handler
    var pending: seq<nat>
    var active: set<nat>
    var phase: seq<Phase>
    var pc: Pc
    var starts: seq<nat>
    var writing: Writing
    ghost var first: World

    ghost function Now(): World
      reads this
    {
      World(records, reusable, interrupt, interruptedIds, handler, pending, active, phase, pc, starts, writing)
    }

    ghost predicate Valid()
      reads this
    {
      Inv(limits, Now(), first.records, first.reusable)
    }

    /** Loads the records, turns exhausted completed ones without artifacts into gaps, and
        queues what is eligible. */
    constructor (limits: Limits, records: seq<Record>, reusable: seq<bool>)
      requires |records| == |reusable| && limits.maxWorkers > 0
      ensures Valid() && this.limits == limits && Now() == first == Init(limits, records, reusable)
    {
      this.limits := limits;
      this.records, this.reusable, interrupt, interruptedIds, handler := records, reusable, false, {}, Idle;
      active, pc, writing := {}, Submitting, NoWrite;
      phase, starts := seq(|records|, _ => NoWorker), seq(|records|, _ => 0);
      new;
      NormalizeCompletedGaps();
      var eligible := EligibleTargets();
      pending := eligible;
      first := Now();
      InitInv(limits, records, reusable);
    }

    method NormalizeCompletedGaps()
      requires |records| == |reusable|
      modifies `records
      ensures records == NormalizedAll(limits, old(records), reusable)
    {
      ghost var was := records;
      for i := 0 to |records|
        invariant |records| == |was|
        invariant forall j | 0 <= j < i :: records[j] == Normalized(limits, was[j], reusable[j])
        invariant forall j | i <= j < |was| :: records[j] == was[j]
      {
        var r := records[i];
        if r.state.Completed? && r.attempt >= limits.maxAttempts && !reusable[i] {
          records := records[i := r.(state := CompletedWithGaps, errorCode := "BATCH_TARGET_ARTIFACTS_MISSING")];
        }
      }
      assert records == NormalizedAll(limits, was, reusable);
    }

    method EligibleTargets() returns (targets: seq<nat>)
      requires |records| == |reusable|
      ensures targets == EligibleList(limits, records, reusable, |records|)
    {
      targets := [];
      for i := 0 to |records|
        invariant targets == EligibleList(limits, records, reusable, i)
      {
        if Eligible(limits, records[i], reusable[i]) { targets := targets + [i]; }
      }
    }

    /** `_update` up to its test: takes the state lock and settles what will be written. */
    method ChooseUpdate(i: nat, r: Record, next: Phase)
      requires i < |records|
      modifies `writing
      ensures Now() == Choose(old(Now()), i, r, next)
    {
      if i in interruptedIds || (interrupt && records[i].state == Interrupted) {
        writing := Chosen(i, records[i].(state := Interrupted, errorCode := "BATCH_INTERRUPTED"), next);
      } else {
        writing := Chosen(i, r, next);
      }
    }

    /** The rest of `_update`: writes, and leaves the lock. */
    method WriteUpdate()
      requires writing.Chosen? && writing.target < |records| == |phase|
      modifies `records, `phase, `writing
      ensures Now() == Commit(old(Now()))
    {
      records := records[writing.target := writing.record];
      phase := phase[writing.target := writing.next];
      writing := NoWrite;
    }

    /** One record of `_mark_interrupted`. */
    method Mark(i: nat)
      requires i < |records|
      modifies `records, `interruptedIds
      ensures Now() == MarkOne(old(Now()), i)
    {
      if Live(records[i]) { interruptedIds := interruptedIds + {i}; }
      if i in interruptedIds && records[i].state != Interrupted {
        records := records[i := records[i].(state := Interrupted, errorCode := "BATCH_INTERRUPTED")];
      }
    }

    method Submit()
      requires pending != [] && pending[0] < |phase| == |starts|
      modifies `pending, `active, `phase, `starts
      ensures Now() == SubmitOne(old(Now()))
    {
      var i := pending[0];
      pending, active := pending[1..], active + {i};
      phase, starts := phase[i := Submitted], starts[i := starts[i] + 1];
    }

    method Collect(i: nat)
      requires i < |records| == |reusable| == |phase|
      modifies `pending, `active, `phase
      ensures Now() == CollectOne(limits, old(Now()), i)
    {
      active, phase := active - {i}, phase[i := NoWorker];
      if !interrupt && Eligible(limits, records[i], reusable[i]) { pending := pending + [i]; }
    }

    /** Counts the states as the runner does before it settles the final status. */
    method FinalStatus() returns (status: BatchStatus)
      ensures status == Decide(interrupt, records)
    {
      var interrupted, failed, unfinished := false, false, false;
      for i := 0 to |records|
        invariant interrupted <==> Has(records[..i], Interrupted)
        invariant failed <==> Has(records[..i], Failed)
        invariant unfinished <==> exists j | 0 <= j < i :: Unfinished(records[j].state)
      {
        HasNext(records, i, Interrupted);
        HasNext(records, i, Failed);
        var s := records[i].state;
        interrupted, failed := interrupted || s.Interrupted?, failed || s.Failed?;
        unfinished := unfinished || Unfinished(s);
      }
      assert records[..|records|] == records;
      UnfinishedMeans(records);
      status :=
        if interrupt || interrupted then BatchInterrupted
        else if failed then BatchCompletedWithFailures
        else if unfinished then BatchCompletedWithGaps
        else BatchCompleted;
    }

    method MainThread()
      requires Valid() && Enabled(Now(), Main)
      modifies this
      ensures Now() == MainStep(limits, old(Now())) && first == old(first)
    {
      match pc
      case Submitting =>
        if !interrupt && |active| < limits.maxWorkers && pending != [] { pc := Admitted; }
        else if active != {} { pc := Waiting; } else { pc := LastCheck; }
      case Admitted =>
        Submit();
        pc := Submitting;
      case Woken(done) =>
        if interrupt { pc := Marking(0, Collecting(done)); } else { pc := Collecting(done); }
      case Marking(i, after) =>
        if i < |records| { Mark(i); pc := Marking(i + 1, after); } else { pc := after; }
      case Collecting(done) =>
        if done == [] { pc := Submitting; } else {
          assert ToCollect(pc)[0] == done[0] && Working(Now(), done[0], Finished);
          Collect(done[0]);
          pc := Collecting(done[1..]);
        }
      case LastCheck =>
        if interrupt { pc := Marking(0, Normalizing(true)); } else { pc := Normalizing(false); }
      case Normalizing(seen) =>
        NormalizeCompletedGaps();
        pc := Deciding(seen);
      case Deciding(seen) =>
        var status := FinalStatus();
        pc := Publishing(status, seen, interrupt);
      case Publishing(status, seen, told) =>
        pc := Over(status, seen, told);
    }

    /** One step of the signal handler: it takes no lock and writes no record. */
    method RequestInterrupt()
      modifies `interruptedIds, `handler
      ensures Now() == HandlerStep(old(Now()))
    {
      match handler
      case Idle =>
      case Checking(i) =>
        if i >= |records| { handler := Idle; }
        else { handler := if Live(records[i]) then Admitting(i) else Checking(i + 1); }
      case Admitting(i) =>
        interruptedIds := interruptedIds + {i};
        handler := Checking(i + 1);
    }

    /** One step of the worker of target `i`. */
    method Worker(a: Action)
      requires Valid() && Enabled(Now(), a) && !a.Main? && !a.Wake? && !a.KeyboardInterrupt? && !a.Signal? && !a.Handle?
      modifies this
      ensures Now() == Next(limits, old(Now()), a) && first == old(first)
    {
      match a
      case Start(i) => ChooseUpdate(i, Started(records[i]), InFlight);
      case End(i, outcome) => ChooseUpdate(i, Ended(records[i], outcome), Finished);
      case Write => WriteUpdate();
      case Escape(i) => interruptedIds, phase := interruptedIds + {i}, phase[i := Escaping];
      case EscapeUpdate(i) => ChooseUpdate(i, Stopped(records[i]), Leaving);
      case EscapeSignal(i) => interrupt, phase := true, phase[i := Finished];
      case Touch(i, b) => reusable := reusable[i := b];
    }

    /** One enabled step, whoever takes it. */
    method Step(a: Action)
      requires Valid() && Enabled(Now(), a)
      modifies this
      ensures Valid() && Now() == Next(limits, old(Now()), a) && first == old(first)
    {
      InvKept(limits, Now(), a, first.records, first.reusable);
      match a
      case Main => MainThread();
      case Wake(done) => pc := Woken(done);
      case KeyboardInterrupt => interrupt, handler, pc := true, Checking(0), Marking(0, Waiting);
      case Signal => interrupt, handler := true, Checking(0);
      case Handle => RequestInterrupt();
      case _ => Worker(a);
    }

    /** Any interleaving. */
    method Run(schedule: seq<Action>)
      requires Valid()
      modifies this
      ensures Valid() && first == old(first) && Now() == After(limits, old(Now()), schedule)
    {
      ghost var start := Now();
      for k := 0 to |schedule|
        invariant Valid() && first == old(first)
        invariant After(limits, Now(), schedule[k..]) == After(limits, start, schedule)
      {
        assert schedule[k..][1..] == schedule[k + 1..];
        if CanStep(schedule[k]) { Step(schedule[k]); }
      }
    }

    predicate CanStep(a: Action)
      reads this
      ensures CanStep(a) == Enabled(Now(), a)
    {
      var now := World(
        records, reusable, interrupt, interruptedIds, handler, pending, active, phase, pc, starts, writing);
      Enabled(now, a)
    }
  }

  predicate Unfinished(s: TargetState)
  {
    s.Paused? || s.Queued? || s.Running? || s.Retrying? || s.CompletedWithGaps?
  }

  lemma HasNext(records: seq<Record>, i: nat, s: TargetState)
    requires i < |records|
    ensures Has(records[..i + 1], s) <==> Has(records[..i], s) || records[i].state == s
  {
    var next := records[..i + 1];
    assert next[i] == records[i];
    if Has(records[..i], s) {
      var j :| 0 <= j < i && records[..i][j].state == s;
      assert next[j].state == s;
    }
    if Has(next, s) {
      var j :| 0 <= j < i + 1 && next[j].state == s;
      if j < i { assert records[..i][j].state == s; }
    }
  }

  lemma UnfinishedMeans(records: seq<Record>)
    ensures (exists j | 0 <= j < |records| :: Unfinished(records[j].state)) <==>
            Has(records, Paused) || Has(records, Queued) || Has(records, Running) || Has(records, Retrying)
                || Has(records, CompletedWithGaps)
  {
    if j :| 0 <= j < |records| && Unfinished(records[j].state) {
      assert Has(records, records[j].state);
    }
  }
}
