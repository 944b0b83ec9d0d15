/** What a target's record says in the end: it is what its last run reported, and the final
    status sums the records up. */
module BatchOutcomes {
  import opened BatchMachine
  import opened BatchInvariants
  import opened BatchTheorems

  // ---- Updates -------------------------------------------------------------------------

  /** What an update has chosen stays chosen until it is written. */
  lemma ChosenStays(l: Limits, w: World, a: Action)
    requires Shape(l, w) && Enabled(w, a) && w.writing.Chosen? && !a.Write?
    ensures Next(l, w, a).writing == w.writing
  {
  }

  predicate NoWriteIn(schedule: seq<Action>)
  {
    forall k | 0 <= k < |schedule| :: !schedule[k].Write?
  }

  lemma {:induction false} ChosenKept(
      l: Limits, w: World, schedule: seq<Action>, r0: seq<Record>, u0: seq<bool>)
    requires Inv(l, w, r0, u0) && w.writing.Chosen? && NoWriteIn(schedule)
    ensures Inv(l, After(l, w, schedule), r0, u0) && After(l, w, schedule).writing == w.writing
    decreases |schedule|
  {
    if schedule != [] {
      if Enabled(w, schedule[0]) {
        assert !schedule[0].Write?;
        InvKept(l, w, schedule[0], r0, u0);
        ChosenStays(l, w, schedule[0]);
        ChosenKept(l, Next(l, w, schedule[0]), schedule[1..], r0, u0);
      } else {
        ChosenKept(l, w, schedule[1..], r0, u0);
      }
    }
  }

  /** The test of an update of target `i` sees no interrupt. */
  predicate SeesNone(w: World, i: nat)
    requires i < |w.records|
  {
    i !in w.interruptedIds && !(w.interrupt && w.records[i].state == Interrupted)
  }

  /** The record a run of the pipeline reports. */
  ghost predicate Reports(a: Action, before: Record, after: Record)
  {
    match a
    case Start(_) =>
      && after.attempt == before.attempt + 1 && after.errorCode == ""
      && (after.state == if before.attempt == 0 then Running else Retrying)
    case End(_, Completes) => after.state == Completed && after.attempt == before.attempt
    case End(_, Fails(code)) => after.state == Failed && after.errorCode == code && after.attempt == before.attempt
    case _ => after.state == Interrupted && after.errorCode == "BATCH_INTERRUPTED" && after.attempt == before.attempt
  }

  /** An update whose test sees no interrupt writes what its run reports, however long it takes
      and whatever happens meanwhile; one that sees it writes `interrupted`. */
  lemma UpdateReports(
      l: Limits, w: World, a: Action, i: nat, between: seq<Action>, r0: seq<Record>, u0: seq<bool>)
    requires Inv(l, w, r0, u0) && Enabled(w, a) && NoWriteIn(between)
    requires a == Start(i) || (a.End? && a.target == i) || a == EscapeUpdate(i)
    ensures i < |w.records| && Shape(l, Next(l, w, a)) && Shape(l, After(l, Next(l, w, a), between))
    ensures var w' := After(l, Next(l, w, a), between);
            && Enabled(w', Write) && |Next(l, w', Write).records| == |w.records|
            && Reports(if SeesNone(w, i) then a else EscapeUpdate(i), w.records[i], Next(l, w', Write).records[i])
  {
    InvKept(l, w, a, r0, u0);
    ChosenKept(l, Next(l, w, a), between, r0, u0);
    var w' := After(l, Next(l, w, a), between);
    RecordsSame(l, Next(l, w, a), between);
    assert w'.writing.target in w'.active;
    assert !w'.pc.Over?;
  }

  lemma {:induction false} RecordsSame(l: Limits, w: World, schedule: seq<Action>)
    requires Shape(l, w)
    ensures Shape(l, After(l, w, schedule)) && |After(l, w, schedule).records| == |w.records|
    decreases |schedule|
  {
    if schedule != [] {
      if Enabled(w, schedule[0]) {
        ShapeKept(l, w, schedule[0]);
        RecordsSame(l, Next(l, w, schedule[0]), schedule[1..]);
      } else {
        RecordsSame(l, w, schedule[1..]);
      }
    }
  }

  // ---- Completion ----------------------------------------------------------------------

  /** Target `i` is not completed, nor about to be. */
  predicate Incomplete(w: World, i: nat)
  {
    && i < |w.records| && w.records[i].state != Completed
    && !(w.writing.Chosen? && w.writing.target == i && w.writing.record.state == Completed)
  }

  lemma IncompleteStep(l: Limits, w: World, a: Action, i: nat)
    requires Shape(l, w) && Enabled(w, a) && Incomplete(w, i) && a != End(i, Completes)
    ensures Incomplete(Next(l, w, a), i)
  {
    if w.pc.Normalizing? && a.Main? {
      assert Next(l, w, a).records[i] == Normalized(l, w.records[i], w.reusable[i]);
    }
  }

  /** A record that was not completed becomes completed only when a run of its target's pipeline
      completes. */
  lemma {:induction false} CompletedByRun(l: Limits, w: World, schedule: seq<Action>, i: nat)
    requires Shape(l, w) && Incomplete(w, i)
    ensures |After(l, w, schedule).records| == |w.records|
    ensures After(l, w, schedule).records[i].state == Completed ==> End(i, Completes) in schedule
    decreases |schedule|
  {
    RecordsSame(l, w, schedule);
    if schedule != [] && End(i, Completes) !in schedule {
      assert End(i, Completes) !in schedule[1..];
      if Enabled(w, schedule[0]) {
        assert schedule[0] in schedule;
        IncompleteStep(l, w, schedule[0], i);
        ShapeKept(l, w, schedule[0]);
        CompletedByRun(l, Next(l, w, schedule[0]), schedule[1..], i);
      } else {
        CompletedByRun(l, w, schedule[1..], i);
      }
    }
  }

  /** And the step that completes it is the write of that report. */
  lemma CompletedByWrite(l: Limits, w: World, a: Action, i: nat)
    requires Shape(l, w) && Enabled(w, a) && i < |w.records| && w.records[i].state != Completed
    ensures |Next(l, w, a).records| == |w.records|
    ensures Next(l, w, a).records[i].state == Completed ==>
        && a == Write && w.writing.target == i && w.writing.record.state == Completed
        && w.phase[i] == Before(w.writing.next)
  {
    if w.pc.Normalizing? && a.Main? {
      assert Next(l, w, a).records[i] == Normalized(l, w.records[i], w.reusable[i]);
    }
  }

  // ---- Retries -------------------------------------------------------------------------

  /** What is run again: what was stopped, what failed in a way worth retrying when retries are
      asked for, and what completed without leaving its artifacts. */
  lemma EligibleMeans(l: Limits, r: Record, reusable: bool)
    ensures Eligible(l, r, reusable) <==>
        && r.attempt < l.maxAttempts
        && (|| r.state.Queued? || r.state.Running? || r.state.Retrying? || r.state.Interrupted?
            || (r.state.Failed? && l.retryFailed && r.errorCode in RETRYABLE) || (r.state.Completed? && !reusable))
  {
  }

  /** A target whose run is over leaves the pool, its record unchanged, and is queued again
      exactly without interrupt and with an attempt left for what its record says. */
  lemma CollectedAgain(l: Limits, w: World, i: nat)
    requires Shape(l, w) && w.pc.Collecting? && w.pc.done != [] && w.pc.done[0] == i && Enabled(w, Main)
    ensures i < |w.records| == |w.reusable| && Next(l, w, Main).records == w.records && i !in Next(l, w, Main).active
    ensures var r := w.records[i];
            i in Next(l, w, Main).pending <==>
              && !w.interrupt && r.attempt < l.maxAttempts
              && (|| Live(r) || r.state.Interrupted? || (r.state.Failed? && l.retryFailed && r.errorCode in RETRYABLE)
                  || (r.state.Completed? && !w.reusable[i]))
  {
    assert ToCollect(w.pc)[0] == i && Working(w, i, Finished);
    EligibleMeans(l, w.records[i], w.reusable[i]);
    assert forall k | 0 <= k < |w.pending| :: w.pending[k] != i;
  }

  /** Target `i` is neither queued nor running. */
  predicate Resting(w: World, i: nat)
  {
    i < |w.records| && i !in w.pending && i !in w.active
  }

  lemma RestingStep(l: Limits, w: World, a: Action, i: nat)
    requires Shape(l, w) && HandlerOk(w) && Enabled(w, a) && Resting(w, i) && !Next(l, w, a).interrupt
    ensures Resting(Next(l, w, a), i) && !w.interrupt
    ensures w.records[i].state != Completed ==> Next(l, w, a).records[i] == w.records[i]
  {
    if w.pc.Normalizing? && a.Main? {
      assert Next(l, w, a).records[i] == Normalized(l, w.records[i], w.reusable[i]);
    }
    if w.pc.Collecting? && w.pc.done != [] && a.Main? {
      assert ToCollect(w.pc)[0] == w.pc.done[0] && Working(w, w.pc.done[0], Finished);
    }
  }

  /** A target that is not queued again keeps its record to the end, without interrupt. */
  lemma {:induction false} RestingStays(
      l: Limits, w: World, schedule: seq<Action>, i: nat, r0: seq<Record>, u0: seq<bool>)
    requires Inv(l, w, r0, u0) && Resting(w, i) && w.records[i].state != Completed
    ensures |After(l, w, schedule).records| == |w.records|
    ensures After(l, w, schedule).interrupt || After(l, w, schedule).records[i] == w.records[i]
    decreases |schedule|
  {
    RecordsSame(l, w, schedule);
    if schedule != [] {
      if Enabled(w, schedule[0]) {
        InvKept(l, w, schedule[0], r0, u0);
        var w' := Next(l, w, schedule[0]);
        if w'.interrupt {
          InterruptStays(l, w', schedule[1..]);
        } else {
          RestingStep(l, w, schedule[0], i);
          RestingStays(l, w', schedule[1..], i, r0, u0);
        }
      } else {
        RestingStays(l, w, schedule[1..], i, r0, u0);
      }
    }
  }

  lemma {:induction false} InterruptStays(l: Limits, w: World, schedule: seq<Action>)
    requires Shape(l, w) && w.interrupt
    ensures After(l, w, schedule).interrupt
    decreases |schedule|
  {
    if schedule != [] {
      if Enabled(w, schedule[0]) {
        ShapeKept(l, w, schedule[0]);
        InterruptStays(l, Next(l, w, schedule[0]), schedule[1..]);
      } else {
        InterruptStays(l, w, schedule[1..]);
      }
    }
  }

  /** The only change outside the updates and the marking: a completed record without its
      artifacts and without attempts left becomes one with gaps. */
  lemma NormalizedMeans(l: Limits, r: Record, reusable: bool)
    ensures var n := Normalized(l, r, reusable);
            && n.attempt == r.attempt
            && (n != r <==> r.state.Completed? && r.attempt >= l.maxAttempts && !reusable)
            && (n != r ==> n.state.CompletedWithGaps? && n.errorCode == "BATCH_TARGET_ARTIFACTS_MISSING")
  {
  }

  // ---- The queue -----------------------------------------------------------------------

  /** The queue starts in plan order. */
  lemma {:induction false} EligibleAscends(l: Limits, records: seq<Record>, reusable: seq<bool>, n: nat)
    requires n <= |records| == |reusable|
    ensures var s := EligibleList(l, records, reusable, n);
            && (forall i, j | 0 <= i < j < |s| :: s[i] < s[j])
            && forall i: nat :: i in s <==> i < n && Eligible(l, records[i], reusable[i])
  {
    EligibleListIs(l, records, reusable, n);
    if n > 0 {
      EligibleAscends(l, records, reusable, n - 1);
      EligibleListIs(l, records, reusable, n - 1);
    }
  }

  /** And it is a queue: a step leaves it, or submits its first target, or puts a target that
      leaves the pool at its end. */
  lemma FirstComeFirstServed(l: Limits, w: World, a: Action)
    requires Shape(l, w) && Enabled(w, a)
    ensures var w' := Next(l, w, a);
            || (w'.pending == w.pending && w'.active <= w.active)
            || (w.pending != [] && w'.pending == w.pending[1..] && w'.active == w.active + {w.pending[0]})
            || exists i: nat :: i in w.active && w'.active == w.active - {i} && w'.pending == w.pending + [i]
  {
    if a.Main? && w.pc.Collecting? && w.pc.done != [] {
      assert ToCollect(w.pc)[0] == w.pc.done[0] && Working(w, w.pc.done[0], Finished);
    }
  }

  // ---- Interrupts ----------------------------------------------------------------------

  /** The live targets from number `k` on. */
  function LiveFrom(records: seq<Record>, k: nat): set<nat>
  {
    set i: nat | k <= i < |records| && Live(records[i])
  }

  /** The handler adds exactly the targets that are live when it looks. */
  lemma {:induction false} HandlerAddsLive(l: Limits, w: World, k: nat) returns (schedule: seq<Action>)
    requires Shape(l, w) && !w.pc.Over? && w.handler == Checking(k)
    ensures forall a | a in schedule :: a == Handle
    ensures After(l, w, schedule) == w.(handler := Idle, interruptedIds := w.interruptedIds + LiveFrom(w.records, k))
    decreases |w.records| - k
  {
    ShapeKept(l, w, Handle);
    if k >= |w.records| {
      schedule := [Handle] + [];
      AfterStep(l, w, Handle, []);
    } else if Live(w.records[k]) {
      var w1 := w.(handler := Admitting(k));
      ShapeKept(l, w1, Handle);
      var rest := HandlerAddsLive(l, Next(l, w1, Handle), k + 1);
      schedule := [Handle] + ([Handle] + rest);
      AfterStep(l, w, Handle, [Handle] + rest);
      AfterStep(l, w1, Handle, rest);
      assert LiveFrom(w.records, k) == {k} + LiveFrom(w.records, k + 1);
    } else {
      var rest := HandlerAddsLive(l, Next(l, w, Handle), k + 1);
      schedule := [Handle] + rest;
      AfterStep(l, w, Handle, rest);
      assert LiveFrom(w.records, k) == LiveFrom(w.records, k + 1);
    }
  }

  /** An interrupt the loop sees when a wait ends, or that ends it, is marked before anything is
      collected. */
  lemma MarkedFirst(l: Limits, w: World)
    requires Shape(l, w)
    ensures w.pc.Woken? && Enabled(w, Main) && w.interrupt ==>
              Next(l, w, Main) == w.(pc := Marking(0, Collecting(w.pc.done)))
    ensures Enabled(w, KeyboardInterrupt) ==> Next(l, w, KeyboardInterrupt).pc == Marking(0, Waiting)
    ensures w.pc.LastCheck? && Enabled(w, Main) && w.interrupt ==> Next(l, w, Main).pc == Marking(0, Normalizing(true))
  {
  }

  /** The first `n` records are marked: none is live, and those of targets in the set are
      interrupted, unless their worker has just escaped and will say so itself. */
  ghost predicate Marked(w: World, n: nat)
  {
    forall i: nat | i < n && i < |w.records| && i < |w.phase| ::
      !Live(w.records[i]) && (i in w.interruptedIds ==> w.records[i].state == Interrupted || w.phase[i].Escaping?)
  }

  /** Marking in progress; the handler, if it runs, is about to add a live target. */
  ghost predicate MarkingWell(w: World)
  {
    w.pc.Marking? && Marked(w, w.pc.next)
    && (w.pc.next > 0 && w.handler.Admitting? ==>
          w.handler.next < |w.records| && Live(w.records[w.handler.next]))
  }

  lemma MarkedNext(l: Limits, w: World)
    requires Shape(l, w) && w.pc.Marking? && w.pc.next < |w.records| && Marked(w, w.pc.next)
    ensures Marked(MarkOne(w, w.pc.next), w.pc.next + 1)
  {
  }

  /** Whatever happens meanwhile, marking goes on until every record is marked. */
  lemma MarkingSettles(l: Limits, w: World, a: Action)
    requires Shape(l, w) && Enabled(w, a) && MarkingWell(w)
    ensures var w' := Next(l, w, a);
            || (MarkingWell(w') && w'.pc.after == w.pc.after)
            || (w'.pc == w.pc.after && Marked(w', |w'.records|))
  {
    if a.Main? && w.pc.next < |w.records| { MarkedNext(l, w); }
  }

  /** A worker that escapes puts its target in the set: from there on the record is unchanged or
      interrupted. */
  lemma EscapedForGood(l: Limits, w: World, i: nat, schedule: seq<Action>, r0: seq<Record>, u0: seq<bool>)
    requires Inv(l, w, r0, u0) && Enabled(w, Escape(i))
    ensures i < |w.records| && Shape(l, Next(l, w, Escape(i))) && i in Next(l, w, Escape(i)).interruptedIds
    ensures var w' := After(l, Next(l, w, Escape(i)), schedule);
            |w'.records| == |w.records| && (w'.records[i] == w.records[i] || w'.records[i].state == Interrupted)
  {
    InvKept(l, w, Escape(i), r0, u0);
    InterruptedForGood(l, Next(l, w, Escape(i)), schedule, r0, u0, i);
  }

  // ---- The final status ----------------------------------------------------------------

  ghost predicate AnyIs(records: seq<Record>, s: TargetState)
  {
    exists i: nat :: i < |records| && records[i].state == s
  }

  /** The four statuses, each exactly. */
  lemma DecideMeans(interrupt: bool, records: seq<Record>)
    ensures Decide(interrupt, records) == BatchInterrupted <==> interrupt || AnyIs(records, Interrupted)
    ensures Decide(interrupt, records) == BatchCompletedWithFailures <==>
        !interrupt && !AnyIs(records, Interrupted) && AnyIs(records, Failed)
    ensures Decide(interrupt, records) == BatchCompletedWithGaps <==>
        && !interrupt && !AnyIs(records, Interrupted) && !AnyIs(records, Failed)
        && exists i: nat :: i < |records| && records[i].state != Completed
  {
    assert AnyIs(records, Interrupted) <==> Has(records, Interrupted);
    assert AnyIs(records, Failed) <==> Has(records, Failed);
    DecideCompleted(interrupt, records);
  }

  /** How a batch ends, for every start and schedule: the status sums up the interrupt as it was
      tested and the records as they are published. */
  lemma FinalStatusMeans(l: Limits, records: seq<Record>, reusable: seq<bool>, schedule: seq<Action>)
    requires |records| == |reusable| && l.maxWorkers > 0
    ensures Shape(l, Init(l, records, reusable))
    ensures var w := After(l, Init(l, records, reusable), schedule);
            w.pc.Over? ==>
              && (w.pc.status == BatchInterrupted <==> w.pc.told || AnyIs(w.records, Interrupted))
              && (w.pc.status == BatchCompletedWithFailures <==>
                  !w.pc.told && !AnyIs(w.records, Interrupted) && AnyIs(w.records, Failed))
              && (w.pc.status == BatchCompletedWithGaps <==>
                  && !w.pc.told && !AnyIs(w.records, Interrupted) && !AnyIs(w.records, Failed)
                  && exists i: nat :: i < |w.records| && w.records[i].state != Completed)
  {
    var w0 := Init(l, records, reusable);
    InitInv(l, records, reusable);
    InvAfter(l, w0, schedule, w0.records, w0.reusable);
    var w := After(l, w0, schedule);
    if w.pc.Over? { DecideMeans(w.pc.told, w.records); }
  }
}
