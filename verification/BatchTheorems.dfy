/** What a batch promises, for every start state and every schedule. */
module BatchTheorems {
  import opened BatchMachine
  import opened BatchInvariants

  /** The state after a schedule; a step that is not enabled when its turn comes is skipped. */
  ghost function After(l: Limits, w: World, schedule: seq<Action>): World
    requires Shape(l, w)
    decreases |schedule|
  {
    if schedule == [] then w
    else if Enabled(w, schedule[0]) then
      ShapeKept(l, w, schedule[0]);
      After(l, Next(l, w, schedule[0]), schedule[1..])
    else After(l, w, schedule[1..])
  }

  lemma {:induction false} InvAfter(l: Limits, w: World, schedule: seq<Action>, r0: seq<Record>, u0: seq<bool>)
    requires Inv(l, w, r0, u0)
    ensures Inv(l, After(l, w, schedule), r0, u0)
    decreases |schedule|
  {
    if schedule != [] {
      if Enabled(w, schedule[0]) {
        InvKept(l, w, schedule[0], r0, u0);
        InvAfter(l, Next(l, w, schedule[0]), schedule[1..], r0, u0);
      } else {
        InvAfter(l, w, schedule[1..], r0, u0);
      }
    }
  }

  // ---- Interrupt safety --------------------------------------------------------------

  /** No update of target `i` is under way that missed the interrupt. */
  predicate NoStaleUpdate(w: World, i: nat)
  {
    w.writing.Chosen? && w.writing.target == i ==> w.writing.record.state == Interrupted
  }

  /** An update that makes its test once the target is in the set chooses `interrupted`. */
  lemma CheckSeesInterrupt(l: Limits, w: World, a: Action, i: nat)
    requires Shape(l, w) && Enabled(w, a) && i in w.interruptedIds
    requires a == Start(i) || (a.End? && a.target == i) || a == EscapeUpdate(i)
    ensures Next(l, w, a).writing.Chosen? && NoStaleUpdate(Next(l, w, a), i)
  {
  }

  /** Once a target is in the interrupted set, with no update past its test before that, every
      step that writes its record writes `interrupted`, and so it remains. */
  lemma LateUpdatesStayInterrupted(l: Limits, w: World, a: Action, r0: seq<Record>, u0: seq<bool>, i: nat)
    requires Inv(l, w, r0, u0) && Enabled(w, a) && i < |w.records| && i in w.interruptedIds && NoStaleUpdate(w, i)
    ensures var w' := Next(l, w, a);
            && |w'.records| == |w.records| && i in w'.interruptedIds && NoStaleUpdate(w', i)
            && (w'.records[i] != w.records[i] ==> w'.records[i].state == Interrupted)
  {
    if w.pc.Normalizing? && a.Main? {
      if w.pc.seen { assert Settled(w.records, w.interruptedIds, i); }
      assert Next(l, w, a).records[i] == Normalized(l, w.records[i], w.reusable[i]);
    }
  }

  /** The one update that was past its test can write something else, once. */
  lemma OneStaleUpdate(l: Limits, w: World, a: Action, r0: seq<Record>, u0: seq<bool>, i: nat)
    requires Inv(l, w, r0, u0) && Enabled(w, a) && i < |w.records| && i in w.interruptedIds && !NoStaleUpdate(w, i)
    ensures var w' := Next(l, w, a);
            && |w'.records| == |w.records| && i in w'.interruptedIds
            && (w'.records[i] == w.records[i] || (a == Write && NoStaleUpdate(w', i)))
  {
  }

  /** And that write is the only way: of a target in the set, a record that is not interrupted
      can be written exactly while an update of it is past its test. */
  lemma StaleWriteExactly(l: Limits, w: World, r0: seq<Record>, u0: seq<bool>, i: nat)
    requires Inv(l, w, r0, u0) && i < |w.records| && i in w.interruptedIds
    ensures !NoStaleUpdate(w, i) <==>
            && Enabled(w, Write) && w.writing.target == i && |Next(l, w, Write).records| == |w.records|
            && Next(l, w, Write).records[i].state != Interrupted
  {
    if w.writing.Chosen? && w.writing.target == i {
      assert Next(l, w, Write).records[i] == w.writing.record && !w.pc.Over?;
    }
  }

  /** So for every schedule from there on. */
  lemma {:induction false} InterruptedForGood(
      l: Limits, w: World, schedule: seq<Action>, r0: seq<Record>, u0: seq<bool>, i: nat)
    requires Inv(l, w, r0, u0) && i < |w.records| && i in w.interruptedIds && NoStaleUpdate(w, i)
    ensures var w' := After(l, w, schedule);
            |w'.records| == |w.records| && (w'.records[i] == w.records[i] || w'.records[i].state == Interrupted)
    decreases |schedule|
  {
    if schedule != [] {
      if Enabled(w, schedule[0]) {
        InvKept(l, w, schedule[0], r0, u0);
        LateUpdatesStayInterrupted(l, w, schedule[0], r0, u0, i);
        InterruptedForGood(l, Next(l, w, schedule[0]), schedule[1..], r0, u0, i);
      } else {
        InterruptedForGood(l, w, schedule[1..], r0, u0, i);
      }
    }
  }

  /** The main thread has not passed the check after the pool without seeing the interrupt. */
  predicate Unchecked(pc: Pc)
  {
    match pc
    case Normalizing(seen) => seen
    case Deciding(seen) => seen
    case Publishing(_, seen, _) => seen
    case Over(_, seen, _) => seen
    case _ => true
  }

  lemma {:induction false} InterruptIsSeen(l: Limits, w: World, schedule: seq<Action>)
    requires Shape(l, w) && w.interrupt && Unchecked(w.pc)
    ensures Shape(l, After(l, w, schedule)) && Unchecked(After(l, w, schedule).pc)
    decreases |schedule|
  {
    if schedule != [] {
      if Enabled(w, schedule[0]) {
        ShapeKept(l, w, schedule[0]);
        InterruptIsSeen(l, Next(l, w, schedule[0]), schedule[1..]);
      } else {
        InterruptIsSeen(l, w, schedule[1..]);
      }
    }
  }

  /** An interrupt before the check that follows the pool: whatever happens later, no target
      is published as queued, running or retrying, and the batch is interrupted. */
  lemma InterruptedBatch(l: Limits, records: seq<Record>, reusable: seq<bool>, early: seq<Action>, late: seq<Action>)
    requires |records| == |reusable| && l.maxWorkers > 0
    ensures Shape(l, Init(l, records, reusable))
    ensures Shape(l, After(l, Init(l, records, reusable), early))
    ensures var w := After(l, Init(l, records, reusable), early);
            var w' := After(l, w, late);
            w.interrupt && Unchecked(w.pc) && w'.pc.Over? ==>
              w'.pc.status == BatchInterrupted && forall i: nat | i < |w'.records| :: !Live(w'.records[i])
  {
    var w0 := Init(l, records, reusable);
    InitInv(l, records, reusable);
    InvAfter(l, w0, early, w0.records, w0.reusable);
    var w := After(l, w0, early);
    InvAfter(l, w, late, w0.records, w0.reusable);
    if w.interrupt && Unchecked(w.pc) {
      InterruptIsSeen(l, w, late);
      var w' := After(l, w, late);
      if w'.pc.Over? {
        forall i: nat | i < |w'.records| ensures !Live(w'.records[i]) {
          assert Settled(w'.records, w'.interruptedIds, i);
        }
      }
    }
  }

  /** When the check after the pool does not see the interrupt, the published state has a live
      target exactly when some record was loaded queued, running or retrying with its attempts
      used up; an interrupt that comes later changes the status only. */
  lemma UnseenInterrupt(l: Limits, records: seq<Record>, reusable: seq<bool>, schedule: seq<Action>)
    requires |records| == |reusable| && l.maxWorkers > 0
    ensures Shape(l, Init(l, records, reusable))
    ensures var w := After(l, Init(l, records, reusable), schedule);
            w.pc.Over? && !w.pc.seen ==>
              && |w.records| == |records|
              && forall i: nat | i < |records| :: Live(w.records[i]) <==>
                  Live(records[i]) && records[i].attempt >= l.maxAttempts
  {
    var w0 := Init(l, records, reusable);
    InitInv(l, records, reusable);
    InvAfter(l, w0, schedule, w0.records, w0.reusable);
    var w := After(l, w0, schedule);
    if w.pc.Over? && !w.pc.seen {
      forall i: nat | i < |records|
        ensures Live(w.records[i]) <==> Live(records[i]) && records[i].attempt >= l.maxAttempts
      {
        assert w0.records[i] == Normalized(l, records[i], reusable[i]);
      }
    }
  }

  lemma AfterStep(l: Limits, w: World, a: Action, rest: seq<Action>)
    requires Shape(l, w) && Enabled(w, a)
    ensures Shape(l, Next(l, w, a)) && After(l, w, [a] + rest) == After(l, Next(l, w, a), rest)
  {
    ShapeKept(l, w, a);
    assert ([a] + rest)[1..] == rest;
  }

  lemma {:induction false} AfterAppend(l: Limits, w: World, s: seq<Action>, t: seq<Action>)
    requires Shape(l, w)
    ensures Shape(l, After(l, w, s)) && After(l, w, s + t) == After(l, After(l, w, s), t)
    decreases |s|
  {
    if s == [] {
      assert s + t == t;
    } else {
      assert (s + t)[1..] == s[1..] + t;
      if Enabled(w, s[0]) {
        ShapeKept(l, w, s[0]);
        AfterAppend(l, Next(l, w, s[0]), s[1..], t);
      } else {
        AfterAppend(l, w, s[1..], t);
      }
    }
  }

  /** A batch of one target, and where its worker and the handler are. */
  function Racing(r: Record, interrupt: bool, ids: set<nat>, handler: Handler, phase: Phase, writing: Writing): World
  {
    World([r], [false], interrupt, ids, handler, [], {0}, [phase], Submitting, [1], writing)
  }

  lemma RacingShape(l: Limits, w: World)
    requires l.maxWorkers > 0 && |w.records| == 1 && |w.phase| == 1 && w.phase[0] != NoWorker
    requires w == Racing(w.records[0], w.interrupt, w.interruptedIds, w.handler, w.phase[0], w.writing)
    requires w.writing.Chosen? ==>
               && w.writing.target == 0 && (w.writing.next.InFlight? || w.writing.next.Finished?)
               && w.phase[0] == Before(w.writing.next)
               && w.writing.record.attempt == w.records[0].attempt + (if w.writing.next.InFlight? then 1 else 0)
    ensures Shape(l, w)
  {
    assert w.active == {0};
  }

  lemma RaceChoose(l: Limits, r: Record, a: Action, rest: seq<Action>)
    requires l.maxWorkers > 0 && (a == Start(0) || (a.End? && a.target == 0))
    ensures var phase := if a.Start? then Submitted else InFlight;
            var chosen := if a.Start? then Chosen(0, Started(r), InFlight)
                else Chosen(0, Ended(r, a.outcome), Finished);
            var w, w' := Racing(r, false, {}, Idle, phase, NoWrite), Racing(r, false, {}, Idle, phase, chosen);
            Shape(l, w) && Shape(l, w') && After(l, w, [a] + rest) == After(l, w', rest)
  {
    var w := Racing(r, false, {}, Idle, if a.Start? then Submitted else InFlight, NoWrite);
    RacingShape(l, w);
    assert Working(w, 0, w.phase[0]);
    AfterStep(l, w, a, rest);
  }

  lemma RaceWrite(l: Limits, w: World, rest: seq<Action>)
    requires Shape(l, w) && w.writing.Chosen? && w.writing.target == 0 && |w.records| == 1 && |w.phase| == 1
    requires w == Racing(w.records[0], w.interrupt, w.interruptedIds, w.handler, w.phase[0], w.writing)
    ensures var w' := Racing(w.writing.record, w.interrupt, w.interruptedIds, w.handler, w.writing.next, NoWrite);
            Shape(l, w') && After(l, w, [Write] + rest) == After(l, w', rest)
  {
    assert w.records[0 := w.writing.record] == [w.writing.record] && w.phase[0 := w.writing.next] == [w.writing.next];
    AfterStep(l, w, Write, rest);
  }

  /** The handler runs: it finds the record live and adds the target. */
  lemma RaceHandler(l: Limits, w: World, rest: seq<Action>)
    requires Shape(l, w) && |w.records| == 1 && |w.phase| == 1 && Live(w.records[0])
    requires w == Racing(w.records[0], false, {}, Idle, w.phase[0], w.writing)
    ensures var w' := Racing(w.records[0], true, {0}, Checking(1), w.phase[0], w.writing);
            Shape(l, w') && After(l, w, [Signal] + ([Handle] + ([Handle] + rest))) == After(l, w', rest)
  {
    AfterStep(l, w, Signal, [Handle] + ([Handle] + rest));
    var w1 := w.(interrupt := true, handler := Checking(0));
    AfterStep(l, w1, Handle, [Handle] + rest);
    AfterStep(l, w1.(handler := Admitting(0)), Handle, rest);
    assert {} + {0 as nat} == {0};
  }

  lemma QueuedStart(l: Limits, r: Record)
    requires l.maxWorkers > 0 && r.state.Queued? && r.attempt < l.maxAttempts
    ensures var w0 := World([r], [false], false, {}, Idle, [0], {}, [NoWorker], Submitting, [0], NoWrite);
            Init(l, [r], [false]) == w0 && Shape(l, w0) && Next(l, w0, Main) == w0.(pc := Admitted)
  {
    InitInv(l, [r], [false]);
    assert NormalizedAll(l, [r], [false]) == [r];
    assert EligibleList(l, [r], [false], 1) == EligibleList(l, [r], [false], 0) + [0];
    assert Init(l, [r], [false]) == World([r], [false], false, {}, Idle, [0], {}, [NoWorker], Submitting, [0], NoWrite);
  }

  lemma QueuedSubmit(l: Limits, r: Record)
    requires l.maxWorkers > 0 && r.state.Queued? && r.attempt < l.maxAttempts
    ensures var w := World([r], [false], false, {}, Idle, [0], {}, [NoWorker], Admitted, [0], NoWrite);
            Shape(l, w) && Next(l, w, Main) == Racing(r, false, {}, Idle, Submitted, NoWrite)
  {
    QueuedStart(l, r);
    var w := World([r], [false], false, {}, Idle, [0], {}, [NoWorker], Admitted, [0], NoWrite);
    ShapeKept(l, w.(pc := Submitting), Main);
    assert SubmitOne(w) == w.(pending := [], active := {0}, phase := [Submitted], starts := [1]);
  }

  lemma RaceStart(l: Limits, r: Record, rest: seq<Action>)
    requires l.maxWorkers > 0 && Eligible(l, r, false) && r.state.Queued?
    ensures Shape(l, Init(l, [r], [false])) && Shape(l, Racing(r, false, {}, Idle, Submitted, NoWrite))
    ensures After(l, Init(l, [r], [false]), [Main] + ([Main] + rest)) ==
            After(l, Racing(r, false, {}, Idle, Submitted, NoWrite), rest)
  {
    var w0 := Init(l, [r], [false]);
    QueuedStart(l, r);
    QueuedSubmit(l, r);
    AfterStep(l, w0, Main, [Main] + rest);
    AfterStep(l, w0.(pc := Admitted), Main, rest);
  }

  /** The race the lock does not stop: a worker makes its test, the handler then finds the
      record running and adds the target, and the worker writes `completed` all the same. */
  lemma StaleUpdate(l: Limits, r: Record) returns (schedule: seq<Action>)
    requires l.maxWorkers > 0 && r.state.Queued? && r.attempt < l.maxAttempts
    ensures Shape(l, Init(l, [r], [false]))
    ensures var w := After(l, Init(l, [r], [false]), schedule);
            && w.interrupt && 0 in w.interruptedIds && |w.records| == 1 && w.records[0].state == Completed
  {
    var end := [End(0, Completes)] + ([Signal] + ([Handle] + ([Handle] + ([Write] + []))));
    var running := Started(r);
    schedule := [Main] + ([Main] + ([Start(0)] + ([Write] + end)));
    RaceStart(l, r, [Start(0)] + ([Write] + end));
    RaceChoose(l, r, Start(0), [Write] + end);
    RaceWrite(l, Racing(r, false, {}, Idle, Submitted, Chosen(0, running, InFlight)), end);
    RaceChoose(l, running, End(0, Completes), end[1..]);
    var done := Chosen(0, Ended(running, Completes), Finished);
    RaceHandler(l, Racing(running, false, {}, Idle, InFlight, done), [Write] + []);
    RaceWrite(l, Racing(running, true, {0}, Checking(1), InFlight, done), []);
  }

  /** One target left running with no attempt left, and no worker. */
  function Orphan(l: Limits, interrupt: bool, ids: set<nat>, handler: Handler, pc: Pc): World
  {
    World([Record(Running, l.maxAttempts, "")], [false], interrupt, ids, handler, [], {}, [NoWorker], pc, [0], NoWrite)
  }

  lemma OrphanShape(l: Limits, interrupt: bool, ids: set<nat>, handler: Handler, pc: Pc)
    requires l.maxWorkers > 0 && !pc.Marking? && !pc.Admitted? && ToCollect(pc) == []
    ensures Shape(l, Orphan(l, interrupt, ids, handler, pc))
  {
  }

  lemma OrphanStart(l: Limits)
    requires l.maxWorkers > 0
    ensures Init(l, [Record(Running, l.maxAttempts, "")], [false]) == Orphan(l, false, {}, Idle, Submitting)
  {
    var r := Record(Running, l.maxAttempts, "");
    assert NormalizedAll(l, [r], [false]) == [r];
    assert EligibleList(l, [r], [false], 1) == EligibleList(l, [r], [false], 0) + [];
  }

  lemma OrphanNormalize(l: Limits)
    requires l.maxWorkers > 0
    ensures var w := Orphan(l, true, {0}, Idle, Normalizing(false));
            Shape(l, w) && Next(l, w, Main) == Orphan(l, true, {0}, Idle, Deciding(false))
  {
    var w := Orphan(l, true, {0}, Idle, Normalizing(false));
    OrphanShape(l, true, {0}, Idle, Normalizing(false));
    assert NormalizedAll(l, w.records, w.reusable) == w.records;
  }

  lemma OrphanSignalled(l: Limits, rest: seq<Action>)
    requires l.maxWorkers > 0
    ensures Shape(l, Orphan(l, false, {}, Idle, Normalizing(false)))
        && Shape(l, Orphan(l, true, {0}, Idle, Normalizing(false)))
    ensures After(l, Orphan(l, false, {}, Idle, Normalizing(false)),
        [Signal] + ([Handle] + ([Handle] + ([Handle] + rest)))) ==
            After(l, Orphan(l, true, {0}, Idle, Normalizing(false)), rest)
  {
    var pc := Normalizing(false);
    OrphanShape(l, false, {}, Idle, pc);
    AfterStep(l, Orphan(l, false, {}, Idle, pc), Signal, [Handle] + ([Handle] + ([Handle] + rest)));
    AfterStep(l, Orphan(l, true, {}, Checking(0), pc), Handle, [Handle] + ([Handle] + rest));
    assert {} + {0 as nat} == {0};
    AfterStep(l, Orphan(l, true, {}, Admitting(0), pc), Handle, [Handle] + rest);
    AfterStep(l, Orphan(l, true, {0}, Checking(1), pc), Handle, rest);
  }

  /** From the end of the pool to the normalization, with no interrupt. */
  lemma OrphanChecked(l: Limits, rest: seq<Action>)
    requires l.maxWorkers > 0
    ensures Shape(l, Orphan(l, false, {}, Idle, Submitting)) && Shape(l, Orphan(l, false, {}, Idle, Normalizing(false)))
    ensures After(l, Orphan(l, false, {}, Idle, Submitting), [Main] + ([Main] + rest)) ==
            After(l, Orphan(l, false, {}, Idle, Normalizing(false)), rest)
  {
    OrphanShape(l, false, {}, Idle, Submitting);
    OrphanShape(l, false, {}, Idle, LastCheck);
    AfterStep(l, Orphan(l, false, {}, Idle, Submitting), Main, [Main] + rest);
    AfterStep(l, Orphan(l, false, {}, Idle, LastCheck), Main, rest);
  }

  lemma OrphanDecided(l: Limits)
    requires l.maxWorkers > 0
    ensures Shape(l, Orphan(l, true, {0}, Idle, Normalizing(false)))
    ensures After(l, Orphan(l, true, {0}, Idle, Normalizing(false)), [Main] + ([Main] + ([Main] + []))) ==
            Orphan(l, true, {0}, Idle, Over(BatchInterrupted, false, true))
  {
    OrphanNormalize(l);
    AfterStep(l, Orphan(l, true, {0}, Idle, Normalizing(false)), Main, [Main] + ([Main] + []));
    OrphanShape(l, true, {0}, Idle, Deciding(false));
    AfterStep(l, Orphan(l, true, {0}, Idle, Deciding(false)), Main, [Main] + []);
    OrphanShape(l, true, {0}, Idle, Publishing(BatchInterrupted, false, true));
    AfterStep(l, Orphan(l, true, {0}, Idle, Publishing(BatchInterrupted, false, true)), Main, []);
  }

  /** An example of both: the interrupt comes after the check, the batch is interrupted, and
      the record loaded running with its attempts used up is published as running. */
  lemma LateInterrupt(l: Limits) returns (schedule: seq<Action>)
    requires l.maxWorkers > 0
    ensures var records := [Record(Running, l.maxAttempts, "")];
            && Shape(l, Init(l, records, [false]))
            && var w := After(l, Init(l, records, [false]), schedule);
            w.pc == Over(BatchInterrupted, false, true) && w.records == records
  {
    OrphanStart(l);
    var last := [Main] + ([Main] + ([Main] + []));
    var signalled := [Signal] + ([Handle] + ([Handle] + ([Handle] + last)));
    OrphanChecked(l, signalled);
    OrphanSignalled(l, last);
    OrphanDecided(l);
    schedule := [Main] + ([Main] + signalled);
  }

  // ---- The final status --------------------------------------------------------------

  lemma DecideCompleted(interrupt: bool, records: seq<Record>)
    ensures Decide(interrupt, records) == BatchCompleted <==>
            !interrupt && forall i: nat | i < |records| :: records[i].state == Completed
  {
    if !interrupt && forall i: nat | i < |records| :: records[i].state == Completed {
      assert !Has(records, Interrupted) && !Has(records, Failed);
    } else if !interrupt {
      var i: nat :| i < |records| && records[i].state != Completed;
      assert Has(records, records[i].state);
    }
  }

  /** The status is not settled yet, or was settled with the interrupt seen. */
  predicate Told(pc: Pc)
  {
    match pc
    case Publishing(_, _, told) => told
    case Over(_, _, told) => told
    case _ => true
  }

  /** An interrupt before the test that settles the status is told. */
  lemma {:induction false} InterruptIsTold(l: Limits, w: World, schedule: seq<Action>)
    requires Shape(l, w) && w.interrupt && Told(w.pc)
    ensures Shape(l, After(l, w, schedule)) && Told(After(l, w, schedule).pc)
    decreases |schedule|
  {
    if schedule != [] {
      if Enabled(w, schedule[0]) {
        ShapeKept(l, w, schedule[0]);
        InterruptIsTold(l, Next(l, w, schedule[0]), schedule[1..]);
      } else {
        InterruptIsTold(l, w, schedule[1..]);
      }
    }
  }

  /** A batch ends completed exactly when the test that settles the status found no interrupt
      and every record is completed; and then every target directory holds its binding and a
      completed run. An interrupt that comes after that test changes nothing. */
  lemma CompletedBatch(l: Limits, records: seq<Record>, reusable: seq<bool>, schedule: seq<Action>)
    requires |records| == |reusable| && l.maxWorkers > 0
    ensures Shape(l, Init(l, records, reusable))
    ensures var w := After(l, Init(l, records, reusable), schedule);
            w.pc.Over? ==>
              && (w.pc.status == BatchCompleted <==>
                    !w.pc.told && forall i: nat | i < |w.records| :: w.records[i].state == Completed)
              && (w.pc.status == BatchCompleted ==>
                  |w.reusable| == |w.records| && forall i: nat | i < |w.records| :: w.reusable[i])
              && (!w.interrupt ==> !w.pc.told)
  {
    var w0 := Init(l, records, reusable);
    InitInv(l, records, reusable);
    InvAfter(l, w0, schedule, w0.records, w0.reusable);
    var w := After(l, w0, schedule);
    if w.pc.Over? { DecideCompleted(w.pc.told, w.records); }
  }

  /** The test settles the status: whatever comes after it, the batch ends with the status the
      interrupt and the records had then. */
  lemma StatusSettled(l: Limits, w: World, schedule: seq<Action>)
    requires Shape(l, w) && w.pc.Deciding? && w.handler.Idle?
    ensures Enabled(w, Main) && Shape(l, Next(l, w, Main))
    ensures var pc := After(l, Next(l, w, Main), schedule).pc;
            (pc.Publishing? || pc.Over?) && pc.told == w.interrupt && pc.status == Decide(w.interrupt, w.records)
  {
    ShapeKept(l, w, Main);
    PublishingStays(l, Next(l, w, Main), schedule);
  }

  lemma {:induction false} PublishingStays(l: Limits, w: World, schedule: seq<Action>)
    requires Shape(l, w) && (w.pc.Publishing? || w.pc.Over?)
    ensures var pc := After(l, w, schedule).pc;
            (pc.Publishing? || pc.Over?) && pc.told == w.pc.told && pc.status == w.pc.status
    decreases |schedule|
  {
    if schedule != [] {
      if Enabled(w, schedule[0]) {
        ShapeKept(l, w, schedule[0]);
        PublishingStays(l, Next(l, w, schedule[0]), schedule[1..]);
      } else {
        PublishingStays(l, w, schedule[1..]);
      }
    }
  }

  /** A batch of one target completed before, and where the main thread and the handler are. */
  function Finishing(r: Record, interrupt: bool, handler: Handler, pc: Pc): World
  {
    World([r], [true], interrupt, {}, handler, [], {}, [NoWorker], pc, [0], NoWrite)
  }

  lemma FinishingShape(l: Limits, r: Record, interrupt: bool, handler: Handler, pc: Pc)
    requires l.maxWorkers > 0 && !pc.Marking? && !pc.Admitted? && ToCollect(pc) == []
    ensures Shape(l, Finishing(r, interrupt, handler, pc))
  {
  }

  lemma FinishingStart(l: Limits, r: Record, rest: seq<Action>)
    requires l.maxWorkers > 0 && r.state.Completed?
    ensures Shape(l, Init(l, [r], [true])) && Shape(l, Finishing(r, false, Idle, Normalizing(false)))
    ensures After(l, Init(l, [r], [true]), [Main] + ([Main] + rest)) ==
            After(l, Finishing(r, false, Idle, Normalizing(false)), rest)
  {
    assert NormalizedAll(l, [r], [true]) == [r];
    assert EligibleList(l, [r], [true], 1) == EligibleList(l, [r], [true], 0) + [];
    assert Init(l, [r], [true]) == Finishing(r, false, Idle, Submitting);
    FinishingShape(l, r, false, Idle, Submitting);
    AfterStep(l, Finishing(r, false, Idle, Submitting), Main, [Main] + rest);
    AfterStep(l, Finishing(r, false, Idle, LastCheck), Main, rest);
  }

  lemma FinishingTested(l: Limits, r: Record, rest: seq<Action>)
    requires l.maxWorkers > 0 && r.state.Completed?
    ensures Shape(l, Finishing(r, false, Idle, Normalizing(false)))
    ensures Shape(l, Finishing(r, false, Idle, Publishing(BatchCompleted, false, false)))
    ensures After(l, Finishing(r, false, Idle, Normalizing(false)), [Main] + ([Main] + rest)) ==
            After(l, Finishing(r, false, Idle, Publishing(BatchCompleted, false, false)), rest)
  {
    assert NormalizedAll(l, [r], [true]) == [r];
    FinishingShape(l, r, false, Idle, Normalizing(false));
    AfterStep(l, Finishing(r, false, Idle, Normalizing(false)), Main, [Main] + rest);
    DecideCompleted(false, [r]);
    AfterStep(l, Finishing(r, false, Idle, Deciding(false)), Main, rest);
  }

  lemma FinishingSignalled(l: Limits, r: Record)
    requires l.maxWorkers > 0 && r.state.Completed?
    ensures var pc := Publishing(BatchCompleted, false, false);
            && Shape(l, Finishing(r, false, Idle, pc))
            && After(l, Finishing(r, false, Idle, pc), [Signal] + ([Handle] + ([Handle] + ([Main] + [])))) ==
               Finishing(r, true, Idle, Over(BatchCompleted, false, false))
  {
    var pc := Publishing(BatchCompleted, false, false);
    FinishingShape(l, r, false, Idle, pc);
    AfterStep(l, Finishing(r, false, Idle, pc), Signal, [Handle] + ([Handle] + ([Main] + [])));
    AfterStep(l, Finishing(r, true, Checking(0), pc), Handle, [Handle] + ([Main] + []));
    AfterStep(l, Finishing(r, true, Checking(1), pc), Handle, [Main] + []);
    AfterStep(l, Finishing(r, true, Idle, pc), Main, []);
  }

  /** A batch can end completed though it was interrupted: the signal comes between the test
      and the publication. */
  lemma CompletedDespiteInterrupt(l: Limits, r: Record) returns (schedule: seq<Action>)
    requires l.maxWorkers > 0 && r.state.Completed?
    ensures Shape(l, Init(l, [r], [true]))
    ensures var w := After(l, Init(l, [r], [true]), schedule);
            w.interrupt && w.pc == Over(BatchCompleted, false, false) && w.records == [r]
  {
    var last := [Signal] + ([Handle] + ([Handle] + ([Main] + [])));
    schedule := [Main] + ([Main] + ([Main] + ([Main] + last)));
    FinishingStart(l, r, [Main] + ([Main] + last));
    FinishingTested(l, r, last);
    FinishingSignalled(l, r);
  }

  // ---- Bounded retry -----------------------------------------------------------------

  function Total(s: seq<int>, n: nat): int
    requires n <= |s|
  {
    if n == 0 then 0 else Total(s, n - 1) + s[n - 1]
  }

  /** What the targets eligible at the start may still use. */
  function Budget(l: Limits, records: seq<Record>, reusable: seq<bool>, n: nat): nat
    requires n <= |records| == |reusable|
  {
    if n == 0 then 0 else
      Budget(l, records, reusable, n - 1) +
      (if Eligible(l, records[n - 1], reusable[n - 1]) && records[n - 1].attempt < l.maxAttempts
       then l.maxAttempts - records[n - 1].attempt else 0)
  }

  lemma {:induction false} WithinBudget(l: Limits, w: World, r0: seq<Record>, u0: seq<bool>, n: nat)
    requires Accounts(l, w, r0, u0) && n <= |w.records|
    ensures Total(w.starts, n) <= Budget(l, r0, u0, n)
  {
    if n > 0 {
      WithinBudget(l, w, r0, u0, n - 1);
      assert TargetOk(l, w, r0[n - 1], u0[n - 1], n - 1);
    }
  }

  /** Every schedule starts at most as many workers as the initially eligible targets have
      attempts left, at most `max_workers` at a time, and no target twice at once. */
  lemma BoundedStarts(l: Limits, records: seq<Record>, reusable: seq<bool>, schedule: seq<Action>)
    requires |records| == |reusable| && l.maxWorkers > 0
    ensures Shape(l, Init(l, records, reusable))
    ensures var w0 := Init(l, records, reusable);
            var w := After(l, w0, schedule);
            && |w.starts| == |w0.records|
            && Total(w.starts, |w.starts|) <= Budget(l, w0.records, reusable, |w0.records|)
            && |w.active| <= l.maxWorkers
            && forall i: nat | i < |w.starts| && w.starts[i] > 0 ::
                 Eligible(l, w0.records[i], reusable[i]) && w0.records[i].attempt + w.starts[i] <= l.maxAttempts
  {
    var w0 := Init(l, records, reusable);
    InitInv(l, records, reusable);
    InvAfter(l, w0, schedule, w0.records, w0.reusable);
    var w := After(l, w0, schedule);
    WithinBudget(l, w, w0.records, reusable, |w.records|);
    forall i: nat | i < |w.starts| && w.starts[i] > 0
      ensures Eligible(l, w0.records[i], reusable[i]) && w0.records[i].attempt + w.starts[i] <= l.maxAttempts
    {
      assert TargetOk(l, w, w0.records[i], w0.reusable[i], i);
    }
  }

  /** Only the update of a start changes an attempt, by exactly one. */
  lemma AttemptsRiseByOne(l: Limits, w: World, a: Action, i: nat)
    requires Shape(l, w) && Enabled(w, a) && i < |w.records|
    ensures var w' := Next(l, w, a);
            && |w'.records| == |w.records|
            && (w'.records[i].attempt == w.records[i].attempt ||
                (a == Write && w.writing.target == i && w.phase[i] == Submitted && w'.phase[i] == InFlight
                 && w'.records[i].attempt == w.records[i].attempt + 1))
  {
    if w.pc.Normalizing? && a.Main? {
      assert Next(l, w, a).records[i] == Normalized(l, w.records[i], w.reusable[i]);
    }
  }

  /** Without interrupt the update of a start does raise it, and never past the limit. */
  lemma StartsCount(l: Limits, w: World, r0: seq<Record>, u0: seq<bool>)
    requires Inv(l, w, r0, u0) && w.writing.Chosen? && w.writing.next.InFlight? && !w.interrupt
    ensures var i := w.writing.target;
            i < |w.records| && Next(l, w, Write).records[i].attempt == w.records[i].attempt + 1 <= l.maxAttempts
  {
    var i := w.writing.target;
    assert TargetOk(l, w, r0[i], u0[i], i);
  }

  /** A worker is submitted only for a target that has none, by the step that follows a test
      which found the interrupt clear. */
  lemma SubmissionsAreFresh(l: Limits, w: World, a: Action, i: nat)
    requires Shape(l, w) && Enabled(w, a) && i < |w.records|
    ensures var w' := Next(l, w, a);
            && |w'.starts| == |w.starts|
            && (w'.starts[i] == w.starts[i] ||
                (w'.starts[i] == w.starts[i] + 1 && a == Main && w.pc.Admitted? && i !in w.active && i in w'.active))
            && (w'.pc.Admitted? && !w.pc.Admitted? ==> !w.interrupt)
  {
  }

  lemma {:induction false} OneChange(s: seq<int>, s': seq<int>, i: nat, n: nat)
    requires n <= |s| == |s'| && forall k: nat | k < |s| && k != i :: s'[k] == s[k]
    ensures Total(s', n) - Total(s, n) == if i < n then s'[i] - s[i] else 0
  {
    if n > 0 { OneChange(s, s', i, n - 1); }
  }

  /** The submissions so far, and the one the main thread has decided on. */
  function Submissions(w: World): int
  {
    Total(w.starts, |w.starts|) + if w.pc.Admitted? then 1 else 0
  }

  lemma NoSubmission(l: Limits, w: World, a: Action)
    requires Shape(l, w) && Enabled(w, a) && w.interrupt && !(a.Main? && w.pc.Admitted?)
    ensures var w' := Next(l, w, a);
            w'.interrupt && w'.starts == w.starts && (w'.pc.Admitted? ==> w.pc.Admitted?)
  {
  }

  lemma NoNewSubmission(l: Limits, w: World, a: Action)
    requires Shape(l, w) && Enabled(w, a) && w.interrupt
    ensures Next(l, w, a).interrupt && |Next(l, w, a).starts| == |w.starts|
    ensures Submissions(Next(l, w, a)) <= Submissions(w)
  {
    if a.Main? && w.pc.Admitted? {
      OneChange(w.starts, SubmitOne(w).starts, w.pending[0], |w.starts|);
    } else {
      NoSubmission(l, w, a);
    }
  }

  /** After an interrupt at most the one target past that test is still submitted. */
  lemma OneLateSubmission(l: Limits, w: World, schedule: seq<Action>)
    requires Shape(l, w) && w.interrupt
    ensures var w' := After(l, w, schedule);
            && |w'.starts| == |w.starts|
            && Total(w'.starts, |w.starts|) <= Total(w.starts, |w.starts|) + if w.pc.Admitted? then 1 else 0
  {
    FewSubmissions(l, w, schedule);
  }

  lemma {:induction false} FewSubmissions(l: Limits, w: World, schedule: seq<Action>)
    requires Shape(l, w) && w.interrupt
    ensures |After(l, w, schedule).starts| == |w.starts| && Submissions(After(l, w, schedule)) <= Submissions(w)
    decreases |schedule|
  {
    if schedule != [] {
      if Enabled(w, schedule[0]) {
        ShapeKept(l, w, schedule[0]);
        NoNewSubmission(l, w, schedule[0]);
        FewSubmissions(l, Next(l, w, schedule[0]), schedule[1..]);
      } else {
        FewSubmissions(l, w, schedule[1..]);
      }
    }
  }

  /** After an interrupt a step submits exactly when it is the main thread's past its test. */
  lemma LateSubmissionExactly(l: Limits, w: World, a: Action)
    requires Shape(l, w) && Enabled(w, a) && w.interrupt
    ensures Next(l, w, a).starts != w.starts <==> a.Main? && w.pc.Admitted?
  {
    if a.Main? && w.pc.Admitted? {
      var i := w.pending[0];
      assert Next(l, w, a).starts[i] == w.starts[i] + 1;
    } else {
      NoSubmission(l, w, a);
    }
  }

  /** Steps the handler has left. */
  function HandlerSteps(h: Handler, n: nat): nat
  {
    match h
    case Idle => 0
    case Checking(k) => if k < n then 2 * (n - k) + 1 else 1
    case Admitting(k) => if k < n then 2 * (n - k) else 2
  }

  /** The handler returns, and only the set of targets has changed. */
  lemma {:induction false} HandlerReturns(l: Limits, w: World) returns (schedule: seq<Action>)
    requires Shape(l, w) && !w.pc.Over?
    ensures var w' := After(l, w, schedule);
            w' == w.(handler := Idle, interruptedIds := w'.interruptedIds)
    decreases HandlerSteps(w.handler, |w.records|)
  {
    if w.handler.Idle? {
      schedule := [];
    } else {
      ShapeKept(l, w, Handle);
      var rest := HandlerReturns(l, Next(l, w, Handle));
      schedule := [Handle] + rest;
      AfterStep(l, w, Handle, rest);
    }
  }

  /** The target past its test is submitted once the handler has returned. */
  lemma SubmittedLate(l: Limits, w: World) returns (schedule: seq<Action>)
    requires Shape(l, w) && w.pc.Admitted?
    ensures w.pending != [] && w.pending[0] < |w.starts|
    ensures After(l, w, schedule).starts == w.starts[w.pending[0] := w.starts[w.pending[0]] + 1]
  {
    var returned := HandlerReturns(l, w);
    schedule := returned + ([Main] + []);
    AfterAppend(l, w, returned, [Main] + []);
    AfterStep(l, After(l, w, returned), Main, []);
  }

  /** So of all the schedules after an interrupt some submits a target exactly when one is past
      its test. */
  lemma LateSubmissionPossible(l: Limits, w: World)
    requires Shape(l, w) && w.interrupt
    ensures w.pc.Admitted? <==> exists schedule: seq<Action> :: After(l, w, schedule).starts != w.starts
  {
    if w.pc.Admitted? {
      var schedule := SubmittedLate(l, w);
      assert After(l, w, schedule).starts[w.pending[0]] != w.starts[w.pending[0]];
    } else {
      forall schedule: seq<Action> ensures After(l, w, schedule).starts == w.starts { NoneSubmitted(l, w, schedule); }
    }
  }

  lemma {:induction false} NoneSubmitted(l: Limits, w: World, schedule: seq<Action>)
    requires Shape(l, w) && w.interrupt && !w.pc.Admitted?
    ensures After(l, w, schedule).starts == w.starts
    decreases |schedule|
  {
    if schedule != [] {
      if Enabled(w, schedule[0]) {
        NoSubmission(l, w, schedule[0]);
        ShapeKept(l, w, schedule[0]);
        NoneSubmitted(l, Next(l, w, schedule[0]), schedule[1..]);
      } else {
        NoneSubmitted(l, w, schedule[1..]);
      }
    }
  }

  /** The race exists: the main thread tests, the signal comes, and the target is submitted. */
  lemma LateSubmission(l: Limits, r: Record) returns (early: seq<Action>, late: seq<Action>)
    requires l.maxWorkers > 0 && r.state.Queued? && r.attempt < l.maxAttempts
    ensures Shape(l, Init(l, [r], [false])) && Shape(l, After(l, Init(l, [r], [false]), early))
    ensures var w := After(l, Init(l, [r], [false]), early);
            w.interrupt && w.starts == [0] && After(l, w, late).starts == [1]
  {
    var w0 := Init(l, [r], [false]);
    QueuedStart(l, r);
    early := [Main] + ([Signal] + []);
    AfterStep(l, w0, Main, [Signal] + []);
    AfterStep(l, w0.(pc := Admitted), Signal, []);
    late := SubmittedLate(l, After(l, w0, early));
  }
}
