/** What every schedule of the batch machine keeps. */
module BatchInvariants {
  import opened BatchMachine

  // ---- Attempts and retries --------------------------------------------------------

  /** The accounts of target `i`, whose record and directory were `r0` and `u0` at the start.
      Until an interrupt: every start has raised its attempt by one, a queued target is
      eligible, a target neither queued nor running is not, and only a target never started
      or still running can be live. */
  ghost predicate TargetOk(l: Limits, w: World, r0: Record, u0: bool, i: nat)
    requires Sized(w) && i < |w.records|
  {
    && (w.starts[i] > 0 ==> Eligible(l, r0, u0) && r0.attempt + w.starts[i] <= l.maxAttempts)
    && (i in w.pending ==> Eligible(l, r0, u0) && r0.attempt + w.starts[i] < l.maxAttempts)
    && (!w.interrupt ==> QuietTarget(l, w, r0, i) && QuietWriting(w, i))
  }

  ghost predicate QuietTarget(l: Limits, w: World, r0: Record, i: nat)
    requires Sized(w) && i < |w.records|
  {
    var r, u, p := w.records[i], w.reusable[i], w.phase[i];
    && (i in w.interruptedIds ==> p.Escaping? || p.Leaving?)
    && (p.Submitted? ==> r.attempt + 1 == r0.attempt + w.starts[i])
    && (p.NoWorker? || p.InFlight? || p.Finished? ==> r.attempt == r0.attempt + w.starts[i])
    && (i in w.pending ==> Eligible(l, r, u))
    && (i !in w.pending && i !in w.active ==> !Eligible(l, r, u))
    && (p != NoWorker ==> w.starts[i] > 0)
    && (w.starts[i] == 0 ==> (Live(r) <==> Live(r0)))
    && (p.Finished? || (p.NoWorker? && w.starts[i] > 0) ==> !Live(r))
  }

  ghost predicate QuietWriting(w: World, i: nat)
    requires Sized(w) && i < |w.records|
  {
    w.writing.Chosen? && w.writing.target == i ==>
      var r, next := w.writing.record, w.writing.next;
      && r.attempt == w.records[i].attempt + (if next.InFlight? then 1 else 0)
      && (next.Finished? ==> !Live(r))
  }

  ghost predicate Accounts(l: Limits, w: World, r0: seq<Record>, u0: seq<bool>)
  {
    Sized(w) && |r0| == |u0| == |w.records| && forall i: nat | i < |r0| :: TargetOk(l, w, r0[i], u0[i], i)
  }

  // ---- Interrupts ------------------------------------------------------------------

  ghost predicate Settled(records: seq<Record>, ids: set<nat>, i: nat)
    requires i < |records|
  {
    !Live(records[i]) && (i in ids ==> records[i].state == Interrupted)
  }

  ghost predicate SettledTo(records: seq<Record>, ids: set<nat>, n: nat)
  {
    forall i: nat | i < n && i < |records| :: Settled(records, ids, i)
  }

  /** The targets in the interrupted set are all live. */
  ghost predicate OnlyLive(records: seq<Record>, ids: set<nat>)
  {
    forall i: nat | i in ids && i < |records| :: Live(records[i])
  }

  ghost predicate HandlerOk(w: World)
  {
    && (!w.handler.Idle? ==> w.interrupt)
    && (w.pc.Marking? ==> w.interrupt)
    && (w.handler.Admitting? ==>
          w.handler.next < |w.records| && (w.handler.next !in w.active ==> Live(w.records[w.handler.next])))
  }

  /** Exactly the records loaded live with their attempts used up are live. */
  ghost predicate LiveExactly(l: Limits, records: seq<Record>, r0: seq<Record>)
  {
    |records| == |r0| && forall i: nat | i < |r0| :: Live(records[i]) <==> Live(r0[i]) && r0[i].attempt >= l.maxAttempts
  }

  /** No target could be run again. */
  ghost predicate NoneEligible(l: Limits, records: seq<Record>, reusable: seq<bool>)
  {
    |records| == |reusable| && forall i: nat | i < |records| :: !Eligible(l, records[i], reusable[i])
  }

  ghost predicate CompletedReusable(records: seq<Record>, reusable: seq<bool>)
  {
    |records| == |reusable| && forall i: nat | i < |records| && records[i].state == Completed :: reusable[i]
  }

  /** The main thread after the pool: no worker is left. */
  ghost predicate TailOk(l: Limits, w: World, r0: seq<Record>)
    requires Sized(w)
  {
    match w.pc
    case Waiting => w.active != {}
    case Marking(_, Waiting) => w.active != {}
    case LastCheck => w.active == {} && (w.interrupt || w.pending == [])
    case Marking(k, Normalizing(_)) => w.active == {} && SettledTo(w.records, w.interruptedIds, k)
    case Normalizing(seen) => AfterCheck(l, w, seen, r0)
    case Deciding(seen) => AfterCheck(l, w, seen, r0) && AllNormalized(l, w)
    case Publishing(status, seen, told) => AfterCheck(l, w, seen, r0) && Decided(w, status, seen, told)
    case Over(status, seen, told) => AfterCheck(l, w, seen, r0) && Decided(w, status, seen, told)
    case _ => true
  }

  ghost predicate AfterCheck(l: Limits, w: World, seen: bool, r0: seq<Record>)
  {
    && w.active == {} && (w.interrupt || w.pending == [])
    && if seen then w.interrupt && SettledTo(w.records, w.interruptedIds, |w.records|)
       else OnlyLive(w.records, w.interruptedIds) && LiveExactly(l, w.records, r0)
  }

  /** The status is settled; `told` is the interrupt as it was then. */
  ghost predicate Decided(w: World, status: BatchStatus, seen: bool, told: bool)
  {
    && status == Decide(told, w.records) && (seen ==> told) && (told ==> w.interrupt)
    && (!told ==> CompletedReusable(w.records, w.reusable))
  }

  ghost predicate AllNormalized(l: Limits, w: World)
    requires Sized(w)
  {
    forall i: nat | i < |w.records| :: Normalized(l, w.records[i], w.reusable[i]) == w.records[i]
  }

  ghost predicate Inv(l: Limits, w: World, r0: seq<Record>, u0: seq<bool>)
  {
    Shape(l, w) && Accounts(l, w, r0, u0) && HandlerOk(w) && TailOk(l, w, r0)
  }

  // ---- The start ---------------------------------------------------------------------

  lemma {:induction false} EligibleListIs(l: Limits, records: seq<Record>, reusable: seq<bool>, n: nat)
    requires n <= |records| == |reusable|
    ensures var s := EligibleList(l, records, reusable, n);
            && Distinct(s) && Subset(s, n)
            && forall i: nat | i < n :: i in s <==> Eligible(l, records[i], reusable[i])
  {
    if n > 0 {
      EligibleListIs(l, records, reusable, n - 1);
      var s := EligibleList(l, records, reusable, n - 1);
      assert (n - 1) in s + [n - 1];
      assert forall i: nat | i < n - 1 :: i in s + [n - 1] <==> i in s;
    }
  }

  lemma InitInv(l: Limits, records: seq<Record>, reusable: seq<bool>)
    requires |records| == |reusable| && l.maxWorkers > 0
    ensures var w := Init(l, records, reusable); Inv(l, w, w.records, w.reusable)
  {
    var w := Init(l, records, reusable);
    EligibleListIs(l, w.records, reusable, |records|);
    assert AllFinished(w, []);
  }

  // ---- One step ----------------------------------------------------------------------

  /** A step that leaves target `i` alone keeps its accounts. */
  ghost predicate SameTarget(w: World, w': World, i: nat)
  {
    && Sized(w) && Sized(w') && i < |w.records| == |w'.records|
    && w'.records[i] == w.records[i] && w'.reusable[i] == w.reusable[i] && w'.phase[i] == w.phase[i]
    && w'.starts[i] == w.starts[i]
    && (i in w'.pending <==> i in w.pending) && (i in w'.active <==> i in w.active)
    && (i in w'.interruptedIds ==> i in w.interruptedIds)
    && (w.interrupt ==> w'.interrupt)
  }

  lemma SubmitAccounts(l: Limits, w: World, r0: seq<Record>, u0: seq<bool>)
    requires Shape(l, w) && Accounts(l, w, r0, u0) && w.pc.Admitted?
    ensures Accounts(l, SubmitOne(w), r0, u0)
  {
    var w' := SubmitOne(w);
    var j := w.pending[0];
    assert w.pending == [j] + w.pending[1..];
    forall i: nat | i < |r0| ensures TargetOk(l, w', r0[i], u0[i], i) {
      assert TargetOk(l, w, r0[i], u0[i], i);
      if i != j { assert SameTarget(w, w', i); }
    }
  }

  lemma CollectAccounts(l: Limits, w: World, r0: seq<Record>, u0: seq<bool>)
    requires Shape(l, w) && Accounts(l, w, r0, u0) && w.pc.Collecting? && w.pc.done != []
    ensures Accounts(l, CollectOne(l, w, w.pc.done[0]), r0, u0)
  {
    var j := w.pc.done[0];
    var w' := CollectOne(l, w, j);
    assert Working(w, j, Finished) by { assert ToCollect(w.pc)[0] == j; }
    forall i: nat | i < |r0| ensures TargetOk(l, w', r0[i], u0[i], i) {
      assert TargetOk(l, w, r0[i], u0[i], i);
      if i != j { assert SameTarget(w, w', i); }
    }
  }

  /** Once interrupted, only the starts are still accounted for. */
  lemma InterruptedAccounts(l: Limits, w: World, w': World, r0: seq<Record>, u0: seq<bool>)
    requires Accounts(l, w, r0, u0) && w'.interrupt && w'.starts == w.starts && w'.pending == w.pending
    requires Sized(w') && |w'.records| == |w.records|
    ensures Accounts(l, w', r0, u0)
  {
    forall i: nat | i < |r0| ensures TargetOk(l, w', r0[i], u0[i], i) {
      assert TargetOk(l, w, r0[i], u0[i], i);
    }
  }

  lemma NormalizeAccounts(l: Limits, w: World, r0: seq<Record>, u0: seq<bool>)
    requires Shape(l, w) && Accounts(l, w, r0, u0) && w.pc.Normalizing? && w.active == {}
    ensures Accounts(l, MainStep(l, w), r0, u0)
  {
    var w' := MainStep(l, w);
    forall i: nat | i < |r0| ensures TargetOk(l, w', r0[i], u0[i], i) {
      assert TargetOk(l, w, r0[i], u0[i], i);
    }
  }

  /** A worker step touches one target, and the update under way if it is that target's. */
  lemma WorkerAccounts(l: Limits, w: World, w': World, r0: seq<Record>, u0: seq<bool>, j: nat)
    requires Accounts(l, w, r0, u0) && Sized(w') && |w'.records| == |w.records| && j < |w.records|
    requires w'.pending == w.pending && w'.active == w.active && w'.starts == w.starts && w'.interrupt == w.interrupt
    requires w'.writing == w.writing || w'.writing.NoWrite? || w'.writing.target == j
    requires forall i: nat | i < |w.records| && i != j :: SameTarget(w, w', i)
    requires TargetOk(l, w', r0[j], u0[j], j)
    ensures Accounts(l, w', r0, u0)
  {
    forall i: nat | i < |r0| ensures TargetOk(l, w', r0[i], u0[i], i) {
      assert TargetOk(l, w, r0[i], u0[i], i);
      if i != j { assert SameTarget(w, w', i); }
    }
  }

  lemma ChooseAccounts(l: Limits, w: World, a: Action, r0: seq<Record>, u0: seq<bool>, j: nat)
    requires Shape(l, w) && Accounts(l, w, r0, u0) && Enabled(w, a) && j < |w.records|
    requires a == Start(j) || (a.End? && a.target == j) || a == EscapeUpdate(j)
    ensures Accounts(l, Next(l, w, a), r0, u0)
  {
    assert TargetOk(l, w, r0[j], u0[j], j);
    WorkerAccounts(l, w, Next(l, w, a), r0, u0, j);
  }

  lemma WorkerStepAccounts(l: Limits, w: World, a: Action, r0: seq<Record>, u0: seq<bool>, j: nat)
    requires Shape(l, w) && Accounts(l, w, r0, u0) && Enabled(w, a) && j < |w.records|
    requires (a == Write && w.writing.target == j) || a == Escape(j) || (a.Touch? && a.target == j)
    ensures Accounts(l, Next(l, w, a), r0, u0)
  {
    assert TargetOk(l, w, r0[j], u0[j], j);
    WorkerAccounts(l, w, Next(l, w, a), r0, u0, j);
  }

  lemma PcAccounts(l: Limits, w: World, pc: Pc, r0: seq<Record>, u0: seq<bool>)
    requires Accounts(l, w, r0, u0)
    ensures Accounts(l, w.(pc := pc), r0, u0)
  {
    forall i: nat | i < |r0| ensures TargetOk(l, w.(pc := pc), r0[i], u0[i], i) {
      assert TargetOk(l, w, r0[i], u0[i], i);
    }
  }

  lemma MainAccounts(l: Limits, w: World, r0: seq<Record>, u0: seq<bool>)
    requires Inv(l, w, r0, u0) && Enabled(w, Main)
    ensures Accounts(l, MainStep(l, w), r0, u0)
  {
    var pc := MainStep(l, w).pc;
    match w.pc
    case Admitted =>
      SubmitAccounts(l, w, r0, u0);
      PcAccounts(l, SubmitOne(w), Submitting, r0, u0);
    case Collecting(done) =>
      if done != [] {
        CollectAccounts(l, w, r0, u0);
        PcAccounts(l, CollectOne(l, w, done[0]), Collecting(done[1..]), r0, u0);
      } else {
        PcAccounts(l, w, Submitting, r0, u0);
      }
    case Marking(_, _) => InterruptedAccounts(l, w, MainStep(l, w), r0, u0);
    case Normalizing(_) => NormalizeAccounts(l, w, r0, u0);
    case _ => PcAccounts(l, w, pc, r0, u0);
  }

  lemma AccountsKept(l: Limits, w: World, a: Action, r0: seq<Record>, u0: seq<bool>)
    requires Inv(l, w, r0, u0) && Enabled(w, a)
    ensures Accounts(l, Next(l, w, a), r0, u0)
  {
    var w' := Next(l, w, a);
    match a
    case Main => MainAccounts(l, w, r0, u0);
    case Start(i) => ChooseAccounts(l, w, a, r0, u0, i);
    case End(i, _) => ChooseAccounts(l, w, a, r0, u0, i);
    case EscapeUpdate(i) => ChooseAccounts(l, w, a, r0, u0, i);
    case Write => WorkerStepAccounts(l, w, a, r0, u0, w.writing.target);
    case Escape(i) => WorkerStepAccounts(l, w, a, r0, u0, i);
    case Touch(i, _) => WorkerStepAccounts(l, w, a, r0, u0, i);
    case EscapeSignal(_) => InterruptedAccounts(l, w, w', r0, u0);
    case Signal => InterruptedAccounts(l, w, w', r0, u0);
    case KeyboardInterrupt => InterruptedAccounts(l, w, w', r0, u0);
    case Handle => InterruptedAccounts(l, w, w', r0, u0);
    case Wake(_) =>
  }

  // ---- Interrupt invariants -----------------------------------------------------------

  lemma HandlerKept(l: Limits, w: World, a: Action)
    requires Shape(l, w) && HandlerOk(w) && Enabled(w, a)
    ensures HandlerOk(Next(l, w, a))
  {
  }

  lemma MarkSettles(w: World, k: nat)
    requires k < |w.records| && SettledTo(w.records, w.interruptedIds, k)
    ensures SettledTo(MarkOne(w, k).records, MarkOne(w, k).interruptedIds, k + 1)
  {
    var w' := MarkOne(w, k);
    forall i: nat | i < k + 1 && i < |w'.records| ensures Settled(w'.records, w'.interruptedIds, i) {
      if i < k { assert Settled(w.records, w.interruptedIds, i); }
    }
  }

  lemma NormalizeSettled(l: Limits, records: seq<Record>, reusable: seq<bool>, ids: set<nat>, r0: seq<Record>)
    requires |records| == |reusable|
    ensures SettledTo(records, ids, |records|) ==> SettledTo(NormalizedAll(l, records, reusable), ids, |records|)
    ensures OnlyLive(records, ids) ==> OnlyLive(NormalizedAll(l, records, reusable), ids)
    ensures LiveExactly(l, records, r0) ==> LiveExactly(l, NormalizedAll(l, records, reusable), r0)
  {
    if SettledTo(records, ids, |records|) {
      forall i: nat | i < |records| ensures Settled(NormalizedAll(l, records, reusable), ids, i) {
        assert Settled(records, ids, i);
      }
    }
  }

  /** With the interrupt clear, no worker and nothing queued: no target is in the set or could
      run again, and the live ones are those loaded live with their attempts used up. */
  lemma Quiescent(l: Limits, w: World, r0: seq<Record>, u0: seq<bool>)
    requires Shape(l, w) && Accounts(l, w, r0, u0) && !w.interrupt && w.active == {} && w.pending == []
    ensures OnlyLive(w.records, w.interruptedIds) && LiveExactly(l, w.records, r0)
        && NoneEligible(l, w.records, w.reusable)
  {
    forall i: nat | i < |w.records|
      ensures i !in w.interruptedIds && !Eligible(l, w.records[i], w.reusable[i])
      ensures Live(w.records[i]) <==> Live(r0[i]) && r0[i].attempt >= l.maxAttempts
    {
      assert TargetOk(l, w, r0[i], u0[i], i);
    }
  }

  lemma NormalizedReusable(l: Limits, w: World)
    requires Sized(w) && AllNormalized(l, w) && NoneEligible(l, w.records, w.reusable)
    ensures CompletedReusable(w.records, w.reusable)
  {
    forall i: nat | i < |w.records| && w.records[i].state == Completed ensures w.reusable[i] {
      assert Normalized(l, w.records[i], w.reusable[i]) == w.records[i] && !Eligible(l, w.records[i], w.reusable[i]);
    }
  }

  lemma TailMain(l: Limits, w: World, w': World, r0: seq<Record>, u0: seq<bool>)
    requires Shape(l, w) && Accounts(l, w, r0, u0) && HandlerOk(w) && TailOk(l, w, r0) && Enabled(w, Main)
    requires w' == MainStep(l, w) && Sized(w')
    ensures TailOk(l, w', r0)
  {
    match w.pc
    case Marking(k, after) =>
      if after.Normalizing? && k < |w.records| { MarkSettles(w, k); }
    case LastCheck =>
      if !w.interrupt { Quiescent(l, w, r0, u0); }
    case Normalizing(seen) => NormalizeSettled(l, w.records, w.reusable, w.interruptedIds, r0);
    case Deciding(seen) =>
      if !w.interrupt {
        Quiescent(l, w, r0, u0);
        NormalizedReusable(l, w);
      }
    case Submitting =>
      assert w.active == {} ==> |w.active| == 0;
    case _ =>
  }

  /** The handler adds live targets only, and there are none among the settled. */
  lemma AddingLive(records: seq<Record>, ids: set<nat>, n: nat, j: nat)
    requires j < |records| && Live(records[j])
    ensures SettledTo(records, ids, n) ==> SettledTo(records, ids + {j}, n)
    ensures OnlyLive(records, ids) ==> OnlyLive(records, ids + {j})
  {
    if SettledTo(records, ids, n) {
      forall i: nat | i < n && i < |records| ensures Settled(records, ids + {j}, i) { assert Settled(records, ids, i); }
    }
  }

  lemma TailKept(l: Limits, w: World, a: Action, r0: seq<Record>)
    requires Shape(l, w) && HandlerOk(w) && TailOk(l, w, r0) && Enabled(w, a) && !a.Main?
    ensures TailOk(l, Next(l, w, a), r0)
  {
    if a.Handle? && w.handler.Admitting? && w.active == {} {
      AddingLive(w.records, w.interruptedIds, |w.records|, w.handler.next);
      if w.pc.Marking? { AddingLive(w.records, w.interruptedIds, w.pc.next, w.handler.next); }
    }
  }

  lemma InvKept(l: Limits, w: World, a: Action, r0: seq<Record>, u0: seq<bool>)
    requires Inv(l, w, r0, u0) && Enabled(w, a)
    ensures Inv(l, Next(l, w, a), r0, u0)
  {
    ShapeKept(l, w, a);
    AccountsKept(l, w, a, r0, u0);
    HandlerKept(l, w, a);
    if a.Main? { TailMain(l, w, Next(l, w, a), r0, u0); } else { TailKept(l, w, a, r0); }
  }
}
