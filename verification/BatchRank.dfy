/** The scheduling loop ends: ranks that every step of the runner lowers, before an interrupt
    and after one, and a bound on the number of such steps. */
module BatchRank {
  import opened BatchMachine
  import opened BatchInvariants
  import opened BatchTheorems

  /** The runner's own steps. A wait that times out, a signal and a change of a directory are
      not among them. */
  predicate Progresses(a: Action)
  {
    match a
    case Wake(done) => done != []
    case KeyboardInterrupt | Signal => false
    case Touch(_, _) => false
    case _ => true
  }

  /** The target a step works on, if any. */
  function Subject(w: World, a: Action): nat
  {
    match a
    case Start(i) => i
    case End(i, _) => i
    case Write => if w.writing.Chosen? then w.writing.target else 0
    case Escape(i) => i
    case EscapeUpdate(i) => i
    case EscapeSignal(i) => i
    case Main =>
      if w.pc.Collecting? && w.pc.done != [] then w.pc.done[0]
      else if w.pc.Admitted? && w.pending != [] then w.pending[0] else |w.records|
    case _ => |w.records|
  }

  /** An update that has made its test is one step further. */
  function Chose(w: World, i: nat): int
  {
    if w.writing.Chosen? && w.writing.target == i then 1 else 0
  }

  // ---- Before an interrupt -----------------------------------------------------------

  /** Work left on target `i`. */
  function Weight(l: Limits, w: World, i: nat): int
    requires i < |w.records| == |w.phase|
  {
    var b := if w.records[i].attempt <= l.maxAttempts then l.maxAttempts - w.records[i].attempt else 0;
    match w.phase[i]
    case NoWorker => if i in w.pending then 12 * b else 0
    case Submitted => 12 * b - 2 - Chose(w, i)
    case InFlight => 12 * b + 8 - Chose(w, i)
    case Finished => 12 * b + 6
    case Escaping => 4 - Chose(w, i)
    case Leaving => 2
  }

  function Weights(l: Limits, w: World): (s: seq<int>)
    requires |w.records| == |w.phase|
    ensures |s| == |w.records| && forall i: nat | i < |s| :: s[i] == Weight(l, w, i)
  {
    seq(|w.records|, i requires 0 <= i < |w.records| => Weight(l, w, i))
  }

  function PcWeight(pc: Pc): int
  {
    match pc
    case Woken(done) => if done == [] then 8 else 3
    case Collecting(done) => if done == [] then 7 else 2
    case Submitting => 6
    case Admitted => 5
    case Waiting => 4
    case LastCheck => 5
    case Normalizing(_) => 4
    case Deciding(_) => 3
    case Publishing(_, _, _) => 2
    case _ => 0
  }

  function Rank(l: Limits, w: World): int
    requires |w.records| == |w.phase|
  {
    Total(Weights(l, w), |w.records|) + PcWeight(w.pc)
  }

  lemma {:induction false} TotalWithin(s: seq<int>, n: nat, c: int)
    requires n <= |s| && forall k: nat | k < n :: 0 <= s[k] <= c
    ensures 0 <= Total(s, n) <= n * c
  {
    if n > 0 { TotalWithin(s, n - 1, c); }
  }

  lemma {:induction false} TotalNonNegative(s: seq<int>, n: nat)
    requires n <= |s| && forall k: nat | k < n :: 0 <= s[k]
    ensures 0 <= Total(s, n)
  {
    if n > 0 { TotalNonNegative(s, n - 1); }
  }

  lemma RankNonNegative(l: Limits, w: World, r0: seq<Record>, u0: seq<bool>)
    requires Inv(l, w, r0, u0) && !w.interrupt
    ensures 0 <= Rank(l, w)
  {
    forall i: nat | i < |w.records| ensures 0 <= Weights(l, w)[i] { assert TargetOk(l, w, r0[i], u0[i], i); }
    TotalNonNegative(Weights(l, w), |w.records|);
  }

  lemma OthersWeighMain(l: Limits, w: World, r0: seq<Record>, u0: seq<bool>, i: nat)
    requires Inv(l, w, r0, u0) && Enabled(w, Main) && !w.interrupt && i < |w.records| && i != Subject(w, Main)
    ensures |MainStep(l, w).records| == |MainStep(l, w).phase| == |w.records|
    ensures Weight(l, MainStep(l, w), i) == Weight(l, w, i)
  {
    if w.pc.Admitted? {
      assert w.pending == [w.pending[0]] + w.pending[1..];
    }
  }

  lemma OthersWeigh(l: Limits, w: World, a: Action, r0: seq<Record>, u0: seq<bool>, i: nat)
    requires Inv(l, w, r0, u0) && Enabled(w, a) && !w.interrupt && Progresses(a)
    requires i < |w.records| && i != Subject(w, a)
    ensures |Next(l, w, a).records| == |Next(l, w, a).phase| == |w.records|
    ensures Weight(l, Next(l, w, a), i) == Weight(l, w, i)
  {
    if a.Main? { OthersWeighMain(l, w, r0, u0, i); }
  }

  lemma SubjectRank(l: Limits, w: World, a: Action, r0: seq<Record>, u0: seq<bool>)
    requires Inv(l, w, r0, u0) && Enabled(w, a) && !w.interrupt && Progresses(a) && !a.EscapeSignal?
    ensures var w' := Next(l, w, a);
            var j := Subject(w, a);
            && |w'.records| == |w'.phase| == |w.records|
            && PcWeight(w'.pc) + (if j < |w.records| then Weight(l, w', j) - Weight(l, w, j) else 0) < PcWeight(w.pc)
  {
    var j := Subject(w, a);
    if j < |w.records| { assert TargetOk(l, w, r0[j], u0[j], j); }
  }

  /** Until an interrupt every step of the runner lowers the rank, unless it interrupts. */
  lemma RankFalls(l: Limits, w: World, a: Action, r0: seq<Record>, u0: seq<bool>)
    requires Inv(l, w, r0, u0) && Enabled(w, a) && !w.interrupt && Progresses(a)
    ensures |Next(l, w, a).records| == |Next(l, w, a).phase|
    ensures 0 <= Rank(l, w) && (Next(l, w, a).interrupt || Rank(l, Next(l, w, a)) < Rank(l, w))
  {
    RankNonNegative(l, w, r0, u0);
    var w', j := Next(l, w, a), Subject(w, a);
    if !a.EscapeSignal? {
      forall i: nat | i < |w.records| && i != j ensures Weights(l, w')[i] == Weights(l, w)[i] {
        OthersWeigh(l, w, a, r0, u0, i);
      }
      SubjectRank(l, w, a, r0, u0);
      OneChange(Weights(l, w), Weights(l, w'), j, |w.records|);
    }
  }

  // ---- After an interrupt ------------------------------------------------------------

  /** Steps left to the worker of target `i`, and what collecting it may cost: a marking. */
  function LateWeight(w: World, i: nat): int
    requires i < |w.phase|
  {
    var u := |w.phase| + 6;
    match w.phase[i]
    case NoWorker => 0
    case Submitted => u + 7 - Chose(w, i)
    case InFlight => u + 5 - Chose(w, i)
    case Escaping => u + 3 - Chose(w, i)
    case Leaving => u + 1
    case Finished => u
  }

  function LateWeights(w: World): (s: seq<int>)
    ensures |s| == |w.phase| && forall i: nat | i < |s| :: s[i] == LateWeight(w, i)
  {
    seq(|w.phase|, i requires 0 <= i < |w.phase| => LateWeight(w, i))
  }

  function ToGo(n: nat, k: nat): nat
  {
    if k < n then n - k else 0
  }

  function LatePcWeight(pc: Pc, n: nat): int
  {
    match pc
    case Admitted => 2 * n + 21
    case Woken(done) => if done == [] then 2 * n + 10 else n + 5
    case Marking(k, Waiting) => n + 7 + ToGo(n, k)
    case Marking(k, Collecting(done)) => (if done == [] then n + 9 else 4) + ToGo(n, k)
    case Marking(k, _) => 4 + ToGo(n, k)
    case Collecting(done) => if done == [] then n + 8 else 3
    case Submitting => n + 7
    case Waiting => n + 6
    case LastCheck => n + 5
    case Normalizing(_) => 3
    case Deciding(_) => 2
    case Publishing(_, _, _) => 1
    case Over(_, _, _) => 0
  }

  function HandlerWeight(h: Handler, n: nat): int
  {
    match h
    case Idle => 0
    case Checking(k) => 2 * ToGo(n, k) + 1
    case Admitting(k) => 2 * ToGo(n, k)
  }

  function LateRank(w: World): int
  {
    Total(LateWeights(w), |w.phase|) + LatePcWeight(w.pc, |w.phase|) + HandlerWeight(w.handler, |w.phase|)
  }

  function LateBound(n: nat): int
  {
    n * (n + 13) + 4 * n + 22
  }

  lemma LateRankWithin(l: Limits, w: World)
    requires Shape(l, w)
    ensures 0 <= LateRank(w) <= LateBound(|w.phase|)
  {
    TotalWithin(LateWeights(w), |w.phase|, |w.phase| + 13);
  }

  lemma OthersLateMain(l: Limits, w: World, i: nat)
    requires Shape(l, w) && Enabled(w, Main) && i < |w.phase| && i != Subject(w, Main)
    ensures |MainStep(l, w).phase| == |w.phase| && LateWeight(MainStep(l, w), i) == LateWeight(w, i)
  {
  }

  lemma OthersLate(l: Limits, w: World, a: Action, i: nat)
    requires Shape(l, w) && Enabled(w, a) && Progresses(a) && i < |w.phase| && i != Subject(w, a)
    ensures |Next(l, w, a).phase| == |w.phase| && LateWeight(Next(l, w, a), i) == LateWeight(w, i)
  {
    if a.Main? { OthersLateMain(l, w, i); }
  }

  lemma SubjectLate(l: Limits, w: World, a: Action)
    requires Shape(l, w) && HandlerOk(w) && Enabled(w, a) && Progresses(a) && w.interrupt
    ensures var w' := Next(l, w, a);
            var j, n := Subject(w, a), |w.phase|;
            && |w'.phase| == n
            && LatePcWeight(w'.pc, n) + HandlerWeight(w'.handler, n)
               + (if j < n then LateWeight(w', j) - LateWeight(w, j) else 0)
               < LatePcWeight(w.pc, n) + HandlerWeight(w.handler, n)
  {
  }

  /** Once interrupted the runner's steps still lower a rank, to the end. */
  lemma LateRankFalls(l: Limits, w: World, a: Action)
    requires Shape(l, w) && HandlerOk(w) && Enabled(w, a) && Progresses(a) && w.interrupt
    ensures Next(l, w, a).interrupt && LateRank(Next(l, w, a)) < LateRank(w)
  {
    var w', j := Next(l, w, a), Subject(w, a);
    forall i: nat | i < |w.phase| && i != j ensures |w'.phase| == |w.phase| && LateWeights(w')[i] == LateWeights(w)[i] {
      OthersLate(l, w, a, i);
    }
    SubjectLate(l, w, a);
    OneChange(LateWeights(w), LateWeights(w'), j, |w.phase|);
  }

  // ---- The loop ends -----------------------------------------------------------------

  /** What the runner may still do; before an interrupt that includes what follows one. */
  function Potential(l: Limits, w: World): int
    requires |w.records| == |w.phase|
  {
    if w.interrupt then LateRank(w) else Rank(l, w) + 1 + LateBound(|w.phase|)
  }

  /** The steps that come from outside and may cost the runner some more of its own: another
      turn of the loop, another run of the handler, another marking. */
  function Allowance(a: Action, n: nat): nat
  {
    match a
    case Wake(done) => if done == [] then n + 4 else 0
    case Signal => 2 * n + 1
    case KeyboardInterrupt => 3 * n + 2
    case _ => 0
  }

  lemma PotentialWithin(l: Limits, w: World, r0: seq<Record>, u0: seq<bool>)
    requires Inv(l, w, r0, u0)
    ensures 0 <= Potential(l, w) && (w.interrupt ==> Potential(l, w) <= LateBound(|w.phase|))
    ensures !w.interrupt ==> LateBound(|w.phase|) < Potential(l, w)
  {
    LateRankWithin(l, w);
    if !w.interrupt { RankNonNegative(l, w, r0, u0); }
  }

  /** A timeout, a signal and a change of a directory leave every worker where it was. */
  lemma OutsideWeighs(l: Limits, w: World, a: Action)
    requires Shape(l, w) && Enabled(w, a) && !Progresses(a)
    ensures var w' := Next(l, w, a);
            && |w'.records| == |w'.phase| == |w.records|
            && LateWeights(w') == LateWeights(w) && Weights(l, w') == Weights(l, w)
  {
    var w' := Next(l, w, a);
    assert forall i: nat | i < |w.phase| :: LateWeight(w', i) == LateWeight(w, i);
    assert forall i: nat | i < |w.phase| :: Weight(l, w', i) == Weight(l, w, i);
  }

  lemma OutsideStep(l: Limits, w: World, a: Action, r0: seq<Record>, u0: seq<bool>)
    requires Inv(l, w, r0, u0) && Enabled(w, a) && Inv(l, Next(l, w, a), r0, u0) && !Progresses(a)
    ensures Potential(l, Next(l, w, a)) <= Potential(l, w) + Allowance(a, |w.phase|)
  {
    var w' := Next(l, w, a);
    OutsideWeighs(l, w, a);
    PotentialWithin(l, w, r0, u0);
    PotentialWithin(l, w', r0, u0);
  }

  lemma OwnStep(l: Limits, w: World, a: Action, r0: seq<Record>, u0: seq<bool>)
    requires Inv(l, w, r0, u0) && Enabled(w, a) && Inv(l, Next(l, w, a), r0, u0) && Progresses(a)
    ensures |Next(l, w, a).phase| == |w.phase| && Potential(l, Next(l, w, a)) < Potential(l, w)
  {
    if w.interrupt {
      LateRankFalls(l, w, a);
    } else {
      RankFalls(l, w, a, r0, u0);
      PotentialWithin(l, w, r0, u0);
      PotentialWithin(l, Next(l, w, a), r0, u0);
    }
  }

  /** The runner's own steps in a schedule; a step that is not enabled is skipped. */
  ghost function OwnSteps(l: Limits, w: World, schedule: seq<Action>): nat
    requires Shape(l, w)
    decreases |schedule|
  {
    if schedule == [] then 0
    else if Enabled(w, schedule[0]) then
      ShapeKept(l, w, schedule[0]);
      (if Progresses(schedule[0]) then 1 else 0) + OwnSteps(l, Next(l, w, schedule[0]), schedule[1..])
    else OwnSteps(l, w, schedule[1..])
  }

  /** What the timeouts and signals of a schedule allow. */
  function Allowances(schedule: seq<Action>, n: nat): nat
  {
    if schedule == [] then 0 else Allowance(schedule[0], n) + Allowances(schedule[1..], n)
  }

  /** From any state a batch can be in and under any schedule, with whatever timeouts, signals
      and changes of directories between them, the number of the runner's own steps is bounded:
      by the state, and a fixed amount for each timeout and each signal. */
  lemma {:induction false} LoopEnds(l: Limits, w: World, schedule: seq<Action>, r0: seq<Record>, u0: seq<bool>)
    requires Inv(l, w, r0, u0)
    ensures OwnSteps(l, w, schedule) <= Potential(l, w) + Allowances(schedule, |w.records|)
    decreases |schedule|
  {
    PotentialWithin(l, w, r0, u0);
    if schedule != [] {
      var a, rest := schedule[0], schedule[1..];
      if Enabled(w, a) {
        InvKept(l, w, a, r0, u0);
        if Progresses(a) { OwnStep(l, w, a, r0, u0); } else { OutsideStep(l, w, a, r0, u0); }
        LoopEnds(l, Next(l, w, a), rest, r0, u0);
      } else {
        LoopEnds(l, w, rest, r0, u0);
      }
    }
  }

  /** At the start that is a number known before the run: twelve steps or so for every attempt
      an eligible target has left, and what an interrupt may add. */
  lemma {:induction false} StartWeight(l: Limits, records: seq<Record>, reusable: seq<bool>, n: nat)
    requires n <= |records| == |reusable| && l.maxWorkers > 0
    ensures var w := Init(l, records, reusable);
            |w.records| == |w.phase| && Total(Weights(l, w), n) <= 12 * Budget(l, w.records, reusable, n)
  {
    if n > 0 {
      StartWeight(l, records, reusable, n - 1);
      EligibleListIs(l, NormalizedAll(l, records, reusable), reusable, |records|);
    }
  }

  /** So the loop of every batch ends. */
  lemma BatchEnds(l: Limits, records: seq<Record>, reusable: seq<bool>, schedule: seq<Action>)
    requires |records| == |reusable| && l.maxWorkers > 0
    ensures Shape(l, Init(l, records, reusable))
    ensures var w := Init(l, records, reusable);
            && |w.records| == |records|
            && OwnSteps(l, w, schedule) <=
                 12 * Budget(l, w.records, reusable, |records|) + 7 + LateBound(|records|)
                 + Allowances(schedule, |records|)
  {
    var w := Init(l, records, reusable);
    InitInv(l, records, reusable);
    LoopEnds(l, w, schedule, w.records, w.reusable);
    StartWeight(l, records, reusable, |records|);
  }

  /** And they end with the result published: until then one of them is enabled. */
  lemma NeverStuck(l: Limits, w: World, r0: seq<Record>, u0: seq<bool>) returns (a: Action)
    requires Inv(l, w, r0, u0) && !w.pc.Over?
    ensures Enabled(w, a) && Progresses(a)
  {
    if !w.handler.Idle? {
      a := Handle;
    } else if w.writing.Chosen? {
      a := Write;
    } else if !w.pc.Waiting? {
      a := Main;
    } else {
      var i :| i in w.active;
      match w.phase[i]
      case Submitted => a := Start(i);
      case InFlight => a := End(i, Completes);
      case Escaping => a := EscapeUpdate(i);
      case Leaving => a := EscapeSignal(i);
      case Finished => a := Wake([i]); assert Working(w, i, Finished);
      case NoWorker => assert false; a := Main;
    }
  }
}
