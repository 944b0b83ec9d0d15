/** The batch runner as a machine: every interleaving of the scheduling loop, the workers,
    and the signal handler is a schedule of its atomic steps. */
module BatchMachine {

  datatype TargetState = Queued | Running | Retrying | Paused | Completed | CompletedWithGaps | Failed | Interrupted

  /** One target record; the empty error code is Python's None. */
  datatype Record = Record(state: TargetState, attempt: nat, errorCode: string)

  datatype BatchStatus = BatchCompleted | BatchCompletedWithGaps | BatchCompletedWithFailures | BatchInterrupted

  datatype Limits = Limits(maxAttempts: nat, maxWorkers: nat, retryFailed: bool)

  const RETRYABLE: set<string> := {
    "LLM_RETRYABLE_HTTP", "LLM_NETWORK_RETRYABLE", "LLM_RETRIES_EXHAUSTED", "LLM_AUTHENTICATION_FAILED",
    "LLM_NETWORK_FAILED", "LLM_RESPONSE_INVALID", "LLM_RESPONSE_SCHEMA_INVALID",
    "LLM_RESPONSE_SENSITIVE_CONTENT", "BATCH_TARGET_FAILED" }

  /** What a worker is doing for its target; `Leaving` follows the update of an escape. */
  datatype Phase = NoWorker | Submitted | InFlight | Escaping | Leaving | Finished

  /** The signal handler runs on the main thread: looking at record `next`, or about to add it. */
  datatype Handler = Idle | Checking(next: nat) | Admitting(next: nat)

  /** A worker inside `_update` that has chosen what to write and holds the state lock: its
      target, the record, and the phase it will be in once it has written. */
  datatype Writing = NoWrite | Chosen(target: nat, record: Record, next: Phase)

  /** Where the main thread is. `Admitted`: it found the interrupt clear and room in the pool,
      and will submit. `Marking(0, _)` waits for the state lock. `seen` and `told`: the check
      after the pool, and the test that settles the status, found the interrupt set. */
  datatype Pc =
    | Submitting
    | Admitted
    | Waiting
    | Woken(done: seq<nat>)
    | Marking(next: nat, after: Pc)
    | Collecting(done: seq<nat>)
    | LastCheck
    | Normalizing(seen: bool)
    | Deciding(seen: bool)
    | Publishing(status: BatchStatus, seen: bool, told: bool)
    | Over(status: BatchStatus, seen: bool, told: bool)

  /** The shared state. Targets are numbered in plan order; `reusable[i]` tells whether the
      directory of target `i` holds a matching binding and a completed `run.json`. */
  datatype World = World(
    records: seq<Record>, reusable: seq<bool>, interrupt: bool, interruptedIds: set<nat>,
    handler: Handler, pending: seq<nat>, active: set<nat>, phase: seq<Phase>, pc: Pc, starts: seq<nat>,
    writing: Writing)

  predicate Live(r: Record)
  {
    r.state.Queued? || r.state.Running? || r.state.Retrying?
  }

  predicate Eligible(l: Limits, r: Record, reusable: bool)
  {
    match r.state
    case Completed => !reusable && r.attempt < l.maxAttempts
    case CompletedWithGaps | Paused => false
    case Failed => l.retryFailed && r.errorCode in RETRYABLE && r.attempt < l.maxAttempts
    case Queued | Running | Retrying | Interrupted => r.attempt < l.maxAttempts
  }

  function Stopped(r: Record): Record
  {
    r.(state := Interrupted, errorCode := "BATCH_INTERRUPTED")
  }

  /** What `_update` chooses to write: an interrupted target stays interrupted whatever its
      worker reports, as far as the interrupt is visible at this moment. */
  function Effective(w: World, i: nat, r: Record): Record
    requires i < |w.records|
  {
    var current := w.records[i];
    if i in w.interruptedIds || (w.interrupt && current.state == Interrupted) then Stopped(current) else r
  }

  /** The first half of `_update`: the test, under the state lock. */
  function Choose(w: World, i: nat, r: Record, next: Phase): World
    requires i < |w.records|
  {
    w.(writing := Chosen(i, Effective(w, i, r), next))
  }

  /** The second half: the write. The handler takes no lock and may have run in between. */
  function Commit(w: World): World
    requires w.writing.Chosen? && w.writing.target < |w.records| == |w.phase|
  {
    w.(records := w.records[w.writing.target := w.writing.record], phase := w.phase[w.writing.target := w.writing.next],
       writing := NoWrite)
  }

  /** A completed record whose artifacts are missing and whose attempts are used up. */
  function Normalized(l: Limits, r: Record, reusable: bool): Record
  {
    if r.state.Completed? && r.attempt >= l.maxAttempts && !reusable
    then r.(state := CompletedWithGaps, errorCode := "BATCH_TARGET_ARTIFACTS_MISSING")
    else r
  }

  function NormalizedAll(l: Limits, records: seq<Record>, reusable: seq<bool>): (all: seq<Record>)
    requires |records| == |reusable|
    ensures |all| == |records|
    ensures forall i | 0 <= i < |all| :: all[i] == Normalized(l, records[i], reusable[i])
  {
    seq(|records|, i requires 0 <= i < |records| => Normalized(l, records[i], reusable[i]))
  }

  /** The eligible targets among the first `n`, in plan order. */
  function EligibleList(l: Limits, records: seq<Record>, reusable: seq<bool>, n: nat): seq<nat>
    requires n <= |records| == |reusable|
  {
    if n == 0 then [] else
      EligibleList(l, records, reusable, n - 1) +
      (if Eligible(l, records[n - 1], reusable[n - 1]) then [n - 1] else [])
  }

  predicate Has(records: seq<Record>, s: TargetState)
  {
    exists i | 0 <= i < |records| :: records[i].state == s
  }

  function Decide(interrupt: bool, records: seq<Record>): BatchStatus
  {
    if interrupt || Has(records, Interrupted) then BatchInterrupted
    else if Has(records, Failed) then BatchCompletedWithFailures
    else if Has(records, Paused) || Has(records, Queued) || Has(records, Running) || Has(records, Retrying)
         || Has(records, CompletedWithGaps) then BatchCompletedWithGaps
    else BatchCompleted
  }

  /** The state when the handlers are installed and the eligible targets are queued. */
  function Init(l: Limits, records: seq<Record>, reusable: seq<bool>): World
    requires |records| == |reusable|
  {
    var normalized := NormalizedAll(l, records, reusable);
    World(
      normalized, reusable, false, {}, Idle, EligibleList(l, normalized, reusable, |records|), {},
      seq(|records|, _ => NoWorker), Submitting, seq(|records|, _ => 0), NoWrite)
  }

  // ---- Steps -----------------------------------------------------------------------

  /** How the pipeline of a target ends when it does not escape. */
  datatype Outcome = Completes | Fails(code: string)

  datatype Action =
    | Main
    | Wake(done: seq<nat>)
    | KeyboardInterrupt
    | Signal
    | Handle
    | Start(target: nat)
    | End(target: nat, outcome: Outcome)
    | Write
    | Escape(target: nat)
    | EscapeUpdate(target: nat)
    | EscapeSignal(target: nat)
    | Touch(target: nat, reusable: bool)

  predicate Distinct(s: seq<nat>)
  {
    forall i, j | 0 <= i < j < |s| :: s[i] != s[j]
  }

  /** The worker of `i` is in phase `p`, and not in the middle of an update. */
  predicate Working(w: World, i: nat, p: Phase)
  {
    && i < |w.phase| && i < |w.records| && i in w.active && w.phase[i] == p
    && !(w.writing.Chosen? && w.writing.target == i)
  }

  /** The state lock is free. */
  predicate Unlocked(w: World)
  {
    w.writing.NoWrite? && !(w.pc.Marking? && w.pc.next > 0)
  }

  predicate AllFinished(w: World, done: seq<nat>)
  {
    forall k | 0 <= k < |done| :: Working(w, done[k], Finished)
  }

  /** Nothing happens once the result is published. The handler suspends the main thread;
      the main thread holds the state lock while it marks, and a worker while it updates. */
  predicate Enabled(w: World, a: Action)
  {
    !w.pc.Over? &&
    match a
    case Main => w.handler.Idle? && !w.pc.Waiting? && (w.pc.Marking? ==> w.writing.NoWrite?)
    case Wake(done) => w.handler.Idle? && w.pc.Waiting? && Distinct(done) && AllFinished(w, done)
    case KeyboardInterrupt => w.handler.Idle? && w.pc.Waiting?
    case Signal => w.handler.Idle?
    case Handle => !w.handler.Idle?
    case Start(i) => Working(w, i, Submitted) && Unlocked(w)
    case End(i, _) => Working(w, i, InFlight) && Unlocked(w)
    case Write => w.writing.Chosen?
    case Escape(i) => Working(w, i, Submitted) || Working(w, i, InFlight)
    case EscapeUpdate(i) => Working(w, i, Escaping) && Unlocked(w)
    case EscapeSignal(i) => Working(w, i, Leaving)
    case Touch(i, _) => Working(w, i, InFlight) && i < |w.reusable|
  }

  function MarkOne(w: World, i: nat): World
    requires i < |w.records|
  {
    var ids := if Live(w.records[i]) then w.interruptedIds + {i} else w.interruptedIds;
    w.(interruptedIds := ids,
       records := if i in ids && w.records[i].state != Interrupted then w.records[i := Stopped(w.records[i])]
           else w.records)
  }

  function CollectOne(l: Limits, w: World, i: nat): World
    requires i < |w.records| == |w.reusable| == |w.phase|
  {
    w.(active := w.active - {i}, phase := w.phase[i := NoWorker],
       pending := if !w.interrupt && Eligible(l, w.records[i], w.reusable[i]) then w.pending + [i] else w.pending)
  }

  function SubmitOne(w: World): World
    requires w.pending != [] && w.pending[0] < |w.phase| == |w.starts|
  {
    var i := w.pending[0];
    w.(pending := w.pending[1..], active := w.active + {i}, phase := w.phase[i := Submitted],
       starts := w.starts[i := w.starts[i] + 1])
  }

  /** One step of the main thread. */
  function MainStep(l: Limits, w: World): World
    requires Shape(l, w)
  {
    match w.pc
    case Submitting =>
      if !w.interrupt && |w.active| < l.maxWorkers && w.pending != [] then w.(pc := Admitted)
      else if w.active != {} then w.(pc := Waiting) else w.(pc := LastCheck)
    case Admitted => SubmitOne(w).(pc := Submitting)
    case Waiting => w
    case Woken(done) => if w.interrupt then w.(pc := Marking(0, Collecting(done))) else w.(pc := Collecting(done))
    case Marking(i, after) => if i < |w.records| then MarkOne(w, i).(pc := Marking(i + 1, after)) else w.(pc := after)
    case Collecting(done) =>
      if done == [] then w.(pc := Submitting) else CollectOne(l, w, done[0]).(pc := Collecting(done[1..]))
    case LastCheck => if w.interrupt then w.(pc := Marking(0, Normalizing(true))) else w.(pc := Normalizing(false))
    case Normalizing(seen) => w.(records := NormalizedAll(l, w.records, w.reusable), pc := Deciding(seen))
    case Deciding(seen) => w.(pc := Publishing(Decide(w.interrupt, w.records), seen, w.interrupt))
    case Publishing(status, seen, told) => w.(pc := Over(status, seen, told))
    case Over(_, _, _) => w
  }

  function HandlerStep(w: World): World
  {
    match w.handler
    case Idle => w
    case Checking(i) =>
      if i >= |w.records| then w.(handler := Idle)
      else w.(handler := if Live(w.records[i]) then Admitting(i) else Checking(i + 1))
    case Admitting(i) => w.(interruptedIds := w.interruptedIds + {i}, handler := Checking(i + 1))
  }

  function Started(r: Record): Record
  {
    Record(if r.attempt + 1 > 1 then Retrying else Running, r.attempt + 1, "")
  }

  function Ended(r: Record, outcome: Outcome): Record
  {
    match outcome
    case Completes => r.(state := Completed)
    case Fails(code) => r.(state := Failed, errorCode := code)
  }

  function Next(l: Limits, w: World, a: Action): World
    requires Shape(l, w) && Enabled(w, a)
  {
    match a
    case Main => MainStep(l, w)
    case Wake(done) => w.(pc := Woken(done))
    case KeyboardInterrupt => w.(interrupt := true, handler := Checking(0), pc := Marking(0, Waiting))
    case Signal => w.(interrupt := true, handler := Checking(0))
    case Handle => HandlerStep(w)
    case Start(i) => Choose(w, i, Started(w.records[i]), InFlight)
    case End(i, outcome) => Choose(w, i, Ended(w.records[i], outcome), Finished)
    case Write => Commit(w)
    case Escape(i) => w.(interruptedIds := w.interruptedIds + {i}, phase := w.phase[i := Escaping])
    case EscapeUpdate(i) => Choose(w, i, Stopped(w.records[i]), Leaving)
    case EscapeSignal(i) => w.(interrupt := true, phase := w.phase[i := Finished])
    case Touch(i, reusable) => w.(reusable := w.reusable[i := reusable])
  }

  // ---- What every reachable state satisfies ------------------------------------------

  ghost predicate Subset(s: seq<nat>, n: nat)
  {
    forall k | 0 <= k < |s| :: s[k] < n
  }

  /** The targets the main thread is about to collect. */
  function ToCollect(pc: Pc): seq<nat>
  {
    match pc
    case Woken(done) => done
    case Collecting(done) => done
    case Marking(_, after) => ToCollect(after)
    case _ => []
  }

  /** Marking happens in three places only. */
  ghost predicate GoodPc(pc: Pc)
  {
    pc.Marking? ==> pc.after.Collecting? || pc.after == Waiting || pc.after == Normalizing(true)
  }

  ghost predicate Sized(w: World)
  {
    |w.records| == |w.reusable| == |w.phase| == |w.starts|
  }

  /** Pending targets are distinct and not active. */
  ghost predicate PendingOk(w: World)
  {
    Subset(w.pending, |w.records|) && Distinct(w.pending)
        && forall k | 0 <= k < |w.pending| :: w.pending[k] !in w.active
  }

  ghost predicate ActiveOk(l: Limits, w: World)
  {
    && |w.active| <= l.maxWorkers
    && forall i: nat :: i in w.active <==> i < |w.phase| && w.phase[i] != NoWorker
  }

  ghost predicate PcOk(w: World)
  {
    GoodPc(w.pc) && Distinct(ToCollect(w.pc)) && AllFinished(w, ToCollect(w.pc))
  }

  /** The phase a worker updates from. */
  function Before(p: Phase): Phase
  {
    match p
    case InFlight => Submitted
    case Finished => InFlight
    case _ => Escaping
  }

  /** An update under way is of an active worker, keeps its attempt or counts one start, and
      excludes the main thread's marking. */
  ghost predicate WritingOk(w: World)
    requires Sized(w)
  {
    w.writing.Chosen? ==>
      var i, r, next := w.writing.target, w.writing.record, w.writing.next;
      && i in w.active && i < |w.records| && (next.InFlight? || next.Finished? || next.Leaving?)
      && w.phase[i] == Before(next)
      && (r.attempt == w.records[i].attempt || (next.InFlight? && r.attempt == w.records[i].attempt + 1))
      && !(w.pc.Marking? && w.pc.next > 0)
  }

  ghost predicate Shape(l: Limits, w: World)
  {
    && l.maxWorkers > 0 && Sized(w) && PendingOk(w) && ActiveOk(l, w) && PcOk(w) && WritingOk(w)
    && (w.pc.Admitted? ==> |w.active| < l.maxWorkers && w.pending != [])
  }

  lemma SubmitShape(l: Limits, w: World)
    requires Shape(l, w) && w.pc.Admitted?
    ensures Shape(l, SubmitOne(w).(pc := Submitting))
  {
    var i := w.pending[0];
    assert forall k | 0 <= k < |w.pending[1..]| :: w.pending[1..][k] == w.pending[k + 1];
  }

  lemma CollectShape(l: Limits, w: World)
    requires Shape(l, w) && w.pc.Collecting? && w.pc.done != []
    ensures Shape(l, CollectOne(l, w, w.pc.done[0]).(pc := Collecting(w.pc.done[1..])))
  {
    var i, rest := w.pc.done[0], w.pc.done[1..];
    assert Working(w, i, Finished) by { assert ToCollect(w.pc)[0] == i; }
    assert forall k | 0 <= k < |rest| :: rest[k] == w.pc.done[k + 1] && Working(w, w.pc.done[k + 1], Finished);
  }

  /** Steps of a worker change the phase of one target that is not about to be collected. */
  lemma PhaseShape(l: Limits, w: World, w': World, i: nat, p: Phase)
    requires Shape(l, w) && i in w.active && w.phase[i] != Finished && p != NoWorker
    requires w'.phase == w.phase[i := p] && w'.pending == w.pending && w'.active == w.active && w'.pc == w.pc
    requires |w'.records| == |w.records| && |w'.reusable| == |w.reusable| && w'.starts == w.starts
    requires w'.writing.NoWrite? || (w'.writing == w.writing && w.writing.target != i && w'.records == w.records)
    ensures Shape(l, w')
  {
    assert forall k | 0 <= k < |ToCollect(w.pc)| :: Working(w, ToCollect(w.pc)[k], Finished);
  }

  lemma ChooseShape(l: Limits, w: World, i: nat, r: Record, next: Phase)
    requires Shape(l, w) && Unlocked(w) && (next.InFlight? || next.Finished? || next.Leaving?)
        && Working(w, i, Before(next))
    requires r.attempt == w.records[i].attempt || (next.InFlight? && r.attempt == w.records[i].attempt + 1)
    ensures Shape(l, Choose(w, i, r, next))
  {
    assert forall k | 0 <= k < |ToCollect(w.pc)| :: Working(w, ToCollect(w.pc)[k], Finished);
  }

  /** Moves of the main thread that touch nothing but its place. */
  lemma PcShape(l: Limits, w: World, pc: Pc)
    requires Shape(l, w) && GoodPc(pc) && (ToCollect(pc) == ToCollect(w.pc) || ToCollect(pc) == [])
    requires pc.Admitted? ==> |w.active| < l.maxWorkers && w.pending != []
    requires pc.Marking? && pc.next > 0 ==> w.writing.NoWrite?
    ensures Shape(l, w.(pc := pc))
  {
    assert forall k | 0 <= k < |ToCollect(w.pc)| :: Working(w, ToCollect(w.pc)[k], Finished);
  }

  lemma MarkShape(l: Limits, w: World, i: nat)
    requires Shape(l, w) && w.writing.NoWrite? && i < |w.records|
    ensures Shape(l, MarkOne(w, i))
  {
    assert forall k | 0 <= k < |ToCollect(w.pc)| :: Working(w, ToCollect(w.pc)[k], Finished);
  }

  /** The steps of the main thread after the pool. */
  lemma TailShape(l: Limits, w: World)
    requires Shape(l, w) && (w.pc.LastCheck? || w.pc.Normalizing? || w.pc.Deciding? || w.pc.Publishing? || w.pc.Over?)
    ensures Shape(l, MainStep(l, w))
  {
  }

  lemma MainShape(l: Limits, w: World)
    requires Shape(l, w) && Enabled(w, Main)
    ensures Shape(l, MainStep(l, w))
  {
    match w.pc
    case Submitting => PcShape(l, w, MainStep(l, w).pc);
    case Admitted => SubmitShape(l, w);
    case Woken(done) => PcShape(l, w, MainStep(l, w).pc);
    case Collecting(done) =>
      if done != [] { CollectShape(l, w); } else { PcShape(l, w, Submitting); }
    case Marking(i, after) =>
      if i < |w.records| {
        MarkShape(l, w, i);
        PcShape(l, MarkOne(w, i), Marking(i + 1, after));
      } else {
        PcShape(l, w, after);
      }
    case _ => TailShape(l, w);
  }

  lemma WorkerShape(l: Limits, w: World, a: Action)
    requires Shape(l, w) && Enabled(w, a) && (a.Write? || a.Escape? || a.EscapeSignal?)
    ensures Shape(l, Next(l, w, a))
  {
    var w' := Next(l, w, a);
    match a
    case Write => PhaseShape(l, w, w', w.writing.target, w.writing.next);
    case Escape(i) => PhaseShape(l, w, w', i, Escaping);
    case EscapeSignal(i) => PhaseShape(l, w, w', i, Finished);
  }

  /** The interrupt, the interrupted set, the handler and the directories play no part. */
  lemma FrameShape(l: Limits, w: World, w': World)
    requires Shape(l, w) && |w'.reusable| == |w.reusable|
    requires w' == w.(interrupt := w'.interrupt, interruptedIds := w'.interruptedIds, handler := w'.handler,
        reusable := w'.reusable)
    ensures Shape(l, w')
  {
    assert forall k | 0 <= k < |ToCollect(w.pc)| :: Working(w, ToCollect(w.pc)[k], Finished);
  }

  lemma WakeShape(l: Limits, w: World, done: seq<nat>)
    requires Shape(l, w) && Enabled(w, Wake(done))
    ensures Shape(l, w.(pc := Woken(done)))
  {
    assert forall k | 0 <= k < |done| :: Working(w, done[k], Finished);
  }

  lemma ShapeKept(l: Limits, w: World, a: Action)
    requires Shape(l, w) && Enabled(w, a)
    ensures Shape(l, Next(l, w, a))
  {
    match a
    case Main => MainShape(l, w);
    case Start(i) => ChooseShape(l, w, i, Started(w.records[i]), InFlight);
    case End(i, outcome) => ChooseShape(l, w, i, Ended(w.records[i], outcome), Finished);
    case EscapeUpdate(i) => ChooseShape(l, w, i, Stopped(w.records[i]), Leaving);
    case Write => WorkerShape(l, w, a);
    case Escape(_) => WorkerShape(l, w, a);
    case EscapeSignal(_) => WorkerShape(l, w, a);
    case Wake(done) => WakeShape(l, w, done);
    case KeyboardInterrupt =>
      PcShape(l, w, Marking(0, Waiting));
      FrameShape(l, w.(pc := Marking(0, Waiting)), Next(l, w, a));
    case _ => FrameShape(l, w, Next(l, w, a));
  }
}
