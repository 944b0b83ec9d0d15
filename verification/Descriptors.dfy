/** The process descriptor table, which the environment keeps using, and the release of one
    owned descriptor under failures at every step. */
module Descriptors {
  import opened Bytes
  import opened DeferredInterrupts

  /** How the raw close ends: done, refused before any action, or raised around the action. */
  datatype CloseStatus = Released | PreActionFailure | PostActionException

  /** What a closing call found under the descriptor number. */
  function Found(table: map<nat, nat>, fd: nat): Option<nat>
  {
    if fd in table then Some(table[fd]) else None
  }

  /** Descriptor numbers and the resources under them. Every open gives a new resource. */
  class Kernel {
    var table: map<nat, nat>
    var next: nat
    /** Resources this owner opened. */
    var mine: set<nat>
    /** What each closing call of this owner found, proved pre-action failures left out. */
    ghost var touches: seq<Option<nat>>
    /** Resources those calls closed. */
    ghost var closed: set<nat>
    /** Opening and closing calls of this owner that failed. */
    ghost var failures: nat

    ghost predicate Valid()
      reads this
    {
      && (forall fd | fd in table :: table[fd] < next)
      && (forall g | g in mine :: g < next)
      && (forall fd, fd' | fd in table && fd' in table && fd != fd' :: table[fd] != table[fd'])
    }

    constructor ()
      ensures Valid() && table == map[] && mine == {} && touches == [] && closed == {}
    {
      table, next, mine, touches, closed, failures := map[], 0, {}, [], {}, 0;
    }

    /** The rest of the process opens and closes descriptors of its own, reusing numbers. */
    method Environment()
      requires Valid()
      modifies `table, `next
      ensures Valid() && old(next) <= next
      ensures forall fd | fd in old(table) && old(table)[fd] in mine :: fd in table && table[fd] == old(table)[fd]
    {
      var n: nat := *;
      while n > 0
        invariant Valid() && old(next) <= next
        invariant forall fd | fd in old(table) && old(table)[fd] in mine :: fd in table && table[fd] == old(table)[fd]
      {
        var fd: nat := *;
        if fd !in table {
          table, next := table[fd := next], next + 1;
        } else if table[fd] !in mine {
          table := table - {fd};
        }
        n := n - 1;
      }
    }

    /** Opens a resource under any free number, or fails. */
    method Open() returns (ok: bool, fd: nat)
      requires Valid()
      modifies `table, `next, `mine, `failures
      ensures Valid() && failures == old(failures) + if ok then 0 else 1
      ensures ok ==>
          && fd !in old(table) && table == old(table)[fd := old(next)] && mine == old(mine) + {old(next)}
          && next == old(next) + 1
      ensures !ok ==> table == old(table) && mine == old(mine) && next == old(next)
    {
      ok := *;
      fd := *;
      if fd in table { ok := false; }
      if ok {
        table, mine, next := table[fd := next], mine + {next}, next + 1;
      } else {
        failures := failures + 1;
      }
    }

    ghost predicate Closing(was: map<nat, nat>, wasClosed: set<nat>, fd: nat, acted: bool)
      reads this
    {
      && table == (if acted then was - {fd} else was)
      && closed == wasClosed + (if acted && fd in was then {was[fd]} else {})
    }

    /** `close_range(fd, fd, 0)`. A negative result is reported before the table is walked. */
    method RawClose(fd: nat) returns (status: CloseStatus, ghost acted: bool)
      requires Valid()
      modifies `table, `touches, `closed, `failures
      ensures Valid() && Closing(old(table), old(closed), fd, acted)
      ensures failures == old(failures) + if status == Released then 0 else 1
      ensures status == Released ==> acted
      ensures status == PreActionFailure ==> !acted
      ensures touches == if status == PreActionFailure then old(touches) else old(touches) + [Found(old(table), fd)]
    {
      var done: bool;
      status, done := *, *;
      acted := status == Released || (status == PostActionException && done);
      if status != Released { failures := failures + 1; }
      if status != PreActionFailure { touches := touches + [Found(table, fd)]; }
      if status == Released || (status == PostActionException && done) {
        closed := closed + if fd in table then {table[fd]} else {};
        table := table - {fd};
      }
    }

    /** `os.closerange(fd, fd + 1)`: when it raises it may have acted or not. */
    method CloseRange(fd: nat) returns (ok: bool, ghost acted: bool)
      requires Valid()
      modifies `table, `touches, `closed, `failures
      ensures Valid() && Closing(old(table), old(closed), fd, acted) && (ok ==> acted)
      ensures failures == old(failures) + if ok then 0 else 1
      ensures touches == old(touches) + [Found(old(table), fd)]
    {
      var done: bool;
      ok, done := *, *;
      acted := ok || done;
      if !ok { failures := failures + 1; }
      touches := touches + [Found(table, fd)];
      if ok || done {
        closed := closed + if fd in table then {table[fd]} else {};
        table := table - {fd};
      }
    }
  }

  /** The preallocated outcome of one release. */
  class Transaction {
    var status: Option<CloseStatus>
    var primaryError: bool
    var transactionError: bool
    var callbackError: bool
    var fallbackError: bool
    var fallbackAttempted: bool

    constructor ()
      ensures Unused()
    {
      status := None;
      primaryError, transactionError, callbackError := false, false, false;
      fallbackError, fallbackAttempted := false, false;
    }

    predicate Unused()
      reads this
    {
      status.None? && !primaryError && !transactionError && !callbackError && !fallbackError && !fallbackAttempted
    }

    predicate ExplicitlyConsumed()
      reads this
    {
      status == Some(Released) || status == Some(PostActionException)
    }

    predicate Consumed()
      reads this
    {
      ExplicitlyConsumed() || fallbackAttempted
    }

    predicate Succeeded()
      reads this
    {
      status == Some(Released) && !primaryError && !transactionError && !callbackError && !fallbackError
    }

    /** A fallback is due: the raw close was not reached, or is known not to have acted. */
    predicate FallbackDue()
      reads this
    {
      status.None? || status == Some(PreActionFailure)
    }
  }

  /** The owned resource is still under its number. */
  ghost predicate Holds(kernel: Kernel, fd: nat, g: nat)
    reads kernel
  {
    fd in kernel.table && kernel.table[fd] == g && g in kernel.mine
  }

  /** Compared with `before`, at most one closing call was made, and it found resource `g`. */
  ghost predicate OneTouch(before: seq<Option<nat>>, after: seq<Option<nat>>, g: nat)
  {
    after == before || after == before + [Some(g)]
  }

  /** Of the set-ups of a release the first `refused` failed: the closing call is made unless
      both did. */
  ghost predicate Touched(before: seq<Option<nat>>, after: seq<Option<nat>>, g: nat, refused: int)
  {
    if refused == 2 then after == before else 0 <= refused < 2 && after == before + [Some(g)]
  }

  /** Nothing owned was closed but possibly `g`. */
  ghost predicate OnlyClosed(before: set<nat>, after: set<nat>, g: nat)
  {
    after == before || after == before + {g}
  }

  /** Owned resources other than `g` keep their numbers. */
  ghost predicate OthersKept(before: map<nat, nat>, after: map<nat, nat>, mine: set<nat>, g: nat)
  {
    forall fd | fd in before && before[fd] in mine && before[fd] != g :: fd in after && after[fd] == before[fd]
  }

  method RunCallback(kernel: Kernel, t: Transaction)
    requires kernel.Valid()
    modifies kernel`table, kernel`next, t`callbackError
    ensures kernel.Valid()
    ensures forall fd | fd in old(kernel.table) && old(kernel.table)[fd] in kernel.mine ::
              fd in kernel.table && kernel.table[fd] == old(kernel.table)[fd]
  {
    kernel.Environment();
    var raised: bool := *;
    t.callbackError := raised;
  }

  /** The raw close, its status recorded. */
  method RawOnce(fd: nat, kernel: Kernel, t: Transaction, ghost g: nat)
    requires kernel.Valid() && Holds(kernel, fd, g) && t.Unused()
    modifies kernel`table, kernel`next, kernel`touches, kernel`closed, kernel`failures, t`status, t`primaryError
    ensures kernel.Valid() && t.status.Some? && t.primaryError == (t.status != Some(Released))
    ensures kernel.failures == old(kernel.failures) + if t.status == Some(Released) then 0 else 1
    ensures t.status != Some(PreActionFailure) ==> kernel.touches == old(kernel.touches) + [Some(g)]
    ensures t.status == Some(PreActionFailure) ==>
              Holds(kernel, fd, g) && kernel.touches == old(kernel.touches) && kernel.closed == old(kernel.closed)
    ensures OneTouch(old(kernel.touches), kernel.touches, g) && OnlyClosed(old(kernel.closed), kernel.closed, g)
    ensures OthersKept(old(kernel.table), kernel.table, kernel.mine, g)
    ensures t.status == Some(Released) ==> g in kernel.closed
  {
    kernel.Environment();
    var status, acted := kernel.RawClose(fd);
    t.status := Some(status);
    t.primaryError := status != Released;
  }

  /** The raw close and its fallback, with callbacks and SIGINT deferred. */
  method ReleaseAction(fd: nat, kernel: Kernel, t: Transaction, callback: bool, ghost g: nat)
    requires kernel.Valid() && Holds(kernel, fd, g) && t.Unused()
    modifies kernel`table, kernel`next, kernel`touches, kernel`closed, kernel`failures, t
    ensures kernel.Valid() && t.status.Some? && t.Consumed() && !t.transactionError
    ensures kernel.touches == old(kernel.touches) + [Some(g)] && OnlyClosed(old(kernel.closed), kernel.closed, g)
    ensures OthersKept(old(kernel.table), kernel.table, kernel.mine, g)
    ensures t.status != Some(PostActionException) && !t.fallbackError ==> g in kernel.closed
    ensures old(kernel.failures) <= kernel.failures && (t.Succeeded() <==> kernel.failures == old(kernel.failures))
    ensures t.fallbackAttempted <==> t.status == Some(PreActionFailure)
  {
    RawOnce(fd, kernel, t, g);
    assert t.status.value.Released? || t.status.value.PreActionFailure? || t.status.value.PostActionException?;
    t.fallbackAttempted := t.FallbackDue();
    if t.fallbackAttempted {
      if callback { RunCallback(kernel, t); }
      var ok, acted := kernel.CloseRange(fd);
      t.fallbackError := !ok;
    }
  }

  /** Releases one owned descriptor: whatever fails, it returns with the descriptor consumed,
      after one closing call beyond a proved pre-action failure, or none when both set-ups
      failed. The descriptor is closed unless a call that may have acted raised, and the answer
      is true exactly when no call failed. */
  method ReleaseOnce(fd: nat, kernel: Kernel, interpreter: Interpreter, t: Transaction, callback: bool, ghost g: nat)
    returns (succeeded: bool)
    requires kernel.Valid() && Holds(kernel, fd, g) && t.Unused()
    modifies kernel`table, kernel`next, kernel`touches, kernel`closed, kernel`failures, t
    modifies interpreter`hooks, interpreter`raised, interpreter`refused
    ensures kernel.Valid() && t.Consumed() && succeeded == t.Succeeded()
    ensures Touched(old(kernel.touches), kernel.touches, g, interpreter.refused - old(interpreter.refused))
    ensures OneTouch(old(kernel.touches), kernel.touches, g) && OnlyClosed(old(kernel.closed), kernel.closed, g)
    ensures t.status != Some(PostActionException) && !t.fallbackError ==> g in kernel.closed
    ensures old(kernel.failures) <= kernel.failures && old(interpreter.raised) <= interpreter.raised
    ensures succeeded <==>
        kernel.failures == old(kernel.failures) && interpreter.raised == old(interpreter.raised)
    ensures !interpreter.masks ==> interpreter.hooks.blocked == old(interpreter.hooks.blocked)
    ensures OthersKept(old(kernel.table), kernel.table, kernel.mine, g)
    ensures succeeded ==> g in kernel.closed
  {
    var ok, owed, saved := interpreter.Enter();
    if ok { ReleaseAction(fd, kernel, t, callback, g); }
    var left := interpreter.Leave(owed, saved);
    t.transactionError := !ok || !left;
    if t.FallbackDue() && !t.fallbackAttempted {
      t.fallbackAttempted := true;
      FallbackOnce(fd, kernel, interpreter, t, callback, g);
    }
    succeeded := t.Succeeded();
  }

  /** One `closerange`, while the rest of the process goes on. */
  method RangeOnce(fd: nat, kernel: Kernel, ghost g: nat) returns (ok: bool)
    requires kernel.Valid() && Holds(kernel, fd, g)
    modifies kernel`table, kernel`next, kernel`touches, kernel`closed, kernel`failures
    ensures kernel.Valid() && kernel.failures == old(kernel.failures) + if ok then 0 else 1
    ensures kernel.touches == old(kernel.touches) + [Some(g)] && OnlyClosed(old(kernel.closed), kernel.closed, g)
    ensures OthersKept(old(kernel.table), kernel.table, kernel.mine, g) && (ok ==> g in kernel.closed)
  {
    kernel.Environment();
    ghost var acted;
    ok, acted := kernel.CloseRange(fd);
  }

  /** The fallback after a set-up failure; it may fail in the same way. */
  method FallbackOnce(fd: nat, kernel: Kernel, interpreter: Interpreter, t: Transaction, callback: bool, ghost g: nat)
    requires kernel.Valid() && Holds(kernel, fd, g)
    modifies kernel`table, kernel`next, kernel`touches, kernel`closed, kernel`failures
    modifies t`callbackError, t`fallbackError, interpreter`hooks, interpreter`raised, interpreter`refused
    ensures kernel.Valid()
    ensures Touched(old(kernel.touches), kernel.touches, g, interpreter.refused - old(interpreter.refused) + 1)
    ensures !t.fallbackError ==> g in kernel.closed
    ensures old(kernel.failures) <= kernel.failures && old(interpreter.raised) <= interpreter.raised
    ensures OneTouch(old(kernel.touches), kernel.touches, g) && OnlyClosed(old(kernel.closed), kernel.closed, g)
    ensures !interpreter.masks ==> interpreter.hooks.blocked == old(interpreter.hooks.blocked)
    ensures OthersKept(old(kernel.table), kernel.table, kernel.mine, g)
  {
    if callback { RunCallback(kernel, t); }
    var ok, owed, saved := interpreter.Enter();
    if ok { ok := RangeOnce(fd, kernel, g); }
    var left := interpreter.Leave(owed, saved);
    t.fallbackError := !ok || !left;
  }
}
