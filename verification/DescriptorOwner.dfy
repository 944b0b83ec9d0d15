/** The owner of a chain of descriptors: opened into reserved slots, closed in reverse order. */
module DescriptorOwner {
  import opened Bytes
  import opened DeferredInterrupts
  import opened Descriptors

  /** A slot of the owner: its descriptor number, -1 while only reserved, and its resource. */
  datatype Slot = Slot(fd: int, resource: nat)

  ghost predicate Open(s: Slot)
  {
    s.fd >= 0
  }

  /** `n` slots are left; `trail` lists the slots the closing calls so far were for, `skipped`
      those given up without one. */
  datatype Ledger = Ledger(
    table: map<nat, nat>, mine: set<nat>, touches: seq<Option<nat>>, closed: set<nat>,
    slots: seq<Slot>, n: nat, trail: seq<nat>, skipped: seq<nat>, failed: bool)

  /** The slots not yet released hold their resources, under numbers nobody else has. */
  ghost predicate Held(l: Ledger)
  {
    && l.n <= |l.slots|
    && (forall i | 0 <= i < l.n && Open(l.slots[i]) ::
          l.slots[i].fd in l.table && l.table[l.slots[i].fd] == l.slots[i].resource)
    && (forall i | 0 <= i < |l.slots| && Open(l.slots[i]) :: l.slots[i].resource in l.mine)
    && (forall i, j | 0 <= i < j < |l.slots| && Open(l.slots[i]) && Open(l.slots[j]) ::
        l.slots[i].resource != l.slots[j].resource)
  }

  /** The closing calls went through the slots in reverse order, each at most once, and each
      found the resource of its slot. */
  ghost predicate InReverse(l: Ledger)
  {
    && |l.touches| == |l.trail|
    && (forall k | 0 <= k < |l.trail| :: l.n <= l.trail[k] < |l.slots| && Open(l.slots[l.trail[k]]))
    && (forall j, k | 0 <= j < k < |l.trail| :: l.trail[j] > l.trail[k])
    && (forall k | 0 <= k < |l.trail| :: l.touches[k] == Some(l.slots[l.trail[k]].resource))
  }

  /** Only owned resources were closed, and unless a failure was recorded all released ones were. */
  ghost predicate Truthful(l: Ledger)
  {
    && (forall g | g in l.closed :: exists i :: l.n <= i < |l.slots| && Open(l.slots[i]) && l.slots[i].resource == g)
    && (!l.failed ==> forall i | l.n <= i < |l.slots| && Open(l.slots[i]) :: l.slots[i].resource in l.closed)
  }

  /** For every released slot its closing call was made, unless it was given up. */
  ghost predicate Attempted(l: Ledger)
  {
    forall i | l.n <= i < |l.slots| && Open(l.slots[i]) :: i in l.trail || i in l.skipped
  }

  ghost predicate Sound(l: Ledger)
  {
    Held(l) && InReverse(l) && Truthful(l) && Attempted(l)
  }

  lemma DropReserved(l: Ledger)
    requires Sound(l) && l.n > 0 && !Open(l.slots[l.n - 1])
    ensures Sound(l.(n := l.n - 1))
  {
    var l' := l.(n := l.n - 1);
    forall g | g in l'.closed ensures exists i ::
        l'.n <= i < |l'.slots| && Open(l'.slots[i]) && l'.slots[i].resource == g {
      var i :| l.n <= i < |l.slots| && Open(l.slots[i]) && l.slots[i].resource == g;
      assert l'.n <= i < |l'.slots|;
    }
  }

  /** The trail after a release that made at most one closing call. */
  ghost function Extended(l: Ledger, touches: seq<Option<nat>>): seq<nat>
    requires l.n > 0
  {
    if touches == l.touches then l.trail else l.trail + [l.n - 1]
  }

  ghost function GivenUp(l: Ledger, touches: seq<Option<nat>>): seq<nat>
    requires l.n > 0
  {
    if touches == l.touches then l.skipped + [l.n - 1] else l.skipped
  }

  lemma DropAttempted(l: Ledger, l': Ledger)
    requires Attempted(l) && l.n > 0 && l'.slots == l.slots && l'.n == l.n - 1
    requires l'.trail == Extended(l, l'.touches) && l'.skipped == GivenUp(l, l'.touches)
    ensures Attempted(l')
  {
    forall i | l'.n <= i < |l'.slots| && Open(l'.slots[i]) ensures i in l'.trail || i in l'.skipped {
      if i >= l.n { assert i in l.trail || i in l.skipped; }
      if l'.touches == l.touches {
        assert l'.skipped[|l.skipped|] == l.n - 1;
      } else {
        assert l'.trail[|l.trail|] == l.n - 1;
      }
    }
  }

  lemma DropReleased(l: Ledger, l': Ledger, g: nat)
    requires Sound(l) && l.n > 0 && Open(l.slots[l.n - 1]) && g == l.slots[l.n - 1].resource
    requires OneTouch(l.touches, l'.touches, g) && OnlyClosed(l.closed, l'.closed, g)
    requires OthersKept(l.table, l'.table, l.mine, g)
    requires l'.mine == l.mine && l'.slots == l.slots && l'.n == l.n - 1
    requires l'.trail == Extended(l, l'.touches) && l'.skipped == GivenUp(l, l'.touches)
    requires !l'.failed ==> !l.failed && g in l'.closed
    ensures Sound(l')
  {
    assert Held(l');
    assert InReverse(l');
    assert Attempted(l') by { DropAttempted(l, l'); }
    forall h | h in l'.closed ensures exists i ::
        l'.n <= i < |l'.slots| && Open(l'.slots[i]) && l'.slots[i].resource == h {
      if h == g {
        assert l'.slots[l'.n].resource == h;
      } else {
        var i :| l.n <= i < |l.slots| && Open(l.slots[i]) && l.slots[i].resource == h;
        assert l'.n <= i < |l'.slots|;
      }
    }
  }

  /** What a sound history rules out: a call that found a foreign resource or nothing, two
      calls for one resource, a call out of order, and a foreign resource closed. */
  lemma NoForeignClose(l: Ledger)
    requires Sound(l)
    ensures forall k | 0 <= k < |l.touches| :: l.touches[k].Some? && l.touches[k].value in l.mine
    ensures forall j, k | 0 <= j < k < |l.touches| :: l.touches[j] != l.touches[k]
    ensures l.closed <= l.mine
  {
    forall j, k | 0 <= j < k < |l.touches| ensures l.touches[j] != l.touches[k] {
      assert l.trail[k] < l.trail[j];
    }
    forall g | g in l.closed ensures g in l.mine {
      var i :| l.n <= i < |l.slots| && Open(l.slots[i]) && l.slots[i].resource == g;
    }
  }

  /** A slot added before any release: reserved, or holding a resource just opened. */
  lemma SlotAdded(l: Ledger, l': Ledger, s: Slot)
    requires Sound(l) && l.n == |l.slots| && l.trail == []
    requires l' == l.(table := l'.table, mine := l'.mine, slots := l.slots + [s], n := l.n + 1)
    requires forall fd | fd in l.table && l.table[fd] in l.mine :: fd in l'.table && l'.table[fd] == l.table[fd]
    requires Open(s) ==>
        && s.resource !in l.mine && l'.mine == l.mine + {s.resource} && s.fd in l'.table
        && l'.table[s.fd] == s.resource
    requires !Open(s) ==> l'.mine == l.mine
    ensures Sound(l')
  {
    if l.closed != {} { assert false; }
    assert Held(l');
  }

  lemma TakenBack(l: Ledger, l': Ledger)
    requires Sound(l) && l.n == |l.slots| > 0 && !Open(l.slots[l.n - 1]) && l.trail == []
    requires l' == l.(slots := l.slots[..l.n - 1], n := l.n - 1)
    ensures Sound(l')
  {
    if l.closed != {} { assert false; }
  }

  /** Slots given up, two set-ups that failed for each. */
  ghost predicate Forgone(before: seq<nat>, after: seq<nat>, refused: int)
  {
    before <= after && 2 * (|after| - |before|) <= refused
  }

  class Owner {
    const kernel: Kernel
    const interpreter: Interpreter
    var descriptors: seq<int>
    /** The transaction table: entries go with their descriptor, so at most the last
        descriptor has one. */
    var transaction: Transaction?
    var failed: bool
    ghost var slots: seq<Slot>
    ghost var trail: seq<nat>
    ghost var skipped: seq<nat>

    ghost function Now(): Ledger
      reads this, kernel
    {
      Ledger(kernel.table, kernel.mine, kernel.touches, kernel.closed, slots, |descriptors|, trail, skipped, failed)
    }

    ghost predicate Numbered()
      reads this
    {
      |descriptors| <= |slots| && forall i | 0 <= i < |descriptors| :: descriptors[i] == slots[i].fd
    }

    ghost predicate Valid()
      reads this, kernel, transaction
    {
      && kernel.Valid() && Sound(Now()) && Numbered()
      && (transaction != null ==> descriptors != [] && descriptors[|descriptors| - 1] >= 0 && transaction.Unused())
    }

    constructor (kernel: Kernel, interpreter: Interpreter)
      requires kernel.Valid() && kernel.mine == {} && kernel.touches == [] && kernel.closed == {}
      ensures Valid() && fresh(this) && this.kernel == kernel && this.interpreter == interpreter
      ensures descriptors == [] && slots == [] && transaction == null && !failed
    {
      this.kernel, this.interpreter := kernel, interpreter;
      descriptors, transaction, failed, slots, trail, skipped := [], null, false, [], [], [];
    }

    /** The call that opens a descriptor, while other threads use the table. */
    method Acquire() returns (ok: bool, fd: int)
      requires kernel.Valid()
      modifies kernel`table, kernel`next, kernel`mine, kernel`failures
      ensures kernel.failures == old(kernel.failures) + if ok then 0 else 1
      ensures kernel.Valid() && (!ok ==> kernel.mine == old(kernel.mine) && fd == -1)
      ensures forall d | d in old(kernel.table) && old(kernel.table)[d] in old(kernel.mine) ::
                d in kernel.table && kernel.table[d] == old(kernel.table)[d]
      ensures ok ==> fd >= 0 && fd in kernel.table && kernel.table[fd] !in old(kernel.mine)
      ensures ok ==> kernel.mine == old(kernel.mine) + {kernel.table[fd]}
    {
      kernel.Environment();
      var d;
      ok, d := kernel.Open();
      fd := if ok then d else -1;
    }

    /** Nothing was released yet: every slot is in the list. */
    ghost predicate Opening()
      reads this
    {
      |descriptors| == |slots| && trail == [] && transaction == null
    }

    /** Appends the placeholder. */
    method Reserve()
      requires Valid() && Opening()
      modifies `descriptors, `slots
      ensures Valid() && Opening() && slots == old(slots) + [Slot(-1, 0)]
    {
      ghost var l := Now();
      descriptors, slots := descriptors + [-1], slots + [Slot(-1, 0)];
      SlotAdded(l, Now(), Slot(-1, 0));
    }

    /** Opens a descriptor and puts it in the reserved slot, or takes the slot back. */
    method FillSlot() returns (filled: bool)
      requires Valid() && Opening() && slots != [] && slots[|slots| - 1] == Slot(-1, 0)
      modifies `descriptors, `slots, kernel`table, kernel`next, kernel`mine, kernel`failures
      ensures kernel.failures == old(kernel.failures) + if filled then 0 else 1
      ensures Valid() && Opening() && |slots| == |old(slots)| - if filled then 0 else 1
      ensures slots[..|old(slots)| - 1] == old(slots)[..|old(slots)| - 1]
      ensures !filled ==> kernel.mine == old(kernel.mine)
      ensures filled ==> Open(slots[|slots| - 1]) && slots[|slots| - 1].resource !in old(kernel.mine)
                         && kernel.mine == old(kernel.mine) + {slots[|slots| - 1].resource}
    {
      var slot := |descriptors| - 1;
      ghost var l := Now().(slots := slots[..slot], n := slot);
      TakenBack(Now(), l);
      var fd;
      filled, fd := Acquire();
      if filled {
        ghost var s := Slot(fd, kernel.table[fd]);
        descriptors, slots := descriptors[slot := fd], slots[..slot] + [s];
        SlotAdded(l, Now(), s);
      } else {
        descriptors, slots := descriptors[..slot], slots[..slot];
        assert Now() == l.(table := kernel.table);
      }
    }

    /** Opens a descriptor into a slot reserved before the call. Whatever raises, and wherever,
        a descriptor that was opened is in the owner's list; and it raises exactly when some
        call failed. */
    method OpenOwned() returns (raised: bool)
      requires Valid() && Opening()
      modifies `descriptors, `slots, kernel`table, kernel`next, kernel`mine, kernel`failures, interpreter
      ensures Valid() && Opening()
      ensures old(kernel.failures) <= kernel.failures && old(interpreter.raised) <= interpreter.raised
      ensures raised <==> !(kernel.failures == old(kernel.failures) && interpreter.raised == old(interpreter.raised))
      ensures kernel.mine == old(kernel.mine) ||
              (|slots| == |old(slots)| + 1 && Open(slots[|slots| - 1])
               && kernel.mine == old(kernel.mine) + {slots[|slots| - 1].resource})
      ensures !raised ==> slots != [] && Open(slots[|slots| - 1]) && slots[|slots| - 1].resource !in old(kernel.mine)
    {
      Reserve();
      var ok, owed, saved := interpreter.Enter();
      var filled := false;
      if ok { filled := FillSlot(); }
      var left := interpreter.Leave(owed, saved);
      raised := !filled || !left;
    }

    /** Forgets the last slot and its transaction. */
    method Pop()
      requires descriptors != [] && Numbered()
      modifies `descriptors, `transaction
      ensures descriptors == old(descriptors)[..|old(descriptors)| - 1] && transaction == null && Numbered()
    {
      transaction := null;
      descriptors := descriptors[..|descriptors| - 1];
    }

    /** Calls of this owner and its interpreter that failed. */
    ghost function Failures(): nat
      reads kernel, interpreter
    {
      kernel.failures + interpreter.raised
    }

    /** Retires the last slot after its release; `l` is the ledger before. */
    method Retire(ghost l: Ledger, ghost g: nat, bad: bool)
      requires kernel.Valid() && Numbered() && descriptors != [] && descriptors[|descriptors| - 1] >= 0
      requires Sound(l) && g == slots[|descriptors| - 1].resource
      requires l == Now().(table := l.table, touches := l.touches, closed := l.closed)
      requires OneTouch(l.touches, kernel.touches, g) && OnlyClosed(l.closed, kernel.closed, g)
      requires OthersKept(l.table, kernel.table, kernel.mine, g) && (!bad ==> g in kernel.closed)
      modifies `descriptors, `transaction, `failed, `trail, `skipped
      ensures Valid() && transaction == null && descriptors == old(descriptors)[..|old(descriptors)| - 1]
      ensures failed == (old(failed) || bad) && skipped == GivenUp(l, kernel.touches)
    {
      Pop();
      failed := failed || bad;
      trail, skipped := Extended(l, kernel.touches), GivenUp(l, kernel.touches);
      DropReleased(l, Now(), g);
    }

    /** Releases the descriptor in the last slot and retires the slot. `escapes`: the call
        raises on its way out, after the release. */
    method Release(t: Transaction, fd: nat, escapes: bool)
      requires Valid() && descriptors != [] && descriptors[|descriptors| - 1] == fd && t.Unused()
      modifies `descriptors, `transaction, `failed, `trail, `skipped, kernel, interpreter, t
      ensures Valid() && kernel.mine == old(kernel.mine) && transaction == null
      ensures descriptors == old(descriptors)[..|old(descriptors)| - 1]
      ensures old(Failures()) <= Failures() && (failed <==> old(failed) || escapes || Failures() > old(Failures()))
      ensures Forgone(old(skipped), skipped, interpreter.refused - old(interpreter.refused))
      ensures !interpreter.masks ==> interpreter.hooks.blocked == old(interpreter.hooks.blocked)
    {
      ghost var l, g := Now(), slots[|descriptors| - 1].resource;
      var succeeded := ReleaseOnce(fd, kernel, interpreter, t, false, g);
      Retire(l, g, escapes || !succeeded);
    }

    /** A descriptor whose transaction could not be allocated: one direct `closerange`. */
    method ReleaseUntracked(fd: nat)
      requires Valid() && descriptors != [] && descriptors[|descriptors| - 1] == fd
      modifies `descriptors, `transaction, `failed, `trail, `skipped, kernel
      ensures Valid() && kernel.mine == old(kernel.mine) && transaction == null && failed
      ensures descriptors == old(descriptors)[..|old(descriptors)| - 1] && Failures() >= old(Failures())
      ensures skipped == old(skipped)
    {
      ghost var l, g := Now(), slots[|descriptors| - 1].resource;
      var ok, acted := kernel.CloseRange(fd);
      Retire(l, g, true);
    }

    method DropPlaceholder()
      requires Valid() && descriptors != [] && descriptors[|descriptors| - 1] < 0
      modifies `descriptors, `transaction
      ensures Valid() && transaction == null && descriptors == old(descriptors)[..|old(descriptors)| - 1]
    {
      ghost var l := Now();
      DropReserved(l);
      Pop();
      assert Now() == l.(n := l.n - 1);
    }

    /** Gives the last descriptor a transaction, unless memory runs out. */
    method Track() returns (tracked: bool)
      requires Valid() && descriptors != [] && descriptors[|descriptors| - 1] >= 0
      modifies `transaction, interpreter`raised
      ensures Valid() && tracked == (transaction != null)
      ensures transaction == old(transaction) || (old(transaction) == null && fresh(transaction))
      ensures interpreter.raised == old(interpreter.raised) + if tracked then 0 else 1
    {
      tracked := true;
      if transaction == null {
        tracked := interpreter.Query();
        if tracked { transaction := new Transaction(); }
      }
    }

    /** The release call, which may raise on its way in, keeping the slot, or on its way out. */
    method ReleaseTracked(t: Transaction, fd: nat) returns (raised: bool)
      requires Valid() && descriptors != [] && descriptors[|descriptors| - 1] == fd && transaction == t
      modifies `descriptors, `transaction, `failed, `trail, `skipped, kernel, interpreter, t
      ensures Valid() && kernel.mine == old(kernel.mine)
      ensures descriptors == old(descriptors)[..|old(descriptors)| - 1] || (raised && descriptors == old(descriptors))
      ensures Reported(old(Failures()), old(failed), raised)
      ensures Forgone(old(skipped), skipped, interpreter.refused - old(interpreter.refused))
      ensures !interpreter.masks ==> interpreter.hooks.blocked == old(interpreter.hooks.blocked)
      ensures transaction == null || transaction == t
    {
      var entered := interpreter.Query();
      raised := !entered;
      if raised {
        failed := true;
      } else {
        var returned := interpreter.Query();
        raised := !returned;
        Release(t, fd, raised);
      }
    }

    method Fail()
      requires Valid()
      modifies `failed
      ensures Valid() && failed
    {
      failed := true;
    }

    /** The answer of the owner: `failed` is set exactly when something failed, and what raises
        is among that. */
    ghost predicate Reported(before: nat, wasFailed: bool, raised: bool)
      reads this, kernel, interpreter
    {
      before <= Failures() && (raised ==> Failures() > before) && (failed <==> wasFailed || Failures() > before)
    }

    /** One iteration of `release_all`. */
    method ReleaseLast() returns (raised: bool)
      requires Valid() && descriptors != []
      modifies `descriptors, `transaction, `failed, `trail, `skipped, kernel, interpreter, transaction
      ensures Valid() && kernel.mine == old(kernel.mine)
      ensures descriptors == old(descriptors)[..|old(descriptors)| - 1] || (raised && descriptors == old(descriptors))
      ensures Reported(old(Failures()), old(failed), raised)
      ensures Forgone(old(skipped), skipped, interpreter.refused - old(interpreter.refused))
      ensures !interpreter.masks ==> interpreter.hooks.blocked == old(interpreter.hooks.blocked)
      ensures transaction == null || transaction == old(transaction) || fresh(transaction)
    {
      raised := false;
      var fd := descriptors[|descriptors| - 1];
      if fd < 0 {
        DropPlaceholder();
      } else {
        var tracked := Track();
        if tracked {
          raised := ReleaseTracked(transaction, fd);
        } else {
          ReleaseUntracked(fd);
        }
      }
    }

    /** `release_all`: from the last slot to the first, until none is left or a call raises. */
    method ReleaseAll() returns (raised: bool)
      requires Valid()
      modifies `descriptors, `transaction, `failed, `trail, `skipped, kernel, interpreter, transaction
      ensures Valid() && kernel.mine == old(kernel.mine)
      ensures descriptors <= old(descriptors) && (!raised ==> descriptors == [])
      ensures Reported(old(Failures()), old(failed), raised)
      ensures Forgone(old(skipped), skipped, interpreter.refused - old(interpreter.refused))
      ensures !interpreter.masks ==> interpreter.hooks.blocked == old(interpreter.hooks.blocked)
      ensures transaction == null || transaction == old(transaction) || fresh(transaction)
    {
      raised := false;
      while descriptors != []
        invariant Valid() && kernel.mine == old(kernel.mine) && descriptors <= old(descriptors)
        invariant Reported(old(Failures()), old(failed), false)
        invariant Forgone(old(skipped), skipped, interpreter.refused - old(interpreter.refused))
        invariant !interpreter.masks ==> interpreter.hooks.blocked == old(interpreter.hooks.blocked)
        invariant transaction == null || transaction == old(transaction) || fresh(transaction)
        decreases |descriptors|
      {
        raised := ReleaseLast();
        if raised { return; }
      }
    }

    /** `release_all` with interrupts deferred. It raises exactly when it leaves something to
        do or the state could not be set up or restored. */
    method ReleaseDeferred() returns (raised: bool)
      requires Valid()
      modifies `descriptors, `transaction, `failed, `trail, `skipped, kernel, interpreter, transaction
      ensures Valid() && kernel.mine == old(kernel.mine)
      ensures descriptors <= old(descriptors) && old(Failures()) <= Failures()
      ensures raised ==> Failures() > old(Failures())
      ensures failed || raised <==> old(failed) || Failures() > old(Failures())
      ensures Forgone(old(skipped), skipped, interpreter.refused - old(interpreter.refused))
      ensures !raised ==> descriptors == [] && interpreter.hooks == old(interpreter.hooks)
      ensures transaction == null || transaction == old(transaction) || fresh(transaction)
    {
      var ok, owed, saved := interpreter.Enter();
      raised := !ok;
      if ok { raised := ReleaseAll(); }
      var left := interpreter.Leave(owed, saved);
      raised := raised || !left;
    }

    /** Closes what is left, trying a second time after an escape. It answers true exactly when
        nothing failed, now or before, and then every descriptor this owner ever acquired was
        closed by it. Whatever fails, a slot that left the list had its one closing call unless
        two set-ups failed for it, and a slot is left only after two calls raised. */
    method Close() returns (closed: bool)
      requires Valid()
      modifies `descriptors, `transaction, `failed, `trail, `skipped, kernel, interpreter, transaction
      ensures Valid() && kernel.mine == old(kernel.mine) && (old(failed) ==> failed)
      ensures descriptors <= old(descriptors) && old(Failures()) <= Failures()
      ensures closed <==> !old(failed) && Failures() == old(Failures())
      ensures closed ==> descriptors == [] && forall i | 0 <= i < |slots| && Open(slots[i]) ::
          slots[i].resource in kernel.closed
      ensures forall i | |descriptors| <= i < |slots| && Open(slots[i]) :: i in trail || i in skipped
      ensures Forgone(old(skipped), skipped, interpreter.refused - old(interpreter.refused))
      ensures descriptors != [] ==> Failures() >= old(Failures()) + 2
    {
      var raised := ReleaseDeferred();
      if raised {
        Fail();
        raised := ReleaseDeferred();
        if raised { Fail(); }
      }
      closed := descriptors == [] && !failed;
    }
  }
}
