/** Running an action with callbacks and SIGINT deferred, when every call can fail. */
module DeferredInterrupts {

  const SIGINT := 2

  /** The interpreter state a deferral replaces; 0 stands for no callback. */
  datatype Hooks = Hooks(profile: int, trace: int, blocked: set<int>)

  /** No callback runs and SIGINT is blocked, where signal masks exist. */
  predicate Sheltered(h: Hooks, masks: bool)
  {
    h.profile == 0 && h.trace == 0 && (masks ==> SIGINT in h.blocked)
  }

  /** What the first `owed` restorations have to put back (profile, then trace, then mask). */
  predicate AgreeBeyond(h: Hooks, saved: Hooks, owed: nat)
  {
    && (owed < 1 ==> h.profile == saved.profile)
    && (owed < 2 ==> h.trace == saved.trace)
    && (owed < 3 ==> h.blocked == saved.blocked)
  }

  class Interpreter {
    const masks: bool
    var hooks: Hooks
    /** Calls that raised, and set-ups that failed. */
    ghost var raised: nat
    ghost var refused: nat

    constructor (masks: bool, hooks: Hooks)
      ensures this.masks == masks && this.hooks == hooks
    {
      this.masks, this.hooks, raised, refused := masks, hooks, 0, 0;
    }

    /** A call that changes nothing but may raise. */
    method Query() returns (ok: bool)
      modifies `raised
      ensures raised == old(raised) + if ok then 0 else 1
    {
      ok := *;
      if !ok { raised := raised + 1; }
    }

    /** A call that sets part of the state; when it raises it may have acted or not. */
    method Set(h: Hooks) returns (ok: bool)
      modifies `hooks, `raised
      ensures hooks == h || (!ok && hooks == old(hooks))
      ensures raised == old(raised) + if ok then 0 else 1
    {
      ok := *;
      var acted: bool := *;
      if ok || acted { hooks := h; }
      if !ok { raised := raised + 1; }
    }

    /** Saves the state and sets the deferral up, unless a call raises. `owed` counts the
        `finally` blocks entered. */
    method Enter() returns (ok: bool, owed: nat, saved: Hooks)
      modifies `hooks, `raised, `refused
      ensures saved == old(hooks) && owed <= 3 && AgreeBeyond(hooks, saved, owed)
      ensures ok ==> Sheltered(hooks, masks) && owed == if masks then 3 else 2
      ensures (owed == 3 ==> masks) && (!masks ==> hooks.blocked == old(hooks.blocked))
      ensures raised == old(raised) + (if ok then 0 else 1) && refused == old(refused) + if ok then 0 else 1
    {
      ok, owed, saved := SetUp();
      if !ok { refused := refused + 1; }
    }

    method SetUp() returns (ok: bool, owed: nat, saved: Hooks)
      modifies `hooks, `raised
      ensures saved == old(hooks) && owed <= 3 && AgreeBeyond(hooks, saved, owed)
      ensures ok ==> Sheltered(hooks, masks) && owed == if masks then 3 else 2
      ensures (owed == 3 ==> masks) && (!masks ==> hooks.blocked == old(hooks.blocked))
      ensures raised == old(raised) + if ok then 0 else 1
    {
      owed, saved := 0, hooks;
      ok := Query();
      if ok { ok := Query(); }
      if ok && masks { ok := Query(); }
      if !ok { return; }
      owed := 1;
      ok := Set(hooks.(profile := 0));
      if !ok { return; }
      owed := 2;
      ok := Set(hooks.(trace := 0));
      if ok && masks {
        owed := 3;
        ok := Set(hooks.(blocked := hooks.blocked + {SIGINT}));
      }
    }

    /** The nested `finally` blocks: every owed restoration is attempted, innermost first,
        and one that raises does not keep the next from its effect. */
    method Leave(owed: nat, saved: Hooks) returns (ok: bool)
      requires owed <= 3 && AgreeBeyond(hooks, saved, owed) && (owed == 3 ==> masks)
      modifies `hooks, `raised
      ensures !masks ==> hooks.blocked == old(hooks.blocked)
      ensures ok ==> hooks == saved
      ensures old(raised) <= raised && (ok <==> raised == old(raised))
    {
      var mask, trace, profile := LeaveEach(owed, saved);
      ok := mask && trace && profile;
    }

    method LeaveEach(owed: nat, saved: Hooks) returns (mask: bool, trace: bool, profile: bool)
      requires owed <= 3 && AgreeBeyond(hooks, saved, owed) && (owed == 3 ==> masks)
      modifies `hooks, `raised
      ensures !masks ==> hooks.blocked == old(hooks.blocked)
      ensures mask ==> hooks.blocked == saved.blocked
      ensures trace ==> hooks.trace == saved.trace
      ensures profile ==> hooks.profile == saved.profile
      ensures hooks.blocked == saved.blocked || hooks.blocked == old(hooks.blocked)
      ensures raised == old(raised)
                        + (if mask then 0 else 1) + (if trace then 0 else 1) + (if profile then 0 else 1)
    {
      mask, trace, profile := true, true, true;
      if owed >= 3 { mask := Set(hooks.(blocked := saved.blocked)); }
      if owed >= 2 { trace := Set(hooks.(trace := saved.trace)); }
      if owed >= 1 { profile := Set(hooks.(profile := saved.profile)); }
    }
  }
}
