/**
 Who may run a q_vector: its NAPI context or one of any number of busy-polling sockets.  Each call holds the
 spinlock, so calls interleave whole.
 */
module QvLock {

  const NAPI: bv32 := 1
  const POLL: bv32 := 2
  const DISABLED: bv32 := 4
  const NAPI_YIELD: bv32 := 8
  const POLL_YIELD: bv32 := 16
  const OWNED: bv32 := 3
  const LOCKED: bv32 := 7

  /** What one call does to the state word, what it returns, and whether it trips a WARN_ON. */
  datatype Reply = Reply(word: bv32, rc: bool, warn: bool)

  function LockNapi(w: bv32): Reply
  {
    if w & LOCKED != 0 then Reply(w | NAPI_YIELD, false, w & NAPI != 0) else Reply(NAPI, true, false)
  }

  function UnlockNapi(w: bv32): Reply
  {
    Reply(w & DISABLED, w & POLL_YIELD != 0, w & (POLL | NAPI_YIELD) != 0)
  }

  function LockPoll(w: bv32): Reply
  {
    if w & LOCKED != 0 then Reply(w | POLL_YIELD, false, false) else Reply(w | POLL, true, false)
  }

  function UnlockPoll(w: bv32): Reply
  {
    Reply(w & DISABLED, w & POLL_YIELD != 0, w & NAPI != 0)
  }

  function Disable(w: bv32): Reply
  {
    Reply(w | DISABLED, w & OWNED == 0, false)
  }

  // ---------------------------------------------------------------- every run

  /** Who was told it owns the q_vector and has not unlocked it; whether a poller was refused since the last lock;
      whether disable was called since init, and whether it has returned true; whether a WARN_ON has fired. */
  datatype State = State(word: bv32, napi: bool, pollers: set<nat>, refused: bool, disabling: bool, off: bool, warned: bool)

  datatype Event = NapiLocks | NapiUnlocks | PollerLocks(id: nat) | PollerUnlocks(id: nat) | Disables | Inits

  /** There is one NAPI context, and only an owner unlocks; a q_vector is initialised again only once it is off. */
  predicate Possible(s: State, e: Event)
  {
    match e
    case NapiLocks => !s.napi
    case NapiUnlocks => s.napi
    case PollerLocks(id) => id !in s.pollers
    case PollerUnlocks(id) => id in s.pollers
    case Disables => true
    case Inits => s.off
  }

  function Returns(s: State, e: Event): Reply
  {
    match e
    case NapiLocks => LockNapi(s.word)
    case NapiUnlocks => UnlockNapi(s.word)
    case PollerLocks(_) => LockPoll(s.word)
    case PollerUnlocks(_) => UnlockPoll(s.word)
    case Disables => Disable(s.word)
    case Inits => Reply(0, true, false)
  }

  function Step(s: State, e: Event): State
  {
    if !Possible(s, e) then s
    else
      var r := Returns(s, e);
      var t := s.(word := r.word, warned := s.warned || r.warn);
      match e
      case NapiLocks => if r.rc then t.(napi := true, refused := false) else t
      case NapiUnlocks => t.(napi := false)
      case PollerLocks(id) => if r.rc then t.(pollers := s.pollers + {id}, refused := false) else t.(refused := true)
      case PollerUnlocks(id) => t.(pollers := s.pollers - {id})
      case Disables => t.(disabling := true, off := s.off || r.rc)
      case Inits => t.(disabling := false, off := false)
  }

  const START: State := State(0, false, {}, false, false, false, false)

  function Run(es: seq<Event>): State
  {
    if es == [] then START else Step(Run(es[..|es| - 1]), es[|es| - 1])
  }

  predicate Owned(s: State) { s.napi || s.pollers != {} }

  datatype Flags = Flags(napi: bool, poll: bool, disabled: bool, napiYield: bool, pollYield: bool)

  function Decode(w: bv32): Flags
  {
    Flags(w & NAPI != 0, w & POLL != 0, w & DISABLED != 0, w & NAPI_YIELD != 0, w & POLL_YIELD != 0)
  }

  const NONE := Flags(false, false, false, false, false)

  /** What each call does to the flags. */
  lemma LockNapiFlags(w: bv32)
    ensures var f, r := Decode(w), LockNapi(w);
            && (r.rc <==> !f.napi && !f.poll && !f.disabled) && (r.warn <==> f.napi)
            && Decode(r.word) == if r.rc then NONE.(napi := true) else f.(napiYield := true)
  {
  }

  lemma UnlockNapiFlags(w: bv32)
    ensures var f, r := Decode(w), UnlockNapi(w);
            r.rc == f.pollYield && (r.warn <==> f.poll || f.napiYield) && Decode(r.word) == NONE.(disabled := f.disabled)
  {
  }

  lemma LockPollFlags(w: bv32)
    ensures var f, r := Decode(w), LockPoll(w);
            && (r.rc <==> !f.napi && !f.poll && !f.disabled) && !r.warn
            && Decode(r.word) == if r.rc then f.(poll := true) else f.(pollYield := true)
  {
  }

  lemma UnlockPollFlags(w: bv32)
    ensures var f, r := Decode(w), UnlockPoll(w);
            r.rc == f.pollYield && r.warn == f.napi && Decode(r.word) == NONE.(disabled := f.disabled)
  {
  }

  lemma DisableFlags(w: bv32)
    ensures var f, r := Decode(w), Disable(w);
            (r.rc <==> !f.napi && !f.poll) && !r.warn && Decode(r.word) == f.(disabled := true)
  {
  }

  lemma ReplyFlags(s: State, e: Event)
    ensures var f, r := Decode(s.word), Returns(s, e);
            match e
            case NapiLocks => (r.rc <==> !f.napi && !f.poll && !f.disabled) && (r.warn <==> f.napi)
                              && Decode(r.word) == (if r.rc then NONE.(napi := true) else f.(napiYield := true))
            case NapiUnlocks => r.rc == f.pollYield && (r.warn <==> f.poll || f.napiYield) && Decode(r.word) == NONE.(disabled := f.disabled)
            case PollerLocks(_) => (r.rc <==> !f.napi && !f.poll && !f.disabled) && !r.warn
                                   && Decode(r.word) == (if r.rc then f.(poll := true) else f.(pollYield := true))
            case PollerUnlocks(_) => r.rc == f.pollYield && r.warn == f.napi && Decode(r.word) == NONE.(disabled := f.disabled)
            case Disables => (r.rc <==> !f.napi && !f.poll) && !r.warn && Decode(r.word) == f.(disabled := true)
            case Inits => !r.warn && Decode(r.word) == NONE
  {
    LockNapiFlags(s.word);
    UnlockNapiFlags(s.word);
    LockPollFlags(s.word);
    UnlockPollFlags(s.word);
    DisableFlags(s.word);
  }

  /** The word says who owns the q_vector, that it is disabled, and that a poller was refused during the ownership. */
  ghost predicate Inv(s: State)
  {
    var f := Decode(s.word);
    && f.napi == s.napi && f.poll == (s.pollers != {}) && f.disabled == s.disabling
    && (Owned(s) ==> f.pollYield == s.refused)
    && (s.napi ==> s.pollers == {} && !f.napiYield)
    && (forall a, b :: a in s.pollers && b in s.pollers ==> a == b)
    && (!Owned(s) && !s.disabling ==> f == NONE)
    && (s.off ==> s.disabling && !Owned(s))
    && !s.warned
  }

  lemma StepKeepsInv(s: State, e: Event)
    requires Inv(s)
    ensures Inv(Step(s, e))
  {
    hide Decode, Returns;
    ReplyFlags(s, e);
    if e.PollerUnlocks? && Possible(s, e) {
      assert s.pollers == {e.id};
    }
  }

  lemma {:induction false} RunKeepsInv(es: seq<Event>)
    ensures Inv(Run(es)) && (Run(es).off ==> !Owned(Run(es)))
  {
    if es != [] {
      RunKeepsInv(es[..|es| - 1]);
      StepKeepsInv(Run(es[..|es| - 1]), es[|es| - 1]);
    }
  }

  /** In every run there is at most one owner, and no WARN_ON fires. */
  lemma AtMostOneOwner(es: seq<Event>)
    ensures var s := Run(es); !(s.napi && s.pollers != {}) && |s.pollers| <= 1 && !s.warned
  {
    RunKeepsInv(es);
    var s := Run(es);
    if s.pollers != {} {
      var a :| a in s.pollers;
      assert s.pollers == {a};
    }
  }

  /** A lock succeeds exactly on a free q_vector that is not disabled. */
  lemma LockSucceedsWhenFree(es: seq<Event>, e: Event)
    requires (e.NapiLocks? || e.PollerLocks?) && Possible(Run(es), e)
    ensures Returns(Run(es), e).rc <==> !Owned(Run(es)) && !Run(es).disabling
  {
    hide Decode, Returns;
    RunKeepsInv(es);
    ReplyFlags(Run(es), e);
  }

  lemma OffStep(s: State, e: Event)
    requires s.off && !e.Inits?
    ensures Step(s, e).off
  {
    hide Returns;
  }

  lemma {:induction false} OffStays(es: seq<Event>, more: seq<Event>)
    requires Run(es).off && Inits !in more
    ensures Run(es + more).off
  {
    hide Step;
    if more == [] {
      assert es + more == es;
    } else {
      var all, less, e := es + more, more[..|more| - 1], more[|more| - 1];
      assert all[..|all| - 1] == es + less && all[|all| - 1] == e;
      OffStays(es, less);
      assert e in more;
      OffStep(Run(es + less), e);
    }
  }

  /** Once disable has returned true no lock succeeds until the next init. */
  lemma OffUntilInit(es: seq<Event>, more: seq<Event>, e: Event)
    requires Run(es).off && Inits !in more && (e.NapiLocks? || e.PollerLocks?)
    ensures Run(es + more).off && !Returns(Run(es + more), e).rc
  {
    hide Decode, Returns, Run;
    OffStays(es, more);
    RunKeepsInv(es + more);
    ReplyFlags(Run(es + more), e);
  }

  /** Unlock reports whether a poller was refused during the ownership it ends. */
  lemma UnlockReportsRefusals(es: seq<Event>, e: Event)
    requires (e.NapiUnlocks? || e.PollerUnlocks?) && Possible(Run(es), e)
    ensures Returns(Run(es), e).rc <==> Run(es).refused
  {
    hide Decode, Returns;
    RunKeepsInv(es);
    ReplyFlags(Run(es), e);
  }

  /** Disable returns true exactly if nobody owns the q_vector, and then it is off. */
  lemma DisableWaitsForOwner(es: seq<Event>)
    ensures Returns(Run(es), Disables).rc <==> !Owned(Run(es))
    ensures Run(es + [Disables]).off <==> Run(es).off || !Owned(Run(es))
  {
    hide Decode, Returns;
    RunKeepsInv(es);
    ReplyFlags(Run(es), Disables);
    assert (es + [Disables])[..|es|] == es;
  }

  // ---------------------------------------------------------------- the lock itself

  /** The calls as they run under the spinlock; `st` follows who owns the q_vector. */
  class Lock {
    var state: bv32
    ghost var st: State

    ghost predicate Valid()
      reads this
    {
      state == st.word && Inv(st)
    }

    constructor ()
      ensures Valid() && st == START
    {
      state, st := 0, START;
    }

    /** ixgbevf_qv_init_lock on a q_vector that is off. */
    method Init()
      requires Valid() && st.off
      modifies this
      ensures Valid() && !Owned(st) && !st.disabling
    {
      StepKeepsInv(st, Inits);
      state := 0;
      st := Step(st, Inits);
    }

    /** ixgbevf_qv_lock_napi: succeeds exactly on a free q_vector that is not being disabled. */
    method LockNapi() returns (rc: bool)
      requires Valid() && !st.napi
      modifies this
      ensures Valid() && st == Step(old(st), NapiLocks)
      ensures rc <==> !Owned(old(st)) && !old(st).disabling
      ensures rc == st.napi && (!rc ==> Owned(st) == Owned(old(st)))
    {
      StepKeepsInv(st, NapiLocks);
      LockNapiFlags(state);
      rc := true;
      if state & LOCKED != 0 {
        state := state | NAPI_YIELD;
        rc := false;
      } else {
        state := NAPI;
      }
      st := Step(st, NapiLocks);
    }

    /** ixgbevf_qv_unlock_napi: says whether a poller was refused meanwhile. */
    method UnlockNapi() returns (rc: bool)
      requires Valid() && st.napi
      modifies this
      ensures Valid() && st == Step(old(st), NapiUnlocks)
      ensures !Owned(st) && st.disabling == old(st).disabling
      ensures rc == old(st).refused
    {
      StepKeepsInv(st, NapiUnlocks);
      UnlockNapiFlags(state);
      rc := false;
      if state & POLL_YIELD != 0 { rc := true; }
      state := state & DISABLED;
      st := Step(st, NapiUnlocks);
    }

    /** ixgbevf_qv_lock_poll: a refusal is remembered for the owner's unlock. */
    method LockPoll(ghost id: nat) returns (rc: bool)
      requires Valid() && id !in st.pollers
      modifies this
      ensures Valid() && st == Step(old(st), PollerLocks(id))
      ensures rc <==> !Owned(old(st)) && !old(st).disabling
      ensures if rc then st.pollers == {id} && !st.refused else st.pollers == old(st).pollers && st.refused
    {
      StepKeepsInv(st, PollerLocks(id));
      LockPollFlags(state);
      rc := true;
      if state & LOCKED != 0 {
        state := state | POLL_YIELD;
        rc := false;
      } else {
        state := state | POLL;
      }
      st := Step(st, PollerLocks(id));
    }

    /** ixgbevf_qv_unlock_poll: says whether another poller was refused meanwhile. */
    method UnlockPoll(ghost id: nat) returns (rc: bool)
      requires Valid() && id in st.pollers
      modifies this
      ensures Valid() && st == Step(old(st), PollerUnlocks(id))
      ensures !Owned(st) && st.disabling == old(st).disabling
      ensures rc == old(st).refused
    {
      StepKeepsInv(st, PollerUnlocks(id));
      UnlockPollFlags(state);
      assert st.pollers == {id};
      rc := false;
      if state & POLL_YIELD != 0 { rc := true; }
      state := state & DISABLED;
      st := Step(st, PollerUnlocks(id));
    }

    /** ixgbevf_qv_disable: true exactly if nobody owns the q_vector, and then it is off. */
    method Disable() returns (rc: bool)
      requires Valid()
      modifies this
      ensures Valid() && st == Step(old(st), Disables)
      ensures rc <==> !Owned(old(st))
      ensures st.disabling && (rc ==> st.off)
    {
      StepKeepsInv(st, Disables);
      DisableFlags(state);
      rc := true;
      if state & OWNED != 0 { rc := false; }
      state := state | DISABLED;
      st := Step(st, Disables);
    }
  }
}
