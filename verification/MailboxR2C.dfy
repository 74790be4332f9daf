/**
 The VF's side of the mailbox status register, whose event bits vanish when read.  Registers are sets of bits.
 */
module MailboxR2C {

  datatype Bit = VFU | PFU | PFSTS | PFACK | RSTI | RSTD

  /** IXGBE_VFMAILBOX_R2C_BITS. */
  const R2C: set<Bit> := {PFSTS, PFACK, RSTD}

  /** The events the driver consumes, and the bits each clear looks at and drops from the cache. */
  datatype Clear = Msg | Ack | Rst
  {
    function Bits(): set<Bit> { match this case Msg => {PFSTS} case Ack => {PFACK} case Rst => {RSTI, RSTD} }
  }

  /** A clear in progress has read the register and found this. */
  datatype Pc = Idle | Got(clear: Clear, val: set<Bit>)

  datatype Stats = Stats(reqs: nat, acks: nat, rsts: nat)
  {
    function Bump(c: Clear): Stats
    {
      match c case Msg => this.(reqs := reqs + 1) case Ack => this.(acks := acks + 1) case Rst => this.(rsts := rsts + 1)
    }
    function Of(c: Clear): nat { match c case Msg => reqs case Ack => acks case Rst => rsts }
  }

  /** The register, the driver's cache of bits it has read away, and the history of every event bit: when it was
      last raised, when the read took place on which its last consumption rests, and how often it was raised. */
  datatype State = State(reg: set<Bit>, cache: set<Bit>, stats: Stats, pc: Pc, clock: nat, readAt: nat,
                         raisedAt: map<Bit, nat>, consumedAt: map<Bit, nat>, raises: map<Bit, nat>)

  function At(m: map<Bit, nat>, b: Bit): nat { if b in m then m[b] else 0 }

  function Pending(s: State): set<Bit> { (s.reg * R2C) + s.cache }

  /** The PF sets a bit. */
  function Raise(s: State, b: Bit): State
  {
    s.(reg := s.reg + {b}, clock := s.clock + 1, raisedAt := s.raisedAt[b := s.clock + 1],
       raises := if b in s.reg then s.raises else s.raises[b := At(s.raises, b) + 1])
  }

  /** The PF or the VF changes a bit that is no event. */
  function Assign(s: State, b: Bit, on: bool): State
  {
    s.(reg := if on then s.reg + {b} else s.reg - {b})
  }

  /** ixgbe_read_mailbox_vf: the hardware clears what it hands out, the driver remembers it. */
  function Read(s: State): (State, set<Bit>)
  {
    var val := s.reg + s.cache;
    (s.(reg := s.reg - R2C, cache := s.cache + (val * R2C), readAt := s.clock), val)
  }

  /** The first half of ixgbe_clear_msg_vf, ixgbe_clear_ack_vf and ixgbe_clear_rst_vf. */
  function ClearRead(s: State, c: Clear): State
  {
    var (s', val) := Read(s);
    s'.(pc := Got(c, val))
  }

  function Consumed(s: State, bits: set<Bit>): map<Bit, nat>
  {
    map b | b in s.consumedAt.Keys + bits :: if b in bits then s.readAt else At(s.consumedAt, b)
  }

  /** The second half: if it was there, count it and forget it. */
  function ClearAct(s: State): State
  {
    match s.pc
    case Idle => s
    case Got(c, val) =>
      if val * c.Bits() == {} then s.(pc := Idle)
      else s.(pc := Idle, stats := s.stats.Bump(c), cache := s.cache - c.Bits(), consumedAt := Consumed(s, val * c.Bits() * R2C))
  }

  // ---------------------------------------------------------------- every run

  datatype Event = Raised(b: Bit) | Assigned(b: Bit, on: bool) | ReadOnly | Begin(c: Clear) | End

  predicate Possible(s: State, e: Event)
  {
    match e
    case Raised(b) => b in R2C
    case Assigned(b, _) => b !in R2C
    case ReadOnly => s.pc.Idle?
    case Begin(_) => s.pc.Idle?
    case End => s.pc.Got?
  }

  function Step(s: State, e: Event): State
  {
    if !Possible(s, e) then s
    else match e
      case Raised(b) => Raise(s, b)
      case Assigned(b, on) => Assign(s, b, on)
      case ReadOnly => Read(s).0
      case Begin(c) => ClearRead(s, c)
      case End => ClearAct(s)
  }

  const START: State := State({}, {}, Stats(0, 0, 0), Idle, 0, 0, map[], map[], map[])

  function Run(es: seq<Event>): State
  {
    if es == [] then START else Step(Run(es[..|es| - 1]), es[|es| - 1])
  }

  /** The event is owed to the driver: raised since the read of the last clear that consumed it. */
  predicate Owed(s: State, b: Bit) { At(s.raisedAt, b) > At(s.consumedAt, b) }

  predicate Tracked(s: State, b: Bit)
  {
    && (b in s.reg <==> At(s.raisedAt, b) > s.readAt)
    && (b in Pending(s) <==> Owed(s, b))
    && At(s.raisedAt, b) <= s.clock && At(s.consumedAt, b) <= s.readAt <= s.clock
  }

  /** An event of one kind is counted at most once for each time it was raised. */
  predicate Counted(s: State, b: Bit, c: Clear)
  {
    s.stats.Of(c) + (if b in s.reg then 1 else 0) + (if b in s.cache then 1 else 0) <= At(s.raises, b)
  }

  ghost predicate Inv(s: State)
  {
    && s.cache <= R2C
    && Tracked(s, PFSTS) && Tracked(s, PFACK) && Tracked(s, RSTD)
    && Counted(s, PFSTS, Msg) && Counted(s, PFACK, Ack)
    && (s.pc.Got? ==> s.pc.val * R2C == s.cache)
  }

  lemma RaiseKeepsInv(s: State, b: Bit)
    requires Inv(s) && b in R2C
    ensures Inv(Raise(s, b))
  {
  }

  lemma ReadKeepsInv(s: State)
    requires Inv(s) && s.pc.Idle?
    ensures var (s', val) := Read(s); Inv(s') && val * R2C == s'.cache && Pending(s') == Pending(s) && s'.reg == s.reg - R2C
  {
  }

  lemma GotKeepsInv(s: State, c: Clear, val: set<Bit>)
    requires Inv(s) && val * R2C == s.cache
    ensures Inv(s.(pc := Got(c, val)))
  {
  }

  /** Finishing a clear drops exactly what its read saw; what was raised since is still in the register. */
  lemma ActKeepsInv(s: State)
    requires Inv(s) && s.pc.Got?
    ensures Inv(ClearAct(s))
    ensures Pending(ClearAct(s)) == (Pending(s) - s.pc.clear.Bits()) + (s.reg * R2C)
  {
    ActKeeps(s);
    ActPending(s);
  }

  lemma ActPending(s: State)
    requires s.cache <= R2C && s.pc.Got? && s.pc.val * R2C == s.cache
    ensures Pending(ClearAct(s)) == (Pending(s) - s.pc.clear.Bits()) + (s.reg * R2C)
  {
    assert forall b :: b in R2C ==> (b in s.pc.val <==> b in s.cache);
  }

  lemma ActTracks(s: State, b: Bit)
    requires s.cache <= R2C && s.pc.Got? && s.pc.val * R2C == s.cache && b in R2C && Tracked(s, b)
    ensures Tracked(ClearAct(s), b)
  {
    assert b in s.pc.val <==> b in s.cache;
  }

  lemma ActCounts(s: State, b: Bit, c: Clear)
    requires s.cache <= R2C && s.pc.Got? && s.pc.val * R2C == s.cache && c.Bits() == {b} && b in R2C && Counted(s, b, c)
    ensures Counted(ClearAct(s), b, c)
  {
    assert b in s.pc.val <==> b in s.cache;
    assert b in s.pc.val ==> b in s.pc.val * c.Bits();
    assert b !in s.pc.val ==> s.pc.val * c.Bits() == {};
  }

  lemma ActKeeps(s: State)
    requires Inv(s) && s.pc.Got?
    ensures Inv(ClearAct(s))
  {
    hide Tracked, Counted;
    ActTracks(s, PFSTS);
    ActTracks(s, PFACK);
    ActTracks(s, RSTD);
    ActCounts(s, PFSTS, Msg);
    ActCounts(s, PFACK, Ack);
  }

  lemma StepKeepsInv(s: State, e: Event)
    requires Inv(s)
    ensures Inv(Step(s, e))
  {
    if Possible(s, e) {
      match e
      case Raised(b) => RaiseKeepsInv(s, b);
      case Assigned(_, _) => {}
      case ReadOnly => ReadKeepsInv(s);
      case Begin(c) => ReadKeepsInv(s);
      case End => ActKeepsInv(s);
    }
  }

  lemma {:induction false} RunKeepsInv(es: seq<Event>)
    ensures Inv(Run(es))
  {
    if es != [] {
      RunKeepsInv(es[..|es| - 1]);
      StepKeepsInv(Run(es[..|es| - 1]), es[|es| - 1]);
    }
  }

  /** In every run an event bit is pending exactly if it was raised since the read of the clear that last consumed it. */
  lemma PendingIsOwed(es: seq<Event>, b: Bit)
    requires b in R2C
    ensures b in Pending(Run(es)) <==> Owed(Run(es), b)
  {
    RunKeepsInv(es);
  }

  /** In every run no event is counted more often than the PF raised it. */
  lemma NeverCountedTwice(es: seq<Event>)
    ensures var s := Run(es); s.stats.reqs <= At(s.raises, PFSTS) && s.stats.acks <= At(s.raises, PFACK)
  {
    RunKeepsInv(es);
  }

  /** How many clears of this kind began while one of their bits was set, in the register or the cache. */
  function Found(es: seq<Event>, c: Clear): nat
  {
    if es == [] then 0
    else
      var before, s, e := es[..|es| - 1], Run(es[..|es| - 1]), es[|es| - 1];
      Found(before, c) + if e == Begin(c) && Possible(s, e) && (s.reg + s.cache) * c.Bits() != {} then 1 else 0
  }

  /** In every run, whatever the PF raises in between, each clear that began while its event was set is counted
      exactly once, when it ends. */
  lemma {:induction false} CountedOncePerClear(es: seq<Event>, c: Clear)
    ensures var s := Run(es);
            s.stats.Of(c) + (if s.pc.Got? && s.pc.clear == c && s.pc.val * c.Bits() != {} then 1 else 0) == Found(es, c)
  {
    if es != [] {
      CountedOncePerClear(es[..|es| - 1], c);
    }
  }

  /** A raised bit stays pending until a clear of its kind begins after it, even if one was in progress. */
  lemma {:induction false} RaisedBitSurvives(es: seq<Event>, b: Bit, more: seq<Event>)
    requires b in R2C && forall i :: 0 <= i < |more| && more[i].Begin? ==> b !in more[i].c.Bits()
    ensures var s := Run(es + [Raised(b)] + more);
            b in Pending(s) && (s.pc.Got? && b in s.pc.clear.Bits() ==> b in s.reg)
  {
    var all := es + [Raised(b)] + more;
    if more == [] {
      assert all[..|all| - 1] == es;
    } else {
      var less := more[..|more| - 1];
      RaisedBitSurvives(es, b, less);
      assert all[..|all| - 1] == es + [Raised(b)] + less;
      RunKeepsInv(es + [Raised(b)] + less);
      assert all[|all| - 1] == more[|more| - 1];
      SurvivesStep(Run(es + [Raised(b)] + less), b, more[|more| - 1]);
    }
  }

  lemma SurvivesStep(s: State, b: Bit, e: Event)
    requires Inv(s) && b in R2C && (e.Begin? ==> b !in e.c.Bits())
    requires b in Pending(s) && (s.pc.Got? && b in s.pc.clear.Bits() ==> b in s.reg)
    ensures var s' := Step(s, e); b in Pending(s') && (s'.pc.Got? && b in s'.pc.clear.Bits() ==> b in s'.reg)
  {
    if Possible(s, e) {
      if e.End? { ActKeepsInv(s); }
      if e.ReadOnly? || e.Begin? { ReadKeepsInv(s); }
    }
  }

  /** An undisturbed clear consumes what is pending, once. */
  lemma ClearConsumes(s: State, c: Clear)
    requires Inv(s) && s.pc.Idle?
    ensures var s' := ClearAct(ClearRead(s, c));
            && Pending(s') == Pending(s) - c.Bits()
            && s'.stats == if (s.reg + s.cache) * c.Bits() != {} then s.stats.Bump(c) else s.stats
  {
    ReadKeepsInv(s);
    ActKeepsInv(ClearRead(s, c));
  }

  /** The same by name: a message clear looks at PFSTS, an ack clear at PFACK, a reset clear at RSTI and RSTD; each
      takes its own read-to-clear bit away, leaves RSTI to the hardware, and counts in its own counter. */
  lemma ClearsByName(s: State)
    requires Inv(s) && s.pc.Idle?
    ensures var seen, n := s.reg + s.cache, s.stats;
            var msg, ack, rst := ClearAct(ClearRead(s, Msg)), ClearAct(ClearRead(s, Ack)), ClearAct(ClearRead(s, Rst));
            && Pending(msg) == Pending(s) - {PFSTS} && msg.stats == Stats(n.reqs + (if PFSTS in seen then 1 else 0), n.acks, n.rsts)
            && Pending(ack) == Pending(s) - {PFACK} && ack.stats == Stats(n.reqs, n.acks + (if PFACK in seen then 1 else 0), n.rsts)
            && Pending(rst) == Pending(s) - {RSTD}
            && rst.stats == Stats(n.reqs, n.acks, n.rsts + if RSTI in seen || RSTD in seen then 1 else 0)
            && (RSTI in rst.reg <==> RSTI in s.reg)
  {
    var seen := s.reg + s.cache;
    ClearConsumes(s, Msg);
    ClearConsumes(s, Ack);
    ClearConsumes(s, Rst);
    assert PFSTS in seen ==> PFSTS in seen * Msg.Bits();
    assert PFACK in seen ==> PFACK in seen * Ack.Bits();
    assert RSTI in seen ==> RSTI in seen * Rst.Bits();
    assert RSTD in seen ==> RSTD in seen * Rst.Bits();
    assert RSTI !in Pending(s);
  }

  // ---------------------------------------------------------------- the driver

  class VfMailbox {
    var reg: set<Bit>
    var cache: set<Bit>
    var stats: Stats
    ghost var st: State

    ghost predicate Valid()
      reads this
    {
      st.reg == reg && st.cache == cache && st.stats == stats && Inv(st)
    }

    /** The PF raises these events between two accesses of the VF. */
    method PfRaises(bs: seq<Bit>)
      requires Valid() && forall i :: 0 <= i < |bs| ==> bs[i] in R2C
      modifies this`reg, this`st
      ensures Valid() && st == Raises(old(st), bs, |bs|)
    {
      for n := 0 to |bs|
        invariant Valid() && st == Raises(old(st), bs, n)
      {
        RaiseKeepsInv(st, bs[n]);
        reg := reg + {bs[n]};
        st := Raise(st, bs[n]);
      }
    }

    /** ixgbe_read_mailbox_vf. */
    method ReadMailbox() returns (val: set<Bit>)
      requires Valid() && st.pc.Idle?
      modifies this`reg, this`cache, this`st
      ensures Valid() && (st, val) == Read(old(st)) && val * R2C == cache
    {
      ReadKeepsInv(st);
      val := reg;
      reg := reg - R2C;
      val := val + cache;
      cache := cache + (val * R2C);
      st := Read(st).0;
    }

    /** ixgbe_clear_msg_vf, ixgbe_clear_ack_vf and ixgbe_clear_rst_vf, while the PF raises `during`. */
    method ClearEvent(c: Clear, during: seq<Bit>)
      requires Valid() && st.pc.Idle? && forall i :: 0 <= i < |during| ==> during[i] in R2C
      modifies this
      ensures Valid() && st == ClearAct(Raises(ClearRead(old(st), c), during, |during|))
    {
      hide Tracked, Counted;
      var val := ReadMailbox();
      GotKeepsInv(st, c, val);
      st := st.(pc := Got(c, val));
      PfRaises(during);
      RaisesKeepPc(ClearRead(old(st), c), during, |during|);
      ActKeepsInv(st);
      if val * c.Bits() != {} {
        stats := stats.Bump(c);
        cache := cache - c.Bits();
      }
      st := ClearAct(st);
    }

    /** ixgbe_check_for_msg_vf. */
    method CheckForMsg() returns (found: bool)
      requires Valid() && st.pc.Idle?
      modifies this`reg, this`cache, this`st
      ensures Valid() && st == Read(old(st)).0 && (found <==> PFSTS in Pending(old(st)))
      ensures Pending(st) == Pending(old(st))
    {
      ReadKeepsInv(st);
      var val := ReadMailbox();
      assert PFSTS in val ==> PFSTS in val * {PFSTS};
      return val * {PFSTS} != {};
    }

    /** ixgbe_check_for_ack_vf and ixgbe_check_for_rst_vf: a hit is cleared by a second read. */
    method CheckAndClear(c: Clear, between: seq<Bit>, during: seq<Bit>) returns (found: bool)
      requires Valid() && st.pc.Idle? && c != Msg
      requires (forall i :: 0 <= i < |between| ==> between[i] in R2C) && forall i :: 0 <= i < |during| ==> during[i] in R2C
      modifies this
      ensures Valid()
      ensures c == Ack ==> (found <==> PFACK in old(st).reg + old(st).cache)
      ensures c == Rst ==> (found <==> RSTI in old(st).reg + old(st).cache || RSTD in old(st).reg + old(st).cache)
      ensures st == if found then ClearAct(Raises(ClearRead(Raises(Read(old(st)).0, between, |between|), c), during, |during|))
                    else Read(old(st)).0
    {
      var val := ReadMailbox();
      found := val * c.Bits() != {};
      assert forall b :: b in c.Bits() && b in val ==> b in val * c.Bits();
      if found {
        RaisesKeepPc(st, between, |between|);
        PfRaises(between);
        ClearEvent(c, during);
      }
    }
  }

  /** The PF raises the first n of these bits. */
  function Raises(s: State, bs: seq<Bit>, n: nat): State
    requires n <= |bs|
  {
    if n == 0 then s else Raise(Raises(s, bs, n - 1), bs[n - 1])
  }

  lemma {:induction false} RaisesKeepPc(s: State, bs: seq<Bit>, n: nat)
    requires n <= |bs|
    ensures Raises(s, bs, n).pc == s.pc
  {
    if n > 0 {
      RaisesKeepPc(s, bs, n - 1);
    }
  }

  /** A clear keeps pending whatever the PF raised after its read, and nothing else of its kind. */
  lemma {:induction false} RaisedDuringClear(s: State, bs: seq<Bit>, n: nat)
    requires Inv(s) && s.pc.Got? && s.reg * R2C == {} && n <= |bs| && forall i :: 0 <= i < |bs| ==> bs[i] in R2C
    ensures var r := Raises(s, bs, n);
            && Inv(r) && r.pc == s.pc && r.cache == s.cache && r.stats == s.stats
            && (forall b :: b in r.reg * R2C <==> b in bs[..n])
            && (forall b :: b in Pending(ClearAct(r)) <==> b in bs[..n] || (b in Pending(s) && b !in s.pc.clear.Bits()))
  {
    if n > 0 {
      RaisedDuringClear(s, bs, n - 1);
      RaiseKeepsInv(Raises(s, bs, n - 1), bs[n - 1]);
      assert bs[..n] == bs[..n - 1] + [bs[n - 1]];
    }
    ActKeepsInv(Raises(s, bs, n));
  }
}
