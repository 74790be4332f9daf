/**
 Legacy mailbox reads and writes of the VF and the PF, interleaved register access by register access.  The
 hardware grants the VF's lock bit only while the PF's is clear, and the other way round.
 */
module MailboxLock {
  import opened Util

  datatype Side = VF | PF

  /** What a side was asked to do: copy a message into the mailbox memory, or `size` words out of it. */
  datatype Op = Write(msg: seq<nat>) | Read(size: nat)
  {
    function Size(): nat { match this case Write(msg) => |msg| case Read(n) => n }
  }

  datatype Result = Config | Timeout | Sent | Received(words: seq<nat>)

  /** The lock loop looks, grabs and verifies, with `left` tries to go; then words are copied and the lock released. */
  datatype Pc = Idle | Look(left: nat) | Grab(left: nat) | Verify(left: nat) | Copy(i: nat) | Release

  datatype Agent = Agent(pc: Pc, op: Op, words: seq<nat>, result: Option<Result>)

  /** `done` lists the messages of completed writes, oldest first; `initial` is the memory before any. */
  datatype State = State(vfu: bool, pfu: bool, mem: seq<nat>, vf: Agent, pf: Agent, initial: seq<nat>, done: seq<seq<nat>>)
  {
    function Of(side: Side): Agent { if side == VF then vf else pf }
    function Lock(side: Side): bool { if side == VF then vfu else pfu }
    function With(side: Side, a: Agent): State { if side == VF then this.(vf := a) else this.(pf := a) }
    function WithLock(side: Side, on: bool): State { if side == VF then this.(vfu := on) else this.(pfu := on) }
  }

  function Other(side: Side): Side { if side == VF then PF else VF }

  // ---------------------------------------------------------------- steps

  /** ixgbe_read_mbx_*_legacy or ixgbe_write_mbx_*_legacy is called. */
  function Start(s: State, side: Side, op: Op, timeout: nat): State
    requires s.Of(side).pc.Idle?
  {
    if timeout == 0 then s.With(side, Agent(Idle, op, [], Some(Config))) else s.With(side, Agent(Look(timeout), op, [], None))
  }

  function Retry(a: Agent, left: nat): Agent
  {
    if left <= 1 then a.(pc := Idle, result := Some(Timeout)) else a.(pc := Look(left - 1))
  }

  /** The memory with the first n words of a message copied in. */
  function Overlay(mem: seq<nat>, msg: seq<nat>, n: nat): (r: seq<nat>)
    ensures |r| == |mem|
  {
    if n <= |msg| && n <= |mem| then msg[..n] + mem[n..] else mem
  }

  /** The next register or memory access of one side. */
  function Tick(s: State, side: Side): State
  {
    var a := s.Of(side);
    match a.pc
    case Idle => s
    case Look(left) => s.With(side, if s.vfu || s.pfu then Retry(a, left) else a.(pc := Grab(left)))
    case Grab(left) => s.WithLock(side, s.Lock(side) || !s.Lock(Other(side))).With(side, a.(pc := Verify(left)))
    case Verify(left) => s.With(side, if s.Lock(side) then a.(pc := Copy(0)) else Retry(a, left))
    case Copy(i) =>
      if i >= a.op.Size() then s.With(side, a.(pc := Release))
      else if i >= |s.mem| then s
      else
        (match a.op
         case Write(msg) => s.(mem := s.mem[i := msg[i]]).With(side, a.(pc := Copy(i + 1)))
         case Read(_) => s.With(side, a.(pc := Copy(i + 1), words := a.words + [s.mem[i]])))
    case Release =>
      var s' := s.WithLock(side, false);
      (match a.op
       case Write(msg) => s'.(done := s.done + [msg]).With(side, a.(pc := Idle, result := Some(Sent)))
       case Read(_) => s'.With(side, a.(pc := Idle, result := Some(Received(a.words)))))
  }

  datatype Event = Begin(side: Side, op: Op) | Go(side: Side)

  function Step(s: State, timeout: nat, e: Event): State
  {
    match e
    case Begin(side, op) => if s.Of(side).pc.Idle? && op.Size() <= |s.mem| then Start(s, side, op, timeout) else s
    case Go(side) => Tick(s, side)
  }

  function Boot(mem: seq<nat>): State
  {
    State(false, false, mem, Agent(Idle, Read(0), [], None), Agent(Idle, Read(0), [], None), mem, [])
  }

  function Run(mem: seq<nat>, timeout: nat, es: seq<Event>): State
  {
    if es == [] then Boot(mem) else Step(Run(mem, timeout, es[..|es| - 1]), timeout, es[|es| - 1])
  }

  // ---------------------------------------------------------------- the invariant

  predicate Touching(a: Agent) { a.pc.Copy? || a.pc.Release? }

  predicate Trying(a: Agent) { a.pc.Look? || a.pc.Grab? || a.pc.Verify? }

  /** What the first n completed writes leave in memory. */
  function After(initial: seq<nat>, done: seq<seq<nat>>, n: nat): (r: seq<nat>)
    requires n <= |done|
    ensures |r| == |initial|
  {
    if n == 0 then initial
    else Overlay(After(initial, done, n - 1), done[n - 1], |done[n - 1]|)
  }

  function Published(s: State): seq<nat> { After(s.initial, s.done, |s.done|) }

  /** The words a side has copied. */
  function Copied(a: Agent): (n: nat)
    ensures n <= a.op.Size()
  {
    if a.pc.Copy? && a.pc.i <= a.op.Size() then a.pc.i else a.op.Size()
  }

  /** A side's copying is covered by its lock, and what it has read is a prefix of the published memory. */
  predicate Progress(a: Agent, lock: bool, published: seq<nat>)
  {
    && a.op.Size() <= |published|
    && (a.pc.Copy? ==> a.pc.i <= a.op.Size())
    && (Touching(a) ==> lock)
    && (lock ==> a.pc.Verify? || Touching(a))
    && (Trying(a) ==> a.words == [])
    && (Touching(a) && a.op.Read? ==> a.words == published[..Copied(a)])
  }

  /** The memory a writing side is building. */
  function Written(a: Agent, published: seq<nat>): seq<nat>
  {
    if Touching(a) && a.op.Write? then Overlay(published, a.op.msg, Copied(a)) else published
  }

  /** At most one side holds the lock, and the memory is what completed writes left, but for the words its owner
      has copied in. */
  predicate Inv(s: State)
  {
    var p := Published(s);
    && Progress(s.vf, s.vfu, p) && Progress(s.pf, s.pfu, p) && !(s.vfu && s.pfu)
    && s.mem == (if s.vfu then Written(s.vf, p) else Written(s.pf, p))
  }

  lemma PublishedGrows(s: State, msg: seq<nat>)
    requires |msg| <= |s.initial|
    ensures After(s.initial, s.done + [msg], |s.done| + 1) == Overlay(Published(s), msg, |msg|)
  {
    AfterPrefix(s.initial, s.done, msg, |s.done|);
  }

  lemma {:induction false} AfterPrefix(initial: seq<nat>, done: seq<seq<nat>>, msg: seq<nat>, n: nat)
    requires n <= |done|
    ensures After(initial, done + [msg], n) == After(initial, done, n)
  {
    if n > 0 {
      AfterPrefix(initial, done, msg, n - 1);
    }
  }

  lemma OverlayStep(mem: seq<nat>, msg: seq<nat>, i: nat)
    requires i < |msg| <= |mem|
    ensures Overlay(mem, msg, i)[i := msg[i]] == Overlay(mem, msg, i + 1)
  {
  }

  lemma PrefixStep(mem: seq<nat>, i: nat)
    requires i < |mem|
    ensures mem[..i] + [mem[i]] == mem[..i + 1]
  {
  }

  lemma CopyKeepsInv(s: State, side: Side)
    requires Inv(s) && s.Of(side).pc.Copy?
    ensures Inv(Tick(s, side))
  {
    hide After, Overlay;
    var a, p := s.Of(side), Published(s);
    var i := a.pc.i;
    if i < a.op.Size() {
      if a.op.Write? { OverlayStep(p, a.op.msg, i); } else { PrefixStep(p, i); }
    }
  }

  lemma ReleaseKeepsInv(s: State, side: Side)
    requires Inv(s) && s.Of(side).pc.Release?
    ensures Inv(Tick(s, side))
    ensures s.Of(side).op.Read? ==> Tick(s, side).Of(side).result == Some(Received(Published(s)[..s.Of(side).op.size]))
    ensures s.Of(side).op.Write? ==> Published(Tick(s, side)) == s.mem
  {
    if s.Of(side).op.Write? {
      PublishedGrows(s, s.Of(side).op.msg);
    }
  }

  lemma TryKeepsInv(s: State, side: Side)
    requires Inv(s) && Trying(s.Of(side))
    ensures Inv(Tick(s, side))
  {
    assert Published(s)[..0] == [];
    assert Published(Tick(s, side)) == Published(s);
    assert s.Of(side).op.Write? ==> Overlay(Published(s), s.Of(side).op.msg, 0) == Published(s);
  }

  lemma TickKeepsInv(s: State, side: Side)
    requires Inv(s)
    ensures Inv(Tick(s, side))
  {
    if s.Of(side).pc.Copy? {
      CopyKeepsInv(s, side);
    } else if s.Of(side).pc.Release? {
      ReleaseKeepsInv(s, side);
    } else if !s.Of(side).pc.Idle? {
      TryKeepsInv(s, side);
    }
  }

  lemma BeginKeepsInv(s: State, timeout: nat, side: Side, op: Op)
    requires Inv(s)
    ensures Inv(Step(s, timeout, Begin(side, op)))
  {
    hide After, Overlay;
    assert Published(Step(s, timeout, Begin(side, op))) == Published(s);
  }

  lemma StepKeepsInv(s: State, timeout: nat, e: Event)
    requires Inv(s)
    ensures Inv(Step(s, timeout, e)) && Step(s, timeout, e).initial == s.initial
  {
    hide After, Overlay;
    match e
    case Begin(side, op) => BeginKeepsInv(s, timeout, side, op);
    case Go(side) => TickKeepsInv(s, side);
  }

  lemma {:induction false} RunKeepsInv(mem: seq<nat>, timeout: nat, es: seq<Event>)
    ensures Inv(Run(mem, timeout, es)) && Run(mem, timeout, es).initial == mem
  {
    if es != [] {
      RunKeepsInv(mem, timeout, es[..|es| - 1]);
      StepKeepsInv(Run(mem, timeout, es[..|es| - 1]), timeout, es[|es| - 1]);
    }
  }

  // ---------------------------------------------------------------- what every run promises

  /** Only the side holding the lock changes or reads the memory. */
  lemma OnlyTheOwnerTouchesMemory(mem: seq<nat>, timeout: nat, es: seq<Event>, side: Side)
    ensures var s := Run(mem, timeout, es);
            && !(s.vfu && s.pfu)
            && (Touching(s.Of(side)) ==> s.Lock(side) && !Touching(s.Of(Other(side))))
            && (Tick(s, side).mem != s.mem ==> s.Lock(side) && !s.Lock(Other(side)))
  {
    RunKeepsInv(mem, timeout, es);
  }

  /** In every run a read that completes returns the memory as the completed writes left it, in their order. */
  lemma ReadsSeeCompletedWrites(mem: seq<nat>, timeout: nat, es: seq<Event>, side: Side)
    requires var a := Run(mem, timeout, es).Of(side); a.pc.Release? && a.op.Read?
    ensures var s, s' := Run(mem, timeout, es), Run(mem, timeout, es + [Go(side)]);
            && s.Of(side).op.size <= |mem|
            && s'.Of(side).result == Some(Received(After(mem, s.done, |s.done|)[..s.Of(side).op.size]))
            && s'.mem == After(mem, s.done, |s.done|) && s'.done == s.done
  {
    RunKeepsInv(mem, timeout, es);
    assert (es + [Go(side)])[..|es|] == es;
    ReleaseKeepsInv(Run(mem, timeout, es), side);
  }

  /** A write that completes leaves its whole message in the memory. */
  lemma WritesAreWhole(mem: seq<nat>, timeout: nat, es: seq<Event>, side: Side)
    requires var a := Run(mem, timeout, es).Of(side); a.pc.Release? && a.op.Write?
    ensures var s, s' := Run(mem, timeout, es), Run(mem, timeout, es + [Go(side)]);
            && |s.Of(side).op.msg| <= |s'.mem| && s'.mem[..|s.Of(side).op.msg|] == s.Of(side).op.msg
            && s'.done == s.done + [s.Of(side).op.msg] && s'.Of(side).result == Some(Sent)
  {
    RunKeepsInv(mem, timeout, es);
    assert (es + [Go(side)])[..|es|] == es;
    ReleaseKeepsInv(Run(mem, timeout, es), side);
  }

  // ---------------------------------------------------------------- bounded tries

  /** Accesses a side may still make before it owns the lock or gives up. */
  function Rank(a: Agent): int
  {
    match a.pc case Look(left) => 3 * left case Grab(left) => 3 * left - 1 case Verify(left) => 3 * left - 2 case _ => 0
  }

  predicate Tries(a: Agent, timeout: nat)
  {
    match a.pc case Look(n) => 0 < n <= timeout case Grab(n) => 0 < n <= timeout case Verify(n) => 0 < n <= timeout case _ => true
  }

  function Turns(es: seq<Event>, side: Side): nat
  {
    if es == [] then 0 else Turns(es[..|es| - 1], side) + if es[|es| - 1] == Go(side) then 1 else 0
  }

  /** Continue a run from a given state. */
  function From(s: State, timeout: nat, es: seq<Event>): State
  {
    if es == [] then s else Step(From(s, timeout, es[..|es| - 1]), timeout, es[|es| - 1])
  }

  /** However the other side interferes, three accesses a try and `timeout` tries end in ownership or in a time-out. */
  lemma {:induction false} LockAttemptEnds(s: State, timeout: nat, es: seq<Event>, side: Side)
    requires Tries(s.Of(side), timeout) && forall k :: 0 <= k <= |es| ==> Trying(From(s, timeout, es[..k]).Of(side))
    ensures var a := From(s, timeout, es).Of(side); Tries(a, timeout) && Rank(a) + Turns(es, side) <= Rank(s.Of(side)) <= 3 * timeout
    ensures Turns(es, side) < 3 * timeout
  {
    assert es[..|es|] == es;
    assert Trying(From(s, timeout, es[..|es|]).Of(side));
    if es != [] {
      var before := es[..|es| - 1];
      forall k | 0 <= k <= |before|
        ensures Trying(From(s, timeout, before[..k]).Of(side))
      {
        assert before[..k] == es[..k];
      }
      LockAttemptEnds(s, timeout, before, side);
      assert before[..|before|] == before;
      RankFalls(From(s, timeout, before), timeout, es[|es| - 1], side);
    }
  }

  lemma RankFalls(s: State, timeout: nat, e: Event, side: Side)
    requires Trying(s.Of(side)) && Trying(Step(s, timeout, e).Of(side)) && Tries(s.Of(side), timeout)
    ensures var a := Step(s, timeout, e).Of(side);
            Tries(a, timeout) && Rank(a) + (if e == Go(side) then 1 else 0) <= Rank(s.Of(side))
  {
  }

  /** The attempt is over: this side owns the lock and is about to copy its first word, or it has timed out. */
  predicate Concluded(s: State, side: Side)
  {
    var a := s.Of(side);
    (a.pc == Copy(0) && s.Lock(side)) || (a.pc.Idle? && a.result == Some(Timeout))
  }

  /** A try fails when the look finds a lock taken, or the verification finds the own one refused. */
  predicate FailsTry(s: State, side: Side, e: Event)
  {
    e == Go(side) && ((s.Of(side).pc.Look? && (s.vfu || s.pfu)) || (s.Of(side).pc.Verify? && !s.Lock(side)))
  }

  function FailedTries(s: State, timeout: nat, es: seq<Event>, side: Side): nat
  {
    if es == [] then 0
    else FailedTries(s, timeout, es[..|es| - 1], side)
         + if FailsTry(From(s, timeout, es[..|es| - 1]), side, es[|es| - 1]) then 1 else 0
  }

  predicate TriesLeft(a: Agent, n: int)
  {
    match a.pc case Look(left) => left == n case Grab(left) => left == n case Verify(left) => left == n case _ => false
  }

  lemma TryGoesOn(s: State, timeout: nat, e: Event, side: Side, n: nat)
    requires Trying(s.Of(side)) && TriesLeft(s.Of(side), n) && n > 0 && Trying(Step(s, timeout, e).Of(side))
    ensures TriesLeft(Step(s, timeout, e).Of(side), if FailsTry(s, side, e) then n - 1 else n)
    ensures FailsTry(s, side, e) ==> n > 1
  {
  }

  /** While a side tries, the tries it has left are those it has not failed. */
  lemma {:induction false} TriesAddUp(s: State, timeout: nat, es: seq<Event>, side: Side)
    requires timeout > 0 && s.Of(side).pc == Look(timeout) && forall k :: 0 <= k <= |es| ==> Trying(From(s, timeout, es[..k]).Of(side))
    ensures FailedTries(s, timeout, es, side) < timeout
    ensures TriesLeft(From(s, timeout, es).Of(side), timeout - FailedTries(s, timeout, es, side))
  {
    hide Step, Trying, FailsTry;
    assert Trying(From(s, timeout, es[..|es|]).Of(side)) && es[..|es|] == es;
    if es != [] {
      var before := es[..|es| - 1];
      forall k | 0 <= k <= |before|
        ensures Trying(From(s, timeout, before[..k]).Of(side))
      {
        assert before[..k] == es[..k];
      }
      TriesAddUp(s, timeout, before, side);
      assert before[..|before|] == before;
      TryGoesOn(From(s, timeout, before), timeout, es[|es| - 1], side, timeout - FailedTries(s, timeout, before, side));
    }
  }

  /** Without a time-out configured no run ever tries for the lock or touches the memory: every request is refused. */
  lemma {:induction false} ZeroTimeoutRefuses(mem: seq<nat>, es: seq<Event>, side: Side, op: Op)
    requires op.Size() <= |mem|
    ensures var s := Run(mem, 0, es);
            && s.vf.pc.Idle? && s.pf.pc.Idle? && !s.vfu && !s.pfu && s.mem == mem && s.done == []
            && Step(s, 0, Begin(side, op)).Of(side).result == Some(Config)
  {
    if es != [] {
      ZeroTimeoutRefuses(mem, es[..|es| - 1], side, op);
    }
  }

  /** The access that ends an attempt: the last try failing, or a verification that succeeds. */
  lemma LastAccess(s: State, timeout: nat, e: Event, side: Side, n: nat)
    requires Trying(s.Of(side)) && TriesLeft(s.Of(side), n) && n > 0 && !Trying(Step(s, timeout, e).Of(side))
    ensures var a := Step(s, timeout, e).Of(side);
            && (a.pc.Idle? && a.result == Some(Timeout) <==> FailsTry(s, side, e))
            && (a.pc == Copy(0) && Step(s, timeout, e).Lock(side) <==> !FailsTry(s, side, e))
            && (FailsTry(s, side, e) ==> n == 1)
  {
  }

  /** An attempt that ends has timed out exactly if all `timeout` tries failed; after fewer it owns the lock. */
  lemma TimesOutExactly(s: State, timeout: nat, es: seq<Event>, side: Side)
    requires timeout > 0 && s.Of(side).pc == Look(timeout) && es != []
    requires (forall k :: 0 <= k < |es| ==> Trying(From(s, timeout, es[..k]).Of(side))) && !Trying(From(s, timeout, es).Of(side))
    ensures var a := From(s, timeout, es).Of(side);
            && (a.pc.Idle? && a.result == Some(Timeout) <==> FailedTries(s, timeout, es, side) == timeout)
            && (a.pc == Copy(0) && From(s, timeout, es).Lock(side) <==> FailedTries(s, timeout, es, side) < timeout)
  {
    hide Step, Trying, FailsTry, TriesLeft;
    var before, e := es[..|es| - 1], es[|es| - 1];
    var m, failed := From(s, timeout, before), FailedTries(s, timeout, before, side);
    assert From(s, timeout, es) == Step(m, timeout, e) && FailedTries(s, timeout, es, side) == failed + if FailsTry(m, side, e) then 1 else 0;
    hide From, FailedTries;
    forall k | 0 <= k <= |before|
      ensures Trying(From(s, timeout, before[..k]).Of(side))
    {
      assert before[..k] == es[..k];
    }
    assert before[..|before|] == before;
    TriesAddUp(s, timeout, before, side);
    LastAccess(m, timeout, e, side, timeout - failed);
  }

  lemma TryingEndsConcluded(s: State, timeout: nat, e: Event, side: Side)
    requires Trying(s.Of(side)) && !Trying(Step(s, timeout, e).Of(side))
    ensures Concluded(Step(s, timeout, e), side)
  {
  }

  /** Given its turns, a side that tries ends up owning the lock or timed out, having tried until then. */
  lemma {:induction false} LockAttemptConcludes(s: State, timeout: nat, es: seq<Event>, side: Side) returns (k: nat)
    requires Trying(s.Of(side)) && Tries(s.Of(side), timeout) && Turns(es, side) >= 3 * timeout
    ensures 0 < k <= |es| && Concluded(From(s, timeout, es[..k]), side)
    ensures forall j :: 0 <= j < k ==> Trying(From(s, timeout, es[..j]).Of(side))
  {
    if forall j :: 0 <= j <= |es| ==> Trying(From(s, timeout, es[..j]).Of(side)) {
      LockAttemptEnds(s, timeout, es, side);
      assert false;
    } else {
      k := FirstEnd(s, timeout, es, side, |es|);
    }
  }

  /** The first point at which a side no longer tries. */
  lemma {:induction false} FirstEnd(s: State, timeout: nat, es: seq<Event>, side: Side, n: nat) returns (k: nat)
    requires Trying(s.Of(side)) && n <= |es|
    requires exists j :: 0 <= j <= n && !Trying(From(s, timeout, es[..j]).Of(side))
    ensures 0 < k <= n && Concluded(From(s, timeout, es[..k]), side)
    ensures forall j :: 0 <= j < k ==> Trying(From(s, timeout, es[..j]).Of(side))
  {
    if exists j :: 0 <= j <= n - 1 && !Trying(From(s, timeout, es[..j]).Of(side)) {
      k := FirstEnd(s, timeout, es, side, n - 1);
    } else {
      k := n;
      assert es[..0] == [];
      assert es[..n][..n - 1] == es[..n - 1];
      TryingEndsConcluded(From(s, timeout, es[..n - 1]), timeout, es[n - 1], side);
    }
  }
}
