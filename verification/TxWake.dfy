/** Stopping and waking a transmit queue, as interleaved steps of one transmitter and one cleaner. */
module TxWake {
  import opened Util
  import TxSpec

  // Memory is sequentially consistent, the carrier up, the adapter not going down; the stack offers frames only while
  // the queue is not stopped.

  /** A queued packet: the slots it occupies and the segments it counts for. */
  datatype Pkt = Pkt(span: nat, segs: nat)

  /** What follows a successful ixgbevf_maybe_stop_tx: placing the frame, or returning to the stack. */
  datatype After = Place(pkt: Pkt) | Return

  /** The transmitter: between frames, at one of the four steps of ixgbevf_maybe_stop_tx, about to take a frame on,
      or mapping it, when its context descriptor has already moved next_to_use by one. */
  datatype Sender = Idle | Check(size: nat, after: After) | Stop(size: nat, after: After) | Recheck(size: nat, after: After)
                  | Reprieve(after: After) | Fill(pkt: Pkt) | Map(pkt: Pkt)

  /** The cleaner, from having reclaimed n packets to waking the queue. */
  datatype Cleaner = Rest | Publish(n: nat) | Threshold | TestStopped | Wake

  datatype State = State(queue: seq<Pkt>, stopped: bool, tx: Sender, cl: Cleaner)

  /** The ring size, the largest number of free slots a frame may ask for, and whether gso_segs may be 0. */
  datatype Setup = Setup(count: nat, maxSize: nat, zeroSegs: bool)
  {
    predicate Valid() { 3 <= count <= 0xFFFF && TxSpec.DESC_NEEDED <= maxSize <= 0xFFFF }
    predicate Offers(pkt: Pkt) { 2 <= pkt.span && pkt.span + 2 <= maxSize && pkt.segs <= 0xFFFF && (pkt.segs == 0 ==> zeroSegs) }
  }

  function Spans(q: seq<Pkt>): nat
  {
    if q == [] then 0 else q[0].span + Spans(q[1..])
  }

  function Segs(q: seq<Pkt>): nat
  {
    if q == [] then 0 else q[0].segs + Segs(q[1..])
  }

  /** ixgbevf_desc_unused as either side reads it. */
  function Unused(p: Setup, s: State): int { p.count - 1 - Spans(s.queue) - if s.tx.Map? then 1 else 0 }

  function Resume(after: After): Sender
  {
    match after case Place(pkt) => Fill(pkt) case Return => Idle
  }

  ghost predicate TxStep(p: Setup, s: State, s': State)
  {
    match s.tx
    case Idle => !s.stopped && exists pkt :: p.Offers(pkt) && s' == s.(tx := Check(pkt.span + 2, Place(pkt)))
    case Check(size, after) => s' == s.(tx := if Unused(p, s) >= size then Resume(after) else Stop(size, after))
    case Stop(size, after) => s' == s.(stopped := true, tx := Recheck(size, after))
    case Recheck(size, after) => s' == s.(tx := if Unused(p, s) < size then Idle else Reprieve(after))
    case Reprieve(after) => s' == s.(stopped := false, tx := Resume(after))
    case Fill(pkt) => s' == s.(tx := Map(pkt)) || s' == s.(tx := Idle)
    case Map(pkt) => s' == s.(queue := s.queue + [pkt], tx := Check(TxSpec.DESC_NEEDED, Return)) || s' == s.(tx := Idle)
  }

  ghost predicate ClStep(p: Setup, s: State, s': State)
  {
    match s.cl
    case Rest => exists n :: 0 <= n <= |s.queue| && s' == s.(cl := Publish(n))
    case Publish(n) => n <= |s.queue| && s' == s.(queue := s.queue[n..], cl := if U32(Segs(s.queue[..n])) != 0 then Threshold else Rest)
    case Threshold => s' == s.(cl := if Unused(p, s) >= TxSpec.TX_WAKE_THRESHOLD then TestStopped else Rest)
    case TestStopped => s' == s.(cl := if s.stopped then Wake else Rest)
    case Wake => s' == s.(stopped := false, cl := Rest)
  }

  ghost predicate Step(p: Setup, s: State, s': State) { TxStep(p, s, s') || ClStep(p, s, s') }

  const START := State([], false, Idle, Rest)

  ghost predicate IsRun(p: Setup, tr: seq<State>)
  {
    |tr| > 0 && tr[0] == START && forall i :: 0 < i < |tr| ==> Step(p, tr[i - 1], tr[i])
  }

  ghost predicate Reachable(p: Setup, s: State)
  {
    exists tr :: IsRun(p, tr) && tr[|tr| - 1] == s
  }

  /** The cleaner will test, or has already seen, that the queue is stopped. */
  predicate Committed(p: Setup, s: State)
  {
    s.cl.TestStopped? || s.cl.Wake? || (s.cl.Threshold? && Unused(p, s) >= TxSpec.TX_WAKE_THRESHOLD)
  }

  /** A queue left stopped has packets to reclaim, or the cleaner is about to wake it. */
  predicate Awake(p: Setup, s: State)
  {
    s.stopped && s.tx.Idle? && !Committed(p, s) ==> s.queue != []
  }

  // ---------------------------------------------------------------- sums

  lemma {:induction false} SpansAppend(q: seq<Pkt>, pkt: Pkt)
    ensures Spans(q + [pkt]) == Spans(q) + pkt.span
  {
    if q == [] {
      assert q + [pkt] == [pkt];
    } else {
      assert (q + [pkt])[1..] == q[1..] + [pkt];
      SpansAppend(q[1..], pkt);
    }
  }

  lemma {:induction false} SegsAppend(q: seq<Pkt>, pkt: Pkt)
    ensures Segs(q + [pkt]) == Segs(q) + pkt.segs
  {
    if q == [] {
      assert q + [pkt] == [pkt];
    } else {
      assert (q + [pkt])[1..] == q[1..] + [pkt];
      SegsAppend(q[1..], pkt);
    }
  }

  lemma {:induction false} SpansDrop(q: seq<Pkt>, n: nat)
    requires n <= |q|
    ensures Spans(q[n..]) <= Spans(q)
  {
    if n > 0 {
      SpansDrop(q[1..], n - 1);
      assert q[1..][n - 1..] == q[n..];
    }
  }

  ghost predicate AllOffered(p: Setup, q: seq<Pkt>) { forall i :: 0 <= i < |q| ==> p.Offers(q[i]) }

  /** With at least one segment each and at most 65535, the 32-bit total of some packets is not zero. */
  lemma {:induction false} SegsBound(p: Setup, q: seq<Pkt>)
    requires AllOffered(p, q)
    ensures Segs(q) <= 0xFFFF * |q| && 2 * |q| <= Spans(q)
    ensures !p.zeroSegs ==> |q| <= Segs(q)
  {
    if q != [] {
      SegsBound(p, q[1..]);
    }
  }

  lemma {:induction false} SpansPrefix(q: seq<Pkt>, n: nat)
    requires n <= |q|
    ensures Spans(q[..n]) <= Spans(q)
  {
    if n > 0 {
      SpansPrefix(q[1..], n - 1);
      assert q[..n][1..] == q[1..][..n - 1];
    }
  }

  // ---------------------------------------------------------------- the invariant

  ghost predicate SizeOk(p: Setup, size: nat, after: After)
  {
    size <= p.maxSize && (after.Place? ==> p.Offers(after.pkt) && size == after.pkt.span + 2)
  }

  ghost predicate SenderOk(p: Setup, s: State)
  {
    match s.tx
    case Idle => true
    case Check(size, after) => SizeOk(p, size, after)
    case Stop(size, after) => SizeOk(p, size, after)
    case Recheck(size, after) => SizeOk(p, size, after)
    case Reprieve(after) => after.Place? ==> p.Offers(after.pkt) && after.pkt.span + 2 <= Unused(p, s)
    case Fill(pkt) => p.Offers(pkt) && pkt.span + 2 <= Unused(p, s)
    case Map(pkt) => p.Offers(pkt) && pkt.span + 1 <= Unused(p, s)
  }

  function Bound(p: Setup): nat { if p.maxSize < TxSpec.TX_WAKE_THRESHOLD then TxSpec.TX_WAKE_THRESHOLD else p.maxSize }

  ghost predicate Inv(p: Setup, s: State)
  {
    && AllOffered(p, s.queue) && Unused(p, s) >= 0 && SenderOk(p, s) && (s.cl.Publish? ==> s.cl.n <= |s.queue|)
    && (s.stopped ==> s.tx.Idle? || s.tx.Recheck? || s.tx.Reprieve?)
    && (s.stopped && s.tx.Idle? && !Committed(p, s) ==> Unused(p, s) < Bound(p))
  }

  lemma TxKeepsInv(p: Setup, s: State, s': State)
    requires p.Valid() && Inv(p, s) && TxStep(p, s, s')
    ensures Inv(p, s')
  {
    if s.tx.Map? {
      SpansAppend(s.queue, s.tx.pkt);
    }
  }

  lemma PublishKeepsInv(p: Setup, s: State, n: nat)
    requires p.Valid() && !p.zeroSegs && Inv(p, s) && s.cl == Publish(n)
    ensures Inv(p, s.(queue := s.queue[n..], cl := if U32(Segs(s.queue[..n])) != 0 then Threshold else Rest))
  {
    SpansDrop(s.queue, n);
    SpansPrefix(s.queue, n);
    SegsBound(p, s.queue[..n]);
  }

  lemma StepKeepsInv(p: Setup, s: State, s': State)
    requires p.Valid() && !p.zeroSegs && Inv(p, s) && Step(p, s, s')
    ensures Inv(p, s')
  {
    if TxStep(p, s, s') {
      TxKeepsInv(p, s, s');
    } else if s.cl.Publish? {
      PublishKeepsInv(p, s, s.cl.n);
    }
  }

  lemma {:induction false} RunKeepsInv(p: Setup, tr: seq<State>)
    requires p.Valid() && !p.zeroSegs && IsRun(p, tr)
    ensures Inv(p, tr[|tr| - 1])
  {
    if |tr| > 1 {
      RunKeepsInv(p, tr[..|tr| - 1]);
      StepKeepsInv(p, tr[|tr| - 2], tr[|tr| - 1]);
    }
  }

  // ---------------------------------------------------------------- exactly when no wake-up is lost

  /** Every packet counts for a segment, the threshold can be met, and so can the largest request. */
  predicate Sound(p: Setup)
  {
    !p.zeroSegs && TxSpec.TX_WAKE_THRESHOLD <= p.count - 1 && p.maxSize <= p.count - 1
  }

  lemma SoundIsEnough(p: Setup, s: State)
    requires p.Valid() && Sound(p) && Reachable(p, s)
    ensures Awake(p, s)
    ensures Inv(p, s)
  {
    var tr :| IsRun(p, tr) && tr[|tr| - 1] == s;
    RunKeepsInv(p, tr);
  }

  lemma Extend(p: Setup, s: State, s': State)
    requires Reachable(p, s) && Step(p, s, s')
    ensures Reachable(p, s')
  {
    var tr :| IsRun(p, tr) && tr[|tr| - 1] == s;
    var tr' := tr + [s'];
    assert tr == tr'[..|tr|];
    assert IsRun(p, tr') && tr'[|tr'| - 1] == s';
  }

  lemma Started(p: Setup)
    ensures Reachable(p, START)
  {
    assert IsRun(p, [START]) && [START][|[START]| - 1] == START;
  }

  /** A frame is offered; it is told to stop if there is no room. */
  lemma Refused(p: Setup, s: State, pkt: Pkt)
    requires Reachable(p, s) && s.tx.Idle? && !s.stopped && p.Offers(pkt) && Unused(p, s) < pkt.span + 2
    ensures Reachable(p, s.(stopped := true))
  {
    var s1 := s.(tx := Check(pkt.span + 2, Place(pkt)));
    Extend(p, s, s1);
    var s2 := s1.(tx := Stop(pkt.span + 2, Place(pkt)));
    Extend(p, s1, s2);
    var s3 := s2.(stopped := true, tx := Recheck(pkt.span + 2, Place(pkt)));
    Extend(p, s2, s3);
    Extend(p, s3, s.(stopped := true));
  }

  /** A frame that fits is placed; the check after it stops the queue if fewer than DESC_NEEDED slots are left. */
  lemma Placed(p: Setup, s: State, pkt: Pkt)
    requires p.Valid() && Reachable(p, s) && s.tx.Idle? && !s.stopped && p.Offers(pkt) && Unused(p, s) >= pkt.span + 2
    ensures var s' := s.(queue := s.queue + [pkt]);
            Reachable(p, if Unused(p, s') < TxSpec.DESC_NEEDED then s'.(stopped := true) else s')
  {
    var s1 := s.(tx := Check(pkt.span + 2, Place(pkt)));
    Extend(p, s, s1);
    var s2 := s1.(tx := Fill(pkt));
    Extend(p, s1, s2);
    var s' := s.(queue := s.queue + [pkt]);
    Extend(p, s2, s.(tx := Map(pkt)));
    var s3 := s'.(tx := Check(TxSpec.DESC_NEEDED, Return));
    Extend(p, s.(tx := Map(pkt)), s3);
    if Unused(p, s') < TxSpec.DESC_NEEDED {
      var s4 := s3.(tx := Stop(TxSpec.DESC_NEEDED, Return));
      Extend(p, s3, s4);
      var s5 := s4.(stopped := true, tx := Recheck(TxSpec.DESC_NEEDED, Return));
      Extend(p, s4, s5);
      Extend(p, s5, s'.(stopped := true));
    } else {
      Extend(p, s3, s');
    }
  }

  /** Frames of `pkt`'s kind fill the ring until the queue is stopped. */
  lemma {:induction false} FillUp(p: Setup, s: State, pkt: Pkt)
    requires p.Valid() && Reachable(p, s) && s.tx.Idle? && s.cl.Rest? && p.Offers(pkt) && !s.stopped
    requires forall i :: 0 <= i < |s.queue| ==> s.queue[i] == pkt
    requires Unused(p, s) >= 0
    ensures exists q :: Reachable(p, State(q, true, Idle, Rest)) && forall i :: 0 <= i < |q| ==> q[i] == pkt
    decreases Unused(p, s)
  {
    if Unused(p, s) < pkt.span + 2 {
      Refused(p, s, pkt);
      assert Reachable(p, State(s.queue, true, Idle, Rest));
    } else {
      Placed(p, s, pkt);
      SpansAppend(s.queue, pkt);
      var s' := s.(queue := s.queue + [pkt]);
      if Unused(p, s') < TxSpec.DESC_NEEDED {
        assert Reachable(p, State(s'.queue, true, Idle, Rest));
      } else {
        FillUp(p, s', pkt);
      }
    }
  }

  /** Reclaiming the whole queue of a stopped ring without waking it. */
  lemma DrainedAsleep(p: Setup, q: seq<Pkt>)
    requires p.Valid() && Reachable(p, State(q, true, Idle, Rest))
    requires U32(Segs(q)) == 0 || p.count - 1 < TxSpec.TX_WAKE_THRESHOLD
    ensures Reachable(p, State([], true, Idle, Rest))
  {
    var s := State(q, true, Idle, Rest);
    Extend(p, s, s.(cl := Publish(|q|)));
    assert q[..|q|] == q && q[|q|..] == [];
    var s2 := State([], true, Idle, if U32(Segs(q)) != 0 then Threshold else Rest);
    Extend(p, s.(cl := Publish(|q|)), s2);
    if s2.cl.Threshold? {
      Extend(p, s2, s2.(cl := Rest));
    }
  }

  lemma {:induction false} NoSegs(q: seq<Pkt>)
    requires forall i :: 0 <= i < |q| ==> q[i].segs == 0
    ensures Segs(q) == 0
  {
    if q != [] {
      NoSegs(q[1..]);
    }
  }

  /** If any of the three conditions fails, some run ends asleep: stopped, with nothing left to reclaim. */
  lemma SoundIsNeeded(p: Setup)
    requires p.Valid() && !Sound(p)
    ensures exists s :: Reachable(p, s) && !Awake(p, s)
  {
    Started(p);
    var asleep := State([], true, Idle, Rest);
    if p.maxSize > p.count - 1 {
      Refused(p, START, Pkt(p.maxSize - 2, 1));
    } else {
      var pkt := Pkt(2, if p.zeroSegs then 0 else 1);
      FillUp(p, START, pkt);
      var q :| Reachable(p, State(q, true, Idle, Rest)) && forall i :: 0 <= i < |q| ==> q[i] == pkt;
      if p.zeroSegs { NoSegs(q); }
      DrainedAsleep(p, q);
    }
    assert Reachable(p, asleep) && !Awake(p, asleep);
  }

  /** No run loses a wake-up if and only if the set-up is sound. */
  lemma NoLostWakeUp(p: Setup)
    requires p.Valid()
    ensures (forall s :: Reachable(p, s) ==> Awake(p, s)) <==> Sound(p)
  {
    if Sound(p) {
      forall s | Reachable(p, s)
        ensures Awake(p, s)
      {
        SoundIsEnough(p, s);
      }
    } else {
      SoundIsNeeded(p);
    }
  }

  /** Where the cleaner ends alone from `Publish(n)`. */
  function CleanerAlone(p: Setup, s: State, n: nat): State
    requires n <= |s.queue|
  {
    var s' := s.(queue := s.queue[n..], cl := Rest);
    if U32(Segs(s.queue[..n])) != 0 && Unused(p, s') >= TxSpec.TX_WAKE_THRESHOLD then s'.(stopped := false) else s'
  }

  lemma CleanerAloneSteps(p: Setup, s: State, n: nat)
    requires Reachable(p, s) && s.cl == Publish(n) && n <= |s.queue|
    ensures Reachable(p, CleanerAlone(p, s, n))
  {
    var s1 := s.(queue := s.queue[n..], cl := if U32(Segs(s.queue[..n])) != 0 then Threshold else Rest);
    Extend(p, s, s1);
    if s1.cl.Threshold? {
      var s2 := s1.(cl := if Unused(p, s1) >= TxSpec.TX_WAKE_THRESHOLD then TestStopped else Rest);
      Extend(p, s1, s2);
      if s2.cl.TestStopped? {
        var s3 := s2.(cl := if s.stopped then Wake else Rest);
        Extend(p, s2, s3);
        if s.stopped {
          Extend(p, s3, s3.(stopped := false, cl := Rest));
        }
      }
    }
  }

  /** In a sound set-up a stopped, idle queue is woken by the pass that reclaims all its packets. */
  lemma DrainWakes(p: Setup, s: State)
    requires p.Valid() && Sound(p) && Reachable(p, s) && s.stopped && s.tx.Idle? && s.cl.Rest?
    ensures s.queue != []
    ensures Reachable(p, s.(cl := Publish(|s.queue|)))
    ensures CleanerAlone(p, s.(cl := Publish(|s.queue|)), |s.queue|) == State([], false, Idle, Rest)
    ensures Reachable(p, State([], false, Idle, Rest))
  {
    SoundIsEnough(p, s);
    Extend(p, s, s.(cl := Publish(|s.queue|)));
    CleanerAloneSteps(p, s.(cl := Publish(|s.queue|)), |s.queue|);
    assert s.queue[..|s.queue|] == s.queue && s.queue[|s.queue|..] == [];
    SegsBound(p, s.queue);
  }
}
