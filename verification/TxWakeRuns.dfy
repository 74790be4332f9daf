/** The transmit ring as TxWake sees it: sending a frame and a clean pass are steps of its transmitter and cleaner. */
module TxWakeRuns {
  import opened Util
  import opened TxSpec
  import TxGather
  import R = TxRuns
  import W = TxWake

  // ---------------------------------------------------------------- what TxWake sees of the ring

  function PktOf(p: Packet): W.Pkt { W.Pkt(|p|, p[0].start.value.segs) }

  function PktsTo(q: seq<Packet>, n: nat): (r: seq<W.Pkt>)
    requires n <= |q|
    ensures |r| == n
  {
    if n == 0 then [] else PktsTo(q, n - 1) + [PktOf(q[n - 1])]
  }

  /** The ring between two calls. */
  function Seen(s: TxState): W.State { W.State(PktsTo(s.queue, |s.queue|), s.stopped, W.Idle, W.Rest) }

  lemma {:induction false} PktAt(q: seq<Packet>, n: nat, k: nat)
    requires k < n <= |q|
    ensures PktsTo(q, n)[k] == PktOf(q[k])
  {
    if k < n - 1 {
      PktAt(q, n - 1, k);
    }
  }

  lemma PktsSplit(q: seq<Packet>, n: nat)
    requires n <= |q|
    ensures PktsTo(q, |q|)[..n] == PktsTo(q, n)
    ensures PktsTo(q, |q|)[n..] == PktsTo(q[n..], |q| - n)
  {
    forall k | 0 <= k < |q|
      ensures PktsTo(q, |q|)[k] == PktOf(q[k])
      ensures k < n ==> PktsTo(q, n)[k] == PktOf(q[k])
      ensures k >= n ==> PktsTo(q[n..], |q| - n)[k - n] == PktOf(q[k])
    {
      PktAt(q, |q|, k);
      if k < n { PktAt(q, n, k); } else { PktAt(q[n..], |q| - n, k - n); }
    }
  }

  lemma {:induction false} PktsPrefix(q: seq<Packet>, p: Packet, n: nat)
    requires n <= |q|
    ensures PktsTo(q + [p], n) == PktsTo(q, n)
  {
    if n > 0 {
      PktsPrefix(q, p, n - 1);
    }
  }

  /** Slots and segments are counted alike. */
  lemma {:induction false} PktSums(q: seq<Packet>, n: nat)
    requires n <= |q|
    ensures W.Spans(PktsTo(q, n)) == |FlattenTo(q, n)|
    ensures W.Segs(PktsTo(q, n)) == SegsTo(q, n)
  {
    if n > 0 {
      PktSums(q, n - 1);
      W.SpansAppend(PktsTo(q, n - 1), PktOf(q[n - 1]));
      W.SegsAppend(PktsTo(q, n - 1), PktOf(q[n - 1]));
    }
  }

  lemma UnusedSeen(p: W.Setup, s: TxState)
    ensures W.Unused(p, Seen(s)) == Unused(s, p.count)
  {
    PktSums(s.queue, |s.queue|);
  }

  // ---------------------------------------------------------------- the calls are steps of TxWake

  /** A clean pass is the cleaner's own steps, from publishing next_to_clean to waking the queue. */
  lemma CleanIsCleaner(p: W.Setup, s: TxState)
    requires W.Reachable(p, Seen(s))
    ensures var s' := CleanIrq(s, p.count, false, false, true).0;
            var n := |s.queue| - |s'.queue|;
            && 0 <= n <= |s.queue|
            && Seen(s') == W.CleanerAlone(p, Seen(s).(cl := W.Publish(n)), n)
            && W.Reachable(p, Seen(s').(cl := W.Rest))
  {
    hide FlattenTo, SegsTo, W.Segs, W.Spans, W.Reachable, PktsTo;
    var n := RetireCount(s.queue, p.count / 2);
    var s' := CleanIrq(s, p.count, false, false, true).0;
    assert s'.queue == s.queue[n..];
    PktsSplit(s.queue, n);
    PktSums(s.queue, n);
    UnusedSeen(p, s');
    var from := Seen(s).(cl := W.Publish(n));
    W.Extend(p, Seen(s), from);
    W.CleanerAloneSteps(p, from, n);
  }

  /** A frame the set-up allows. */
  ghost predicate Fits(p: W.Setup, skb: Skb, offload: Offload)
  {
    Needed(skb) + 3 <= p.maxSize && GsoSegs(offload) <= 0xFFFF && (GsoSegs(offload) == 0 ==> p.zeroSegs)
  }

  /** Offering a frame is the transmitter's own steps, whether it is queued, dropped or refused. */
  lemma XmitIsSender(p: W.Setup, s: TxState, skb: Skb, lldp: bool, vlanMissing: bool, offload: Offload, dma: seq<Option<nat>>)
    requires p.Valid() && W.Reachable(p, Seen(s)) && !s.stopped && XmitInput(skb, dma) && Fits(p, skb, offload)
    ensures W.Reachable(p, Seen(Xmit(s, p.count, skb, lldp, vlanMissing, offload, dma).0))
  {
    hide FlattenTo, W.Spans, W.Reachable, PktsTo, MapLog, UnwindTo, PartialSlots, Frame, Needed;
    var s' := Xmit(s, p.count, skb, lldp, vlanMissing, offload, dma).0;
    var pkt := W.Pkt(Needed(skb) + 1, GsoSegs(offload));
    TxGather.NeedsOne(skb);
    UnusedSeen(p, s);
    UnusedSeen(p, s');
    if s'.queue != s.queue {
      FrameSeen(skb, offload, dma);
      QueuedSeen(s.queue, Frame(skb, offload, dma));
      W.Placed(p, Seen(s), pkt);
    } else if s'.stopped {
      W.Refused(p, Seen(s), pkt);
    }
  }

  lemma QueuedSeen(q: seq<Packet>, f: Packet)
    ensures PktsTo(q + [f], |q + [f]|) == PktsTo(q, |q|) + [PktOf(f)]
  {
    PktsPrefix(q, f, |q|);
  }

  lemma FrameSeen(skb: Skb, offload: Offload, dma: seq<Option<nat>>)
    requires XmitInput(skb, dma) && MappedCount(dma) == |dma|
    ensures IsPacket(Frame(skb, offload, dma)) && PktOf(Frame(skb, offload, dma)) == W.Pkt(Needed(skb) + 1, GsoSegs(offload))
  {
    hide PartialSlots, Needed, IsPacket;
    FrameIsPacket(skb, offload, dma);
  }

  /** A write-back is not seen. */
  lemma CompleteUnseen(s: TxState, k: nat, d: TxDesc)
    requires k < |s.queue| && d.dd
    ensures Seen(Complete(s, k, d)) == Seen(s)
  {
    forall i | 0 <= i < |s.queue|
      ensures PktsTo(Complete(s, k, d).queue, |s.queue|)[i] == PktsTo(s.queue, |s.queue|)[i]
    {
      PktAt(s.queue, |s.queue|, i);
      PktAt(Complete(s, k, d).queue, |s.queue|, i);
    }
  }

  // ---------------------------------------------------------------- every run

  /** The stack offers frames only while the queue is not stopped; the carrier stays up, and nothing is torn down. */
  ghost predicate Allowed(p: W.Setup, s: TxState, e: R.Event)
  {
    match e
    case Send(skb, _, _, offload, _) => !s.stopped && Fits(p, skb, offload)
    case SendXdp(_, _, _) => false
    case Completes(_, _) => true
    case Clean(_, carrier) => carrier
    case Teardown => false
  }

  ghost predicate Regular(p: W.Setup, es: seq<R.Event>)
  {
    es == [] || (Regular(p, es[..|es| - 1]) && Allowed(p, R.Run(p.count, false, es[..|es| - 1]), es[|es| - 1]))
  }

  lemma StepIsSeen(p: W.Setup, s: TxState, e: R.Event)
    requires p.Valid() && W.Reachable(p, Seen(s)) && Allowed(p, s, e)
    ensures W.Reachable(p, Seen(R.Step(s, p.count, false, e)))
  {
    hide W.Reachable;
    if R.Possible(s, false, e) {
      match e
      case Send(skb, lldp, vlan, offload, dma) => XmitIsSender(p, s, skb, lldp, vlan, offload, dma);
      case Completes(k, d) => CompleteUnseen(s, k, d);
      case Clean(down, _) => if !down { CleanIsCleaner(p, s); }
    }
  }

  /** Every such run of the ring is a run of TxWake. */
  lemma {:induction false} RunIsSeen(p: W.Setup, es: seq<R.Event>)
    requires p.Valid() && Regular(p, es)
    ensures W.Reachable(p, Seen(R.Run(p.count, false, es)))
  {
    hide W.Reachable;
    if es == [] {
      W.Started(p);
    } else {
      RunIsSeen(p, es[..|es| - 1]);
      StepIsSeen(p, R.Run(p.count, false, es[..|es| - 1]), es[|es| - 1]);
    }
  }

  /** In a sound set-up a stopped ring always has packets to reclaim, and once hardware has completed them all, one
      clean pass empties the ring and wakes it. */
  lemma StoppedRingWakes(p: W.Setup, es: seq<R.Event>)
    requires p.Valid() && W.Sound(p) && Regular(p, es)
    ensures var s := R.Run(p.count, false, es);
            && (s.stopped ==> s.queue != [])
            && ((forall k :: 0 <= k < |s.queue| ==> Done(s.queue[k])) ==>
                  var s' := CleanIrq(s, p.count, false, false, true).0; s'.queue == [] && !s'.stopped)
  {
    var s := R.Run(p.count, false, es);
    RunIsSeen(p, es);
    W.SoundIsEnough(p, Seen(s));
    if forall k :: 0 <= k < |s.queue| ==> Done(s.queue[k]) {
      AllRetired(p, s);
      CleanIsCleaner(p, s);
      var s' := CleanIrq(s, p.count, false, false, true).0;
      W.SoundIsEnough(p, Seen(s'));
    }
  }

  /** The budget covers every packet the ring can hold. */
  lemma AllRetired(p: W.Setup, s: TxState)
    requires p.Valid() && W.Inv(p, Seen(s)) && (forall k :: 0 <= k < |s.queue| ==> Done(s.queue[k]))
    ensures CleanIrq(s, p.count, false, false, true).0.queue == []
  {
    W.SegsBound(p, Seen(s).queue);
    assert |s.queue| <= p.count / 2;
    RetireCountIs(s.queue, p.count / 2, |s.queue|);
  }
}
