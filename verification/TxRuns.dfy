/** Every run of the transmit ring gives nothing back twice or before it was taken, and once torn down holds nothing. */
module TxRuns {
  import opened Util
  import opened TxSpec
  import opened TxConservation

  // ---------------------------------------------------------------- one step each

  lemma {:induction false} SameRecs(a: seq<Slot>, b: seq<Slot>, n: nat)
    requires n <= |a| && n <= |b| && forall j :: 0 <= j < n ==> a[j].rec == b[j].rec
    ensures UnmapsTo(a, n) == UnmapsTo(b, n)
  {
    if n > 0 {
      SameRecs(a, b, n - 1);
    }
  }

  /** Retiring a frame undoes what mapping it made. */
  lemma FrameUnmapped(skb: Skb, offload: Offload, dma: seq<Option<nat>>)
    requires XmitInput(skb, dma) && MappedCount(dma) == |dma|
    ensures var f := Frame(skb, offload, dma); UnmapsTo(f, |f|) == UnmapLog(skb, dma, |dma|)
  {
    var f, p := Frame(skb, offload, dma), PartialSlots(skb, dma, PayLen(skb, offload), |dma|);
    forall j | 0 <= j < |f|
      ensures f[j].rec == p[j].rec
    {
      assert j > 0 ==> f[1..][j - 1] == p[1..][j - 1];
    }
    SameRecs(f, p, |f|);
    PartialUnmaps(skb, dma, PayLen(skb, offload), |dma|);
  }

  /** Taking a buffer with n mappings, then undoing them and freeing it, or the other way round. */
  lemma TakenCancels(skb: Skb, dma: seq<Option<nat>>, n: nat, k: Key)
    requires n <= |skb.frags| + 1 && n <= |dma| && forall i :: 0 <= i < n ==> dma[i].Some?
    ensures Live([Took(skb.id)] + MapLog(skb, dma, n), k) + Live([Freed(skb.id)] + UnmapLog(skb, dma, n), k) == 0
  {
    LiveAppend([Took(skb.id)], MapLog(skb, dma, n), k);
    LiveAppend([Freed(skb.id)], UnmapLog(skb, dma, n), k);
    LiveOne(Took(skb.id), k);
    LiveOne(Freed(skb.id), k);
    MapsCancel(skb, dma, n, k);
  }

  lemma TakenGains(skb: Skb, dma: seq<Option<nat>>, n: nat)
    requires n <= |skb.frags| + 1 && n <= |dma| && forall i :: 0 <= i < n ==> dma[i].Some?
    ensures forall i :: 0 <= i < |[Took(skb.id)] + MapLog(skb, dma, n)| ==> IsGain(([Took(skb.id)] + MapLog(skb, dma, n))[i])
  {
    MapsCancel(skb, dma, n, Buffer(0));
  }

  lemma AcceptKeepsBalance(s: TxState, skb: Skb, offload: Offload, dma: seq<Option<nat>>)
    requires Balanced(s) && XmitInput(skb, dma) && MappedCount(dma) == |dma| && IsPacket(Frame(skb, offload, dma))
    ensures Balanced(s.(queue := s.queue + [Frame(skb, offload, dma)], log := s.log + [Took(skb.id)] + MapLog(skb, dma, |dma|)))
  {
    var g, f := [Took(skb.id)] + MapLog(skb, dma, |dma|), Frame(skb, offload, dma);
    TakenGains(skb, dma, |dma|);
    FrameUnmapped(skb, offload, dma);
    forall k
      ensures Live(g, k) + Live(PacketLog(f, |f|), k) == 0
    {
      TakenCancels(skb, dma, |dma|, k);
    }
    PushKeepsBalance(s, g, f);
    Regroup(s.log, [Took(skb.id)], MapLog(skb, dma, |dma|));
  }

  lemma DropKeepsBalance(s: TxState, id: nat)
    requires Balanced(s)
    ensures Balanced(Drop(s, id))
  {
    forall k
      ensures Live([Took(id)], k) + Live([Freed(id)], k) == 0
    {
      LiveOne(Took(id), k);
      LiveOne(Freed(id), k);
    }
    RoundTripKeepsBalance(s, [Took(id)], [Freed(id)]);
  }

  /** What a map that failed after n buffers undoes is what it made. */
  lemma UnwindCancels(skb: Skb, dma: seq<Option<nat>>, paylen: nat, n: nat, k: Key)
    requires skb.NonEmpty() && n <= |skb.frags| + 1 && n <= |dma| && forall i :: 0 <= i < n ==> dma[i].Some?
    ensures var p := PartialSlots(skb, dma, paylen, n);
            Live([Took(skb.id)] + MapLog(skb, dma, n), k) + Live(UnwindTo(p, |p|) + [Freed(skb.id)], k) == 0
  {
    var p := PartialSlots(skb, dma, paylen, n);
    UnwindSame(p, |p|, k);
    if n > 0 {
      PartialUnmaps(skb, dma, paylen, n);
    } else {
      UnmapsOfOne(Slot(None, None, CONTEXT));
    }
    LiveAppend(UnwindTo(p, |p|), [Freed(skb.id)], k);
    LiveAppend([Freed(skb.id)], UnmapLog(skb, dma, n), k);
    TakenCancels(skb, dma, n, k);
  }

  lemma FailedMapKeepsBalance(s: TxState, skb: Skb, dma: seq<Option<nat>>, paylen: nat, n: nat)
    requires Balanced(s) && skb.NonEmpty() && n <= |skb.frags| + 1 && n <= |dma| && forall i :: 0 <= i < n ==> dma[i].Some?
    ensures var p := PartialSlots(skb, dma, paylen, n);
            Balanced(s.(log := s.log + [Took(skb.id)] + MapLog(skb, dma, n) + UnwindTo(p, |p|) + [Freed(skb.id)]))
  {
    var p := PartialSlots(skb, dma, paylen, n);
    var g, l := [Took(skb.id)] + MapLog(skb, dma, n), UnwindTo(p, |p|) + [Freed(skb.id)];
    TakenGains(skb, dma, n);
    UnmapsAreLosses(p, |p|);
    forall k
      ensures Live(g, k) + Live(l, k) == 0
    {
      UnwindCancels(skb, dma, paylen, n, k);
    }
    RoundTripKeepsBalance(s, g, l);
    Regroup(s.log, [Took(skb.id)], MapLog(skb, dma, n));
    Regroup(s.log + g, UnwindTo(p, |p|), [Freed(skb.id)]);
  }

  /** Room for the frame and the gap: three slots are asked for and one is used, so two stay free. */
  lemma RoomIsKept(s: TxState, count: nat, skb: Skb, offload: Offload, dma: seq<Option<nat>>)
    requires XmitInput(skb, dma) && MappedCount(dma) == |dma| && Unused(s, count) >= Needed(skb) + 3
    requires IsPacket(Frame(skb, offload, dma))
    ensures var s' := s.(queue := s.queue + [Frame(skb, offload, dma)]);
            Unused(s', count) == Unused(s, count) - (Needed(skb) + 1) >= 2
  {
    FrameIsPacket(skb, offload, dma);
    PushedFlat(s.queue, Frame(skb, offload, dma));
  }

  ghost predicate Accepted(s: TxState, s': TxState) { |s'.queue| == |s.queue| + 1 }

  lemma CountOne(a: Act, x: Act)
    ensures Count([a], x) == if a == x then 1 else 0
  {
    assert CountTo([a], 1, x) == CountTo([a], 0, x) + if a == x then 1 else 0;
  }

  /** Mapping takes and frees no buffer, ... */
  lemma {:induction false} MapsTakeNothing(skb: Skb, dma: seq<Option<nat>>, n: nat, a: Act)
    requires n <= |skb.frags| + 1 && n <= |dma| && (forall i :: 0 <= i < n ==> dma[i].Some?) && (a.Took? || a.Freed?)
    ensures Count(MapLog(skb, dma, n), a) == 0
  {
    if n > 0 {
      MapsTakeNothing(skb, dma, n - 1, a);
      CountAppend(MapLog(skb, dma, n - 1), [Mapped(BufferMapping(skb, dma, n - 1))], 1, a);
      CountOne(Mapped(BufferMapping(skb, dma, n - 1)), a);
    }
  }

  /** ... and neither does undoing it. */
  lemma {:induction false} UnwindTakesNothing(s: seq<Slot>, n: nat, a: Act)
    requires n <= |s| && (a.Took? || a.Freed?)
    ensures Count(UnwindTo(s, n), a) == 0
  {
    if n > 0 {
      UnwindTakesNothing(s, n - 1, a);
      var u := UnmapOf(s[n - 1].rec);
      CountAppend(u, UnwindTo(s, n - 1), |UnwindTo(s, n - 1)|, a);
      if u != [] { CountOne(u[0], a); }
    }
  }

  /** How often a buffer is taken and freed when frame `id` is taken, `maps` made, `undone` undone and the frame freed. */
  lemma TakenCounts(log: seq<Act>, id: nat, maps: seq<Act>, undone: seq<Act>, freed: bool, a: Act)
    requires Count(maps, a) == 0 && Count(undone, a) == 0
    ensures Count(log + [Took(id)] + maps + undone + if freed then [Freed(id)] else [], a)
         == Count(log, a) + (if a == Took(id) then 1 else 0) + if freed && a == Freed(id) then 1 else 0
  {
    var last := if freed then [Freed(id)] else [];
    CountAppend(log + [Took(id)] + maps + undone, last, |last|, a);
    CountAppend(log + [Took(id)] + maps, undone, |undone|, a);
    CountAppend(log + [Took(id)], maps, |maps|, a);
    CountAppend(log, [Took(id)], 1, a);
    CountOne(Took(id), a);
    CountOne(Freed(id), a);
  }

  /** The frame is the driver's exactly when the stack is told so: taken once unless busy, and freed once again
      unless it was queued. */
  lemma XmitOwnsFrame(s: TxState, count: nat, skb: Skb, lldp: bool, vlanMissing: bool, offload: Offload, dma: seq<Option<nat>>, a: Act)
    requires XmitInput(skb, dma) && (a.Took? || a.Freed?)
    ensures var (s', status) := Xmit(s, count, skb, lldp, vlanMissing, offload, dma);
            Count(s'.log, a) == Count(s.log, a) + (if status == Ok && a == Took(skb.id) then 1 else 0)
                              + if status == Ok && !Accepted(s, s') && a == Freed(skb.id) then 1 else 0
  {
    hide UnwindTo, MapLog, PartialSlots, Frame, FlattenTo;
    var n := MappedCount(dma);
    var slots := PartialSlots(skb, dma, PayLen(skb, offload), n);
    TakenCounts(s.log, skb.id, [], [], true, a);
    assert s.log + [Took(skb.id)] + [] + [] + [Freed(skb.id)] == s.log + [Took(skb.id)] + [Freed(skb.id)];
    MapsTakeNothing(skb, dma, n, a);
    UnwindTakesNothing(slots, |slots|, a);
    TakenCounts(s.log, skb.id, MapLog(skb, dma, n), UnwindTo(slots, |slots|), true, a);
    TakenCounts(s.log, skb.id, MapLog(skb, dma, n), [], false, a);
    assert s.log + [Took(skb.id)] + MapLog(skb, dma, n) + [] + [] == s.log + [Took(skb.id)] + MapLog(skb, dma, n);
  }

  lemma XmitKeepsBooks(s: TxState, count: nat, xdp: bool, skb: Skb, lldp: bool, vlanMissing: bool, offload: Offload, dma: seq<Option<nat>>)
    requires Inv(s, count, xdp) && !xdp && XmitInput(skb, dma)
    ensures Inv(Xmit(s, count, skb, lldp, vlanMissing, offload, dma).0, count, xdp)
  {
    var n := MappedCount(dma);
    DropKeepsBalance(s, skb.id);
    if !lldp && Unused(s, count) >= Needed(skb) + 3 && !vlanMissing && !offload.Fails? {
      if n < |dma| {
        FailedMapKeepsBalance(s, skb, dma, PayLen(skb, offload), n);
      } else {
        FrameIsPacket(skb, offload, dma);
        AcceptKeepsBalance(s, skb, offload, dma);
        RoomIsKept(s, count, skb, offload, dma);
      }
    }
  }

  /** xmit_frame_ring keeps the books whatever happens.  It is busy exactly when the frame and three slots more do
      not fit, and otherwise takes the frame; one it queues leaves at least two slots free, and stops the queue if
      it leaves fewer than 21. */
  lemma XmitKeepsInv(s: TxState, count: nat, xdp: bool, skb: Skb, lldp: bool, vlanMissing: bool, offload: Offload, dma: seq<Option<nat>>)
    requires Inv(s, count, xdp) && !xdp && XmitInput(skb, dma)
    ensures var (s', status) := Xmit(s, count, skb, lldp, vlanMissing, offload, dma);
            && Inv(s', count, xdp)
            && (status == Busy <==> !lldp && Unused(s, count) < Needed(skb) + 3)
            && (status == Busy ==> s' == s.(stopped := true))
            && (status == Ok ==> Count(s'.log, Took(skb.id)) == Count(s.log, Took(skb.id)) + 1)
            && (status == Ok ==> Count(s'.log, Freed(skb.id)) == Count(s.log, Freed(skb.id)) + if Accepted(s, s') then 0 else 1)
            && (Accepted(s, s') ==> Unused(s', count) == Unused(s, count) - (Needed(skb) + 1) >= 2)
            && (Accepted(s, s') ==> MappedCount(dma) == |dma| && s'.queue == s.queue + [Frame(skb, offload, dma)])
            && (Accepted(s, s') ==> (s'.stopped <==> s.stopped || Unused(s', count) < 21))
            && (s'.packets, s'.bytes, s'.primed) == (s.packets, s.bytes, s.primed)
            && (!Accepted(s, s') ==> s'.queue == s.queue && (status == Ok ==> s'.stopped == s.stopped))
            && (Accepted(s, s') <==> !lldp && Unused(s, count) >= Needed(skb) + 3 && !vlanMissing && !offload.Fails?
                                     && MappedCount(dma) == |dma|)
  {
    hide Inv, Count, MapLog, UnwindTo, PartialSlots, Frame, Flatten, Needed, MappedCount;
    XmitKeepsBooks(s, count, xdp, skb, lldp, vlanMissing, offload, dma);
    XmitOwnsFrame(s, count, skb, lldp, vlanMissing, offload, dma, Took(skb.id));
    XmitOwnsFrame(s, count, skb, lldp, vlanMissing, offload, dma, Freed(skb.id));
    if !lldp && Unused(s, count) >= Needed(skb) + 3 && !vlanMissing && !offload.Fails? && MappedCount(dma) == |dma| {
      FrameIsPacket(skb, offload, dma);
      RoomIsKept(s, count, skb, offload, dma);
    }
  }

  lemma XdpCancels(primed: bool, data: nat, len: nat, addr: nat, k: Key)
    requires len > 0
    ensures var p := XdpFrame(primed, data, len, addr);
            Live([Mapped(Mapping(Single, addr, len))] + [Took(data)], k) + Live(PacketLog(p, |p|), k) == 0
  {
    var p, m := XdpFrame(primed, data, len, addr), Mapping(Single, addr, len);
    LiveAppend([Mapped(m)], [Took(data)], k);
    LiveOne(Mapped(m), k);
    LiveOne(Took(data), k);
    assert UnmapsTo(p, 1) == UnmapsTo(p, 0) + [Unmapped(m)];
    assert PacketLog(p, |p|) == [Freed(data)] + [Unmapped(m)];
    LiveAppend([Freed(data)], [Unmapped(m)], k);
    LiveOne(Freed(data), k);
    LiveOne(Unmapped(m), k);
  }

  lemma TwoMore(log: seq<Act>, a: Act, b: Act)
    requires a != b
    ensures Count(log + [a] + [b], a) == Count(log, a) + 1 && Count(log + [a] + [b], b) == Count(log, b) + 1
  {
    forall x | x == a || x == b
      ensures Count(log + [a] + [b], x) == Count(log, x) + 1
    {
      CountAppend(log + [a], [b], 1, x);
      CountAppend(log, [a], 1, x);
      CountOne(a, x);
      CountOne(b, x);
    }
  }

  /** xmit_xdp_ring keeps the books; a frame is taken exactly if a slot is free and its mapping succeeds, and one refused
      changes nothing. */
  lemma XmitXdpKeepsInv(s: TxState, count: nat, data: nat, len: nat, dma: Option<nat>)
    requires Inv(s, count, true) && len > 0 && count >= 3
    ensures var (s', sent) := XmitXdp(s, count, data, len, dma);
            && Inv(s', count, true) && (sent <==> Unused(s, count) > 0 && dma.Some?) && (!sent ==> s' == s)
            && (sent ==> s'.primed && s'.queue == s.queue + [XdpFrame(s.primed, data, len, dma.value)]
                         && (s'.stopped, s'.packets, s'.bytes) == (s.stopped, s.packets, s.bytes)
                         && Count(s'.log, Took(data)) == Count(s.log, Took(data)) + 1
                         && Count(s'.log, Mapped(Mapping(Single, dma.value, len))) == Count(s.log, Mapped(Mapping(Single, dma.value, len))) + 1)
  {
    if Unused(s, count) > 0 && dma.Some? {
      var p, m := XdpFrame(s.primed, data, len, dma.value), Mapping(Single, dma.value, len);
      var g := [Mapped(m)] + [Took(data)];
      forall k
        ensures Live(g, k) + Live(PacketLog(p, |p|), k) == 0
      {
        XdpCancels(s.primed, data, len, dma.value, k);
      }
      PushKeepsBalance(s, g, p);
      TwoMore(s.log, Mapped(m), Took(data));
      Regroup(s.log, [Mapped(m)], [Took(data)]);
      PushedFlat(s.queue, p);
      assert !s.primed ==> |Flatten(s.queue)| == 0;
    }
  }

  lemma WriteBackKeepsLog(p: Packet, d: TxDesc, n: nat)
    requires d.dd && n <= |p|
    ensures PacketLog(WriteBack(p, d), n) == PacketLog(p, n)
  {
    SameRecs(WriteBack(p, d), p, n);
  }

  lemma {:induction false} CompleteKeepsLog(q: seq<Packet>, k: nat, d: TxDesc, n: nat)
    requires k < |q| && d.dd && n <= |q|
    ensures RetireLog(q[k := WriteBack(q[k], d)], n) == RetireLog(q, n)
  {
    if n > 0 {
      CompleteKeepsLog(q, k, d, n - 1);
      WriteBackKeepsLog(q[k], d, |q[k]|);
      var p := q[k := WriteBack(q[k], d)][n - 1];
      assert PacketLog(p, |p|) == PacketLog(q[n - 1], |q[n - 1]|);
    }
  }

  lemma CompleteKeepsInv(s: TxState, count: nat, xdp: bool, k: nat, d: TxDesc)
    requires Inv(s, count, xdp) && k < |s.queue| && d.dd
    ensures Inv(Complete(s, k, d), count, xdp)
  {
    CompleteKeepsLog(s.queue, k, d, |s.queue|);
    FlattenComplete(s.queue, k, d, |s.queue|);
  }

  /** clean_tx_irq retires the longest completed prefix its budget covers, reports a full budget, and wakes a stopped
      queue exactly if it reclaimed segments and 42 slots are free; an adapter going down is left alone. */
  lemma CleanIsFifo(s: TxState, count: nat, xdp: bool, carrier: bool)
    requires Inv(s, count, xdp)
    ensures var (s', complete) := CleanIrq(s, count, xdp, false, carrier);
            var n := |s.queue| - |s'.queue|;
            && Inv(s', count, xdp)
            && 0 <= n <= count / 2 && s'.queue == s.queue[n..] && s'.log == s.log + RetireLog(s.queue, n)
            && (forall k :: 0 <= k < n ==> Done(s.queue[k]))
            && (n == |s.queue| || n == count / 2 || !Done(s.queue[n]))
            && (!complete <==> n == count / 2)
            && s'.bytes == s.bytes + BytesTo(s.queue, n) % 0x1_0000_0000
            && s'.packets == s.packets + SegsTo(s.queue, n) % 0x1_0000_0000
            && (s'.bytes == s.bytes + BytesTo(s.queue, n) <==> BytesTo(s.queue, n) < 0x1_0000_0000)
            && (s'.packets == s.packets + SegsTo(s.queue, n) <==> SegsTo(s.queue, n) < 0x1_0000_0000)
            && CleanIrq(s, count, xdp, true, carrier) == (s, true)
            && (s'.stopped <==> s.stopped && (xdp || !carrier || SegsTo(s.queue, n) % 0x1_0000_0000 == 0 || Unused(s', count) < 42))
  {
    hide Inv, FlattenTo, Flatten, RetireLog, BytesTo, SegsTo, U32;
    var n := RetireCount(s.queue, count / 2);
    CleanKeepsInv(s, count, xdp, carrier);
    RetireFits(s.queue, n);
    CutTo32(BytesTo(s.queue, n));
    CutTo32(SegsTo(s.queue, n));
  }

  lemma CutTo32(x: nat)
    ensures U32(x) == x % 0x1_0000_0000
    ensures U32(x) == x <==> x < 0x1_0000_0000
  {
  }

  lemma CleanKeepsInv(s: TxState, count: nat, xdp: bool, carrier: bool)
    requires Inv(s, count, xdp)
    ensures Inv(CleanIrq(s, count, xdp, false, carrier).0, count, xdp)
  {
    hide RetireLog, BytesTo, SegsTo, FlattenTo;
    var n := RetireCount(s.queue, count / 2);
    RetireKeepsBalance(s, n);
    RetireFits(s.queue, n);
  }

  lemma RetireFits(q: seq<Packet>, n: nat)
    requires n <= |q|
    ensures |Flatten(q[n..])| <= |Flatten(q)|
    ensures |q| - |q[n..]| == n
  {
    FlattenDrop(q, n, |q|);
  }

  /** clean_tx_ring leaves nothing live. */
  lemma DrainBalances(s: TxState, count: nat, xdp: bool)
    requires Inv(s, count, xdp) && count >= 3
    ensures Inv(CleanRing(s), count, xdp) && CleanRing(s) == s.(queue := [], log := CleanRing(s).log)
    ensures forall k :: Live(CleanRing(s).log, k) == 0
  {
    RetireKeepsBalance(s, |s.queue|);
    var t := CleanRing(s);
    assert s.queue[|s.queue|..] == [];
    assert RetireLog([], 0) == [];
    forall k
      ensures Live(t.log, k) == 0
    {
      assert Live(t.log, k) + Live(RetireLog([], 0), k) == 0;
    }
  }

  // ---------------------------------------------------------------- runs

  datatype Event =
    | Send(skb: Skb, lldp: bool, vlanMissing: bool, offload: Offload, dma: seq<Option<nat>>)
    | SendXdp(data: nat, len: nat, addr: Option<nat>)
    | Completes(k: nat, d: TxDesc)
    | Clean(down: bool, carrier: bool)
    | Teardown

  ghost predicate Possible(s: TxState, xdp: bool, e: Event)
  {
    match e
    case Send(skb, _, _, offload, dma) => !xdp && XmitInput(skb, dma)
    case SendXdp(_, len, _) => xdp && len > 0
    case Completes(k, d) => k < |s.queue| && d.dd
    case _ => true
  }

  /** The effect of one event; Teardown is clean_tx_ring followed by configure_tx_ring. */
  ghost function Step(s: TxState, count: nat, xdp: bool, e: Event): TxState
  {
    if !Possible(s, xdp, e) then s
    else match e
      case Send(skb, lldp, vlan, offload, dma) => Xmit(s, count, skb, lldp, vlan, offload, dma).0
      case SendXdp(data, len, addr) => XmitXdp(s, count, data, len, addr).0
      case Completes(k, d) => Complete(s, k, d)
      case Clean(down, carrier) => CleanIrq(s, count, xdp, down, carrier).0
      case Teardown => CleanRing(s).(primed := false)
  }

  ghost function Run(count: nat, xdp: bool, es: seq<Event>): TxState
  {
    if es == [] then TxState([], false, false, 0, 0, [])
    else Step(Run(count, xdp, es[..|es| - 1]), count, xdp, es[|es| - 1])
  }

  lemma StepKeepsInv(s: TxState, count: nat, xdp: bool, e: Event)
    requires Inv(s, count, xdp) && count >= 3
    ensures Inv(Step(s, count, xdp, e), count, xdp)
  {
    if Possible(s, xdp, e) {
      match e
      case Send(skb, lldp, vlan, offload, dma) => XmitKeepsInv(s, count, xdp, skb, lldp, vlan, offload, dma);
      case SendXdp(data, len, addr) => XmitXdpKeepsInv(s, count, data, len, addr);
      case Completes(k, d) => CompleteKeepsInv(s, count, xdp, k, d);
      case Clean(down, carrier) => CleanIsFifo(s, count, xdp, carrier);
      case Teardown => DrainBalances(s, count, xdp);
    }
  }

  lemma {:induction false} RunKeepsInv(count: nat, xdp: bool, es: seq<Event>)
    requires count >= 3
    ensures Inv(Run(count, xdp, es), count, xdp)
  {
    if es != [] {
      RunKeepsInv(count, xdp, es[..|es| - 1]);
      StepKeepsInv(Run(count, xdp, es[..|es| - 1]), count, xdp, es[|es| - 1]);
    }
  }

  /** Over every run: at no point more given back than taken, and what is live is what the queue will give back. */
  lemma NothingTwice(count: nat, xdp: bool, es: seq<Event>, n: nat, k: Key)
    requires count >= 3 && n <= |Run(count, xdp, es).log|
    ensures var s := Run(count, xdp, es);
            && CountTo(s.log, n, Loss(k)) <= CountTo(s.log, n, Gain(k))
            && Count(s.log, Gain(k)) - Count(s.log, Loss(k)) == Count(RetireLog(s.queue, |s.queue|), Loss(k))
  {
    RunKeepsInv(count, xdp, es);
    var s := Run(count, xdp, es);
    RetiresAreLosses(s.queue, |s.queue|);
    NoGains(RetireLog(s.queue, |s.queue|), |RetireLog(s.queue, |s.queue|)|, k);
    assert Live(s.log, k) + Live(RetireLog(s.queue, |s.queue|), k) == 0;
  }

  /** Over every run that ends torn down, each buffer was freed as often as taken, each mapping undone as often as made. */
  lemma Conservation(count: nat, xdp: bool, es: seq<Event>, k: Key)
    requires count >= 3
    ensures var log := Run(count, xdp, es + [Teardown]).log; Count(log, Gain(k)) == Count(log, Loss(k))
  {
    RunKeepsInv(count, xdp, es);
    assert (es + [Teardown])[..|es|] == es;
    DrainBalances(Run(count, xdp, es), count, xdp);
    assert Live(CleanRing(Run(count, xdp, es)).log, k) == 0;
  }

  /** XDP frames the ring has taken since it was last reset. */
  ghost function XdpSince(count: nat, es: seq<Event>): nat
  {
    if es == [] then 0
    else
      var before, e := es[..|es| - 1], es[|es| - 1];
      if e.Teardown? then 0
      else XdpSince(count, before) + if e.SendXdp? && |Run(count, true, es).queue| > |Run(count, true, before).queue| then 1 else 0
  }

  /** An XDP ring writes a context descriptor with the first frame it takes after each reset, and with no other. */
  lemma {:induction false} ContextOncePerReset(count: nat, es: seq<Event>, data: nat, len: nat, addr: nat)
    requires count >= 3 && len > 0
    ensures Run(count, true, es).primed <==> XdpSince(count, es) > 0
    ensures var s := Run(count, true, es);
            Unused(s, count) > 0 ==>
              XmitXdp(s, count, data, len, Some(addr)).0.queue == s.queue + [XdpFrame(XdpSince(count, es) > 0, data, len, addr)]
  {
    if es != [] {
      ContextOncePerReset(count, es[..|es| - 1], data, len, addr);
    }
  }

  /** next_to_use and next_to_clean meet only when the ring is empty. */
  lemma IndicesMeetWhenEmpty(count: nat, xdp: bool, es: seq<Event>, base: nat)
    requires count >= 3 && base < count
    ensures var f := Flatten(Run(count, xdp, es).queue);
            |f| < count && (Wrap(base, |f|, count) == base <==> Run(count, xdp, es).queue == [])
  {
    RunKeepsInv(count, xdp, es);
    var q := Run(count, xdp, es).queue;
    WrapInjective(base, |Flatten(q)|, 0, count);
    if q != [] {
      PacketAt(q, |q| - 1);
    }
  }
}
