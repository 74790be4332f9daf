/** The interleaved machine against TxSpec: each side, run alone access by access, does what TxSpec's one step does. */
module TxInterleaveAlone {
  import opened Util
  import opened TxSpec
  import opened TxRings
  import opened TxInterleave
  import opened TxInterleaveRuns

  /** Continue from a given state. */
  function From(m: Machine, es: seq<Step>): Machine
    decreases |es|
  {
    if es == [] then m else From(Execute(m, es[0]), es[1..])
  }

  lemma FromCons(m: Machine, e: Step, es: seq<Step>)
    ensures From(m, [e] + es) == From(Execute(m, e), es)
  {
    assert ([e] + es)[1..] == es;
  }

  lemma {:induction false} FromAppend(m: Machine, a: seq<Step>, b: seq<Step>)
    ensures From(m, a + b) == From(From(m, a), b)
    decreases |a|
  {
    if a == [] {
      assert a + b == b;
    } else {
      FromAppend(Execute(m, a[0]), a[1..], b);
      assert (a + b)[1..] == a[1..] + b;
    }
  }

  // ---------------------------------------------------------------- the cleaner

  predicate Cleaners(e: Step) { e.Pass? || e.Take? || e.Walk? || e.NextPacket? || e.Stop? }

  /** The cleaner walks the rest of a packet, undoing its mappings, and turns to the next. */
  lemma {:induction false} WalksPacket(m: Machine, v: View, log: seq<Act>) returns (es: seq<Step>)
    requires Good(m, v) && InArrays(m) && m.cl.Walking? && v.n < |v.queue| && v.j <= |v.queue[v.n]|
    requires m.log == log + PacketLog(v.queue[v.n], v.j)
    ensures forall i :: 0 <= i < |es| ==> Cleaners(es[i])
    ensures var m' := From(m, es);
            && Good(m', v.(n := v.n + 1, j := 0)) && m'.cl.Seeking? && m'.cl.budget == (if m.cl.budget > 0 then m.cl.budget - 1 else 0)
            && m'.log == log + PacketLog(v.queue[v.n], |v.queue[v.n]|)
    decreases |v.queue[v.n]| - v.j
  {
    hide Good, InArrays, PacketLog;
    if v.j == |v.queue[v.n]| {
      var v' := NextPacketStep(m, v);
      es := [NextPacket];
      FromCons(m, NextPacket, []);
    } else {
      var v' := WalkStep(m, v);
      GoodInArrays(Execute(m, Walk), v');
      PacketLogStep(log, v.queue[v.n], v.j);
      var rest := WalksPacket(Execute(m, Walk), v', log);
      es := [Walk] + rest;
      FromCons(m, Walk, rest);
    }
  }

  /** The cleaner takes packet after packet while they are completed and budget is left, then publishes next_to_clean. */
  lemma {:induction false} RetiresAlone(m: Machine, v: View, log: seq<Act>, budget: nat) returns (es: seq<Step>)
    requires Good(m, v) && InArrays(m) && m.cl.Seeking? && v.j == 0 && v.n <= |v.queue| && m.cl.budget + v.n == budget
    requires m.log == log + RetireLog(v.queue, v.n)
    ensures forall i :: 0 <= i < |es| ==> Cleaners(es[i])
    ensures var m', n := From(m, es), RetireFrom(v.queue, budget, v.n);
            Good(m', View(v.queue[n..], 0, 0, v.pending)) && m'.cl.Resting? && m'.log == log + RetireLog(v.queue, n)
    decreases |v.queue| - v.n
  {
    hide Good, InArrays, PacketLog, RetireLog, Done;
    var v' := TakeStep(m, v);
    var m' := Execute(m, Take);
    if m' == m {
      v' := StopStep(m, v);
      es := [Stop];
      FromCons(m, Stop, []);
    } else {
      GoodInArrays(m', v');
      RetireLogStep(log, v.queue, v.n);
      var walk := WalksPacket(m', v', m.log);
      var next := From(m', walk);
      GoodInArrays(next, v.(n := v.n + 1));
      var rest := RetiresAlone(next, v.(n := v.n + 1), log, budget);
      es := [Take] + (walk + rest);
      FromCons(m, Take, walk + rest);
      FromAppend(m', walk, rest);
    }
  }

  /** A pass the cleaner runs alone, access by access, retires what clean_tx_irq retires in one step, and logs the same,
      wherever the transmitter stands. */
  lemma CleanerAloneRetires(m: Machine, v: View, budget: nat) returns (es: seq<Step>)
    requires Good(m, v) && InArrays(m) && m.cl.Resting?
    ensures forall i :: 0 <= i < |es| ==> Cleaners(es[i])
    ensures var m', n := From(m, es), RetireCount(v.queue, budget);
            Good(m', View(v.queue[n..], 0, 0, v.pending)) && m'.cl.Resting? && m'.log == m.log + RetireLog(v.queue, n)
  {
    PassStep(m, v, budget);
    assert v.n == 0 && v.j == 0;
    hide Good, RetireFrom;
    GoodInArrays(Execute(m, Pass(budget)), v);
    RetireLogStart(m.log, v.queue);
    var rest := RetiresAlone(Execute(m, Pass(budget)), v, m.log, budget);
    es := [Pass(budget)] + rest;
    FromCons(m, Pass(budget), rest);
  }

  // ---------------------------------------------------------------- the transmitter

  /** A packet as the transmitter leaves it: a context descriptor, a first data slot that records nothing, no DD. */
  predicate Placeable(p: Packet)
  {
    |p| >= 2 && p[0].desc == CONTEXT && p[1].rec.None? && forall j :: 0 < j < |p| ==> !p[j].desc.dd
  }

  /** Descriptors and mappings of the first n slots, from the first data slot on. */
  function PlaceTo(p: Packet, n: nat): seq<Step>
    requires 2 <= n <= |p|
  {
    if n == 2 then [Describe(p[1].desc), MapHead(p[0].rec.value.addr, p[0].rec.value.len)]
    else PlaceTo(p, n - 1) + PlaceOne(p[n - 1])
  }

  /** A further slot: its descriptor, then the mapping it records, if any. */
  function PlaceOne(c: Slot): seq<Step>
  {
    match c.rec case None => [Describe(c.desc)] case Some(r) => [Describe(c.desc), MapFrag(r.addr, r.len)]
  }

  /** Every access of a successful transmission. */
  function Sends(p: Packet): seq<Step>
    requires |p| >= 2
  {
    var s := p[0].start.value;
    [Begin(s.skb, s.bytes, s.segs, |p| - 1), Context] + PlaceTo(p, |p|) + [Watch, Advance]
  }

  /** The mappings recorded in the first n slots, in order. */
  function MapsTo(p: seq<Slot>, n: nat): seq<Act>
    requires n <= |p|
  {
    if n == 0 then [] else MapsTo(p, n - 1) + match p[n - 1].rec case None => [] case Some(r) => [Mapped(r)]
  }

  /** The first n slots of a packet before it is published. */
  function Unpublished(p: Packet, n: nat): (s: seq<Slot>)
    requires 0 < n <= |p|
    ensures |s| == n
  {
    [p[0].(start := None)] + p[1..n]
  }

  /** What the transmitter has reached after n slots of p. */
  ghost predicate Reached(m: Machine, v: View, p: Packet, n: nat, log: seq<Act>)
    requires 2 <= n <= |p|
  {
    && Good(m, v.(pending := Unpublished(p, n))) && m.tx.Placing? && m.tx.used == n && m.log == log + MapsTo(p, n)
    && (m.tx.w.skb, m.tx.w.bytes, m.tx.w.segs, m.tx.w.need) == (p[0].start.value.skb, p[0].start.value.bytes, p[0].start.value.segs, |p| - 1)
  }

  lemma FromOne(m: Machine, e: Step)
    ensures From(m, [e]) == Execute(m, e)
  {
    FromCons(m, e, []);
  }

  lemma FromTwo(m: Machine, a: Step, b: Step)
    ensures From(m, [a, b]) == Execute(Execute(m, a), b)
  {
    FromCons(m, a, [b]);
    FromOne(Execute(m, a), b);
  }

  /** The first data slot, then the head's mapping, recorded in the context slot. */
  lemma PlacesHead(m: Machine, v: View, p: Packet, log: seq<Act>)
    requires Placeable(p) && Good(m, v.(pending := [Slot(None, None, CONTEXT)])) && m.tx.Placing? && m.tx.used == 1 && m.log == log
    requires (m.tx.w.skb, m.tx.w.bytes, m.tx.w.segs, m.tx.w.need) == (p[0].start.value.skb, p[0].start.value.bytes, p[0].start.value.segs, |p| - 1)
    ensures Reached(From(m, PlaceTo(p, 2)), v, p, 2, log)
  {
    hide Good, PlaceTo;
    var v1, r := v.(pending := [Slot(None, None, CONTEXT)]), p[0].rec.value;
    GoodInArrays(m, v1);
    var m2 := Execute(m, Describe(p[1].desc));
    var v2 := DescribeStep(m, v1, Describe(p[1].desc));
    GoodInArrays(m2, v2);
    assert v2.pending == [Slot(None, None, CONTEXT), Slot(None, None, p[1].desc)];
    var e := MapHead(r.addr, r.len);
    var v3 := MapStep(m2, v2, e);
    assert v3.pending == Unpublished(p, 2);
    assert MapsTo(p, 2) == MapsTo(p, 1) && MapsTo(p, 1) == MapsTo(p, 0) + [Mapped(r)];
    FromTwo(m, Describe(p[1].desc), e);
    PlaceToTwo(p);
  }

  lemma PlaceToTwo(p: Packet)
    requires |p| >= 2
    ensures PlaceTo(p, 2) == [Describe(p[1].desc), MapHead(p[0].rec.value.addr, p[0].rec.value.len)]
  {
  }

  lemma SlotOfPacket(p: Packet, n: nat)
    requires Placeable(p) && 0 < n < |p|
    ensures !p[n].desc.dd && p[n].start.None? && p[0].rec.Some? && (p[n].rec.Some? ==> p[n].rec.value.len > 0 && p[n].rec.value.kind == Page)
  {
  }

  lemma UnpublishedGrows(p: Packet, n: nat, bare: seq<Slot>)
    requires 0 < n < |p| && p[n].start.None? && bare == Unpublished(p, n) + [Slot(None, None, p[n].desc)]
    ensures |bare| == n + 1 && bare[n].rec.None? && bare[0].rec == p[0].rec
    ensures bare[n := bare[n].(rec := p[n].rec)] == Unpublished(p, n + 1)
    ensures p[n].rec.None? ==> bare == Unpublished(p, n + 1)
  {
  }

  lemma PlacesSlot(m: Machine, v: View, p: Packet, n: nat, log: seq<Act>)
    requires Placeable(p) && 2 <= n < |p| && Reached(m, v, p, n, log)
    ensures Reached(From(m, PlaceOne(p[n])), v, p, n + 1, log)
  {
    assert MapsTo(p, n + 1) == MapsTo(p, n) + match p[n].rec case None => [] case Some(r) => [Mapped(r)];
    SlotOfPacket(p, n);
    hide Good, MapsTo, From, IsPacket, Placeable, Unpublished;
    var v1 := v.(pending := Unpublished(p, n));
    GoodInArrays(m, v1);
    var v2 := DescribeStep(m, v1, Describe(p[n].desc));
    UnpublishedGrows(p, n, v2.pending);
    FromOne(m, Describe(p[n].desc));
    if p[n].rec.Some? {
      MapsSlot(Execute(m, Describe(p[n].desc)), v2, p[n].rec.value);
      FromTwo(m, Describe(p[n].desc), MapFrag(p[n].rec.value.addr, p[n].rec.value.len));
    }
  }

  lemma MapsSlot(m: Machine, v: View, r: Mapping)
    requires Good(m, v) && m.tx.Placing? && Maps(v, MapFrag(r.addr, r.len)) && r.kind == Page
    ensures var m' := Execute(m, MapFrag(r.addr, r.len));
            && Good(m', v.(pending := v.pending[|v.pending| - 1 := v.pending[|v.pending| - 1].(rec := Some(r))]))
            && m'.tx == m.tx && m'.log == m.log + [Mapped(r)]
  {
    hide Good;
    GoodInArrays(m, v);
    var v' := MapStep(m, v, MapFrag(r.addr, r.len));
  }

  lemma {:induction false} PlacesTo(m: Machine, v: View, p: Packet, n: nat, log: seq<Act>)
    requires Placeable(p) && 2 <= n <= |p|
    requires Good(m, v.(pending := [Slot(None, None, CONTEXT)])) && m.tx.Placing? && m.tx.used == 1 && m.log == log
    requires (m.tx.w.skb, m.tx.w.bytes, m.tx.w.segs, m.tx.w.need) == (p[0].start.value.skb, p[0].start.value.bytes, p[0].start.value.segs, |p| - 1)
    ensures Reached(From(m, PlaceTo(p, n)), v, p, n, log)
  {
    hide Good, Reached, From, Placeable;
    if n == 2 {
      PlacesHead(m, v, p, log);
    } else {
      PlacesTo(m, v, p, n - 1, log);
      PlacesSlot(From(m, PlaceTo(p, n - 1)), v, p, n - 1, log);
      FromAppend(m, PlaceTo(p, n - 1), PlaceOne(p[n - 1]));
    }
  }

  lemma Published(p: Packet)
    requires |p| > 0
    ensures WithStart(Unpublished(p, |p|), p[0].start.value.skb, p[0].start.value.bytes, p[0].start.value.segs) == p
  {
  }

  lemma BeginsFirst(m: Machine, v: View, e: Step)
    requires Good(m, v) && InArrays(m) && m.tx.Out? && e.Begin? && |Flatten(v.queue)| + e.need + 3 < |m.bufs|
    ensures v.pending == [] && Good(Execute(m, e), v)
    ensures Execute(m, e).log == m.log + [Took(e.skb)] && Execute(m, e).tx == Placing(Work(e.skb, e.bytes, e.segs, e.need, m.ntu), m.ntu, 0)
  {
    BeginStep(m, v, e.skb, e.bytes, e.segs, e.need);
    hide RingGood, CleanerGood, Books;
  }

  /** The frame is taken and the context descriptor written. */
  lemma BeginsAlone(m: Machine, v: View, p: Packet)
    requires Good(m, v) && InArrays(m) && m.tx.Out? && |p| >= 2 && |Flatten(v.queue)| + |p| + 2 < |m.bufs|
    ensures v.pending == []
    ensures var s := p[0].start.value;
            var m' := From(m, [Begin(s.skb, s.bytes, s.segs, |p| - 1), Context]);
            && Good(m', v.(pending := [Slot(None, None, CONTEXT)])) && m'.tx.Placing? && m'.tx.used == 1
            && m'.log == m.log + [Took(s.skb)] && (m'.tx.w.skb, m'.tx.w.bytes, m'.tx.w.segs, m'.tx.w.need) == (s.skb, s.bytes, s.segs, |p| - 1)
  {
    var s := p[0].start.value;
    var begin := Begin(s.skb, s.bytes, s.segs, |p| - 1);
    hide Good, InArrays, Flatten;
    BeginsFirst(m, v, begin);
    var m1 := Execute(m, begin);
    GoodInArrays(m1, v);
    var v2 := DescribeStep(m1, v, Context);
    assert v2 == v.(pending := [Slot(None, None, CONTEXT)]);
    FromTwo(m, begin, Context);
  }

  /** A transmission the transmitter runs alone, access by access, queues the whole packet, wherever the cleaner stands: it
      takes the frame, maps what its slots record, in order, and nothing else. */
  lemma SenderAloneQueues(m: Machine, v: View, p: Packet)
    requires Good(m, v) && InArrays(m) && m.tx.Out? && Placeable(p) && |Flatten(v.queue)| + |p| + 2 < |m.bufs|
    ensures var m' := From(m, Sends(p));
            && Good(m', v.(queue := v.queue + [p])) && m'.tx.Out?
            && m'.log == m.log + [Took(p[0].start.value.skb)] + MapsTo(p, |p|)
  {
    var s := p[0].start.value;
    var begin, log := Begin(s.skb, s.bytes, s.segs, |p| - 1), m.log + [Took(s.skb)];
    hide Good, From, InArrays, MapsTo;
    BeginsAlone(m, v, p);
    var m2 := From(m, [begin, Context]);
    PlacesTo(m2, v, p, |p|, log);
    PublishesAlone(From(m2, PlaceTo(p, |p|)), v, p, log);
    FromAppend(m, [begin, Context], PlaceTo(p, |p|));
    FromAppend(m, [begin, Context] + PlaceTo(p, |p|), [Watch, Advance]);
  }

  lemma PublishesAlone(m: Machine, v: View, p: Packet, log: seq<Act>)
    requires v.pending == [] && |p| >= 2 && p[0].rec.Some? && Reached(m, v, p, |p|, log)
    ensures var m' := From(m, [Watch, Advance]);
            Good(m', v.(queue := v.queue + [p])) && m'.tx.Out? && m'.log == m.log
  {
    hide Good, MapsTo;
    var v1 := v.(pending := Unpublished(p, |p|));
    GoodInArrays(m, v1);
    var v2 := WatchStep(m, v1);
    Published(p);
    assert v2.queue == v.queue + [p];
    GoodInArrays(Execute(m, Watch), v2);
    TurnStep(Execute(m, Watch), v2, Advance);
    FromTwo(m, Watch, Advance);
  }

  // ---------------------------------------------------------------- a failed map

  function UndoesTo(n: nat): seq<Step>
    requires n > 0
  {
    if n == 1 then [UndoHead] else [UndoLast] + UndoesTo(n - 1)
  }

  lemma {:induction false} UndoesAlone(m: Machine, v: View, n: nat)
    requires Good(m, v) && InArrays(m) && m.tx.Unwinding? && n == |v.pending|
    ensures n > 0
    ensures var m' := From(m, UndoesTo(n));
            Good(m', v.(pending := [])) && m'.tx.Out? && m'.log == m.log + UnwindTo(v.pending, n) + [Freed(m.tx.w.skb)]
    decreases n
  {
    hide Good, UnwindTo;
    var w := UndoLastStep(m, v);
    if n > 1 {
      GoodInArrays(Execute(m, UndoLast), w);
      UndoesAlone(Execute(m, UndoLast), w, n - 1);
      FromCons(m, UndoLast, UndoesTo(n - 1));
      UnwindDrops(m.log, v.pending, n);
    } else {
      var h := UndoHeadStep(m, v);
      FromOne(m, UndoHead);
      UnwindOne(v.pending);
    }
  }

  lemma UnwindOne(s: seq<Slot>)
    requires |s| == 1
    ensures UnwindTo(s, 1) == UnmapOf(s[0].rec)
  {
    assert UnwindTo(s, 0) == [];
  }

  lemma {:induction false} UnwindShort(s: seq<Slot>, n: nat, m: nat)
    requires n <= m <= |s|
    ensures UnwindTo(s[..m], n) == UnwindTo(s, n)
  {
    if n > 0 {
      UnwindShort(s, n - 1, m);
    }
  }

  lemma UnwindDrops(log: seq<Act>, s: seq<Slot>, n: nat)
    requires 0 < n == |s|
    ensures log + UnmapOf(s[n - 1].rec) + UnwindTo(s[..n - 1], n - 1) == log + UnwindTo(s, n)
  {
    UnwindShort(s, n - 1, n - 1);
    UnwindStep(log, s, n);
  }

  /** A map that fails at any point, undone by the transmitter alone, frees the frame, undoes its mappings newest first and
      leaves the queue as it was, as TxSpec.Xmit says, wherever the cleaner stands. */
  lemma FailedSenderAloneUndoes(m: Machine, v: View)
    requires Good(m, v) && InArrays(m) && m.tx.Placing? && m.tx.used > 0
    ensures |v.pending| > 0
    ensures var m' := From(m, [Fail] + UndoesTo(|v.pending|));
            Good(m', v.(pending := [])) && m'.tx.Out? && m'.log == m.log + UnwindTo(v.pending, |v.pending|) + [Freed(m.tx.w.skb)]
  {
    TurnStep(m, v, Fail);
    assert |v.pending| > 0;
    hide Good;
    GoodInArrays(Execute(m, Fail), v);
    UndoesAlone(Execute(m, Fail), v, |v.pending|);
    FromCons(m, Fail, UndoesTo(|v.pending|));
  }

  // ---------------------------------------------------------------- the frame of TxSpec

  lemma {:induction false} MapsSplit(a: seq<Slot>, b: seq<Slot>, all: seq<Slot>, n: nat, m: nat)
    requires n <= |b| && all == a + b && m == |a| + n
    ensures MapsTo(all, m) == MapsTo(a, |a|) + MapsTo(b, n)
  {
    if n == 0 {
      MapsPrefix(a, all, m);
    } else {
      MapsSplit(a, b, all, n - 1, m - 1);
      assert all[m - 1] == b[n - 1];
    }
  }

  lemma {:induction false} MapsPrefix(a: seq<Slot>, all: seq<Slot>, n: nat)
    requires n <= |a| <= |all| && forall j :: 0 <= j < n ==> all[j].rec == a[j].rec
    ensures MapsTo(all, n) == MapsTo(a, n)
  {
    if n > 0 {
      MapsPrefix(a, all, n - 1);
    }
  }

  lemma {:induction false} BufferMaps(rec: Option<Mapping>, descs: seq<TxDesc>, n: nat)
    requires n <= |descs|
    ensures MapsTo(BufferSlots(rec, descs), n) == match rec case None => [] case Some(r) => if n == 0 then [] else [Mapped(r)]
  {
    if n > 0 {
      BufferMaps(rec, descs, n - 1);
      BufferSlotAt(rec, descs, n - 1);
    }
  }

  lemma FrameMaps(skb: Skb, dma: seq<Option<nat>>, paylen: nat, k: nat)
    requires skb.NonEmpty() && k <= |skb.frags| && k < |dma| && dma[k].Some?
    ensures var f := FrameSlots(skb, dma, paylen, k);
            MapsTo(f, |f|) == if k == 0 then [] else [Mapped(BufferMapping(skb, dma, k))]
  {
    var descs := Chunks(dma[k].value, skb.Size(k), if k == 0 then paylen else 0, k == |skb.frags|);
    ChunksShape(dma[k].value, skb.Size(k), if k == 0 then paylen else 0, k == |skb.frags|);
    BufferMaps(RecOf(skb, dma, k), descs, |descs|);
  }

  lemma MapsOfOne(c: Slot)
    ensures MapsTo([c], 1) == match c.rec case None => [] case Some(r) => [Mapped(r)]
  {
    assert MapsTo([c], 0) == [];
  }

  /** The slots of n buffers record their mappings in the order they were made. */
  lemma {:induction false} PartialMaps(skb: Skb, dma: seq<Option<nat>>, paylen: nat, n: nat)
    requires skb.NonEmpty() && 0 < n <= |skb.frags| + 1 && n <= |dma| && forall k :: 0 <= k < n ==> dma[k].Some?
    ensures var p := PartialSlots(skb, dma, paylen, n); MapsTo(p, |p|) == MapLog(skb, dma, n)
  {
    hide FrameSlots, PartialSlots;
    if n == 1 {
      MapsOfOne(Slot(None, Some(BufferMapping(skb, dma, 0)), CONTEXT));
      assert MapLog(skb, dma, 1) == MapLog(skb, dma, 0) + [Mapped(BufferMapping(skb, dma, 0))];
    } else {
      PartialMaps(skb, dma, paylen, n - 1);
    }
    PartialGrows(skb, dma, paylen, n - 1);
    FrameMaps(skb, dma, paylen, n - 1);
    MapsSplit(Before(skb, dma, paylen, n - 1), FrameSlots(skb, dma, paylen, n - 1), PartialSlots(skb, dma, paylen, n),
              |FrameSlots(skb, dma, paylen, n - 1)|, |PartialSlots(skb, dma, paylen, n)|);
  }

  lemma FramePlaceable(skb: Skb, offload: Offload, dma: seq<Option<nat>>)
    requires XmitInput(skb, dma) && MappedCount(dma) == |dma|
    ensures IsPacket(Frame(skb, offload, dma)) && Placeable(Frame(skb, offload, dma))
    ensures |Frame(skb, offload, dma)| == Needed(skb) + 1
    ensures Frame(skb, offload, dma)[0].start.value.skb == skb.id
    ensures MapsTo(Frame(skb, offload, dma), |Frame(skb, offload, dma)|) == MapLog(skb, dma, |dma|)
  {
    var f, p := Frame(skb, offload, dma), PartialSlots(skb, dma, PayLen(skb, offload), |dma|);
    FrameIsPacket(skb, offload, dma);
    forall j | 0 <= j < |f|
      ensures f[j].rec == p[j].rec && f[j].desc == p[j].desc
    {
      assert j > 0 ==> f[1..][j - 1] == p[1..][j - 1];
    }
    MapsPrefix(p, f, |f|);
    PartialMaps(skb, dma, PayLen(skb, offload), |dma|);
    DataSlotsShape(skb, dma, PayLen(skb, offload), |dma|);
    forall j | 0 < j < |f| ensures !f[j].desc.dd { assert DataSlot(p[1..][j - 1]); }
    FirstDataSlot(skb, dma, PayLen(skb, offload), |dma|);
  }

  lemma {:induction false} FirstDataSlot(skb: Skb, dma: seq<Option<nat>>, paylen: nat, n: nat)
    requires skb.NonEmpty() && 0 < n <= |skb.frags| + 1 && n <= |dma| && forall k :: 0 <= k < n ==> dma[k].Some?
    ensures |DataSlots(skb, dma, paylen, n)| > 0 && DataSlots(skb, dma, paylen, n)[0].rec.None?
  {
    FrameSlotsShape(skb, dma, paylen, 0);
    if n == 1 {
      assert DataSlots(skb, dma, paylen, 1) == DataSlots(skb, dma, paylen, 0) + FrameSlots(skb, dma, paylen, 0);
      BufferSlotAt(None, Chunks(dma[0].value, skb.Size(0), paylen, 0 == |skb.frags|), 0);
    } else {
      FirstDataSlot(skb, dma, paylen, n - 1);
    }
  }

  /** So the frame TxSpec.Xmit accepts is queued by the transmitter's accesses too, with the log TxSpec.Xmit gives it. */
  lemma SenderAloneSendsFrame(m: Machine, v: View, skb: Skb, offload: Offload, dma: seq<Option<nat>>)
    requires Good(m, v) && InArrays(m) && m.tx.Out? && XmitInput(skb, dma) && MappedCount(dma) == |dma|
    requires |m.bufs| - 1 - |Flatten(v.queue)| >= Needed(skb) + 3
    ensures IsPacket(Frame(skb, offload, dma)) && |Frame(skb, offload, dma)| >= 2
    ensures var m' := From(m, Sends(Frame(skb, offload, dma)));
            && Good(m', v.(queue := v.queue + [Frame(skb, offload, dma)])) && m'.tx.Out?
            && m'.log == m.log + [Took(skb.id)] + MapLog(skb, dma, |dma|)
  {
    hide Good, Frame, Needed, MapLog, Flatten;
    FramePlaceable(skb, offload, dma);
    SenderAloneQueues(m, v, Frame(skb, offload, dma));
  }
}
