/**
 The transmit ring as the driver keeps it: two arrays walked by wrapping indices.  Every method is
 proved to perform the step of TxSpec that bears its name, and may unmap or free only what is live.
 */
module TxRings {
  import opened Util
  import opened TxSpec

  /** Software's record beside a descriptor; `nextToWatch` is the index of the packet's last descriptor. */
  datatype TxBuffer = TxBuffer(nextToWatch: Option<nat>, skb: Option<nat>, bytecount: nat, gsoSegs: nat,
                               dma: nat, len: nat)

  const ZEROED := TxBuffer(None, None, 0, 0, 0, 0)

  // ---------------------------------------------------------------- representation

  /** The buffer record says exactly what slot `c`, found `o` places after `base`, should say. */
  ghost predicate Holds(b: TxBuffer, base: nat, o: nat, count: nat, c: Slot)
    requires base < count && o < count
  {
    && (match c.rec
        case None => b.len == 0
        case Some(m) => b.len == m.len > 0 && b.dma == m.addr)
    && (match c.start
        case None => b.nextToWatch == None
        case Some(s) =>
          && 0 < s.span && o + s.span <= count
          && b.nextToWatch == Some(Wrap(base, o + s.span - 1, count))
          && b.skb == Some(s.skb) && b.bytecount == s.bytes && b.gsoSegs == s.segs)
  }

  ghost predicate Free(b: TxBuffer) { b.len == 0 && b.nextToWatch == None }

  /** Slot o after `base` is in use and as `cells` says from `lo` on; every other slot is free. */
  ghost predicate SlotOk(bufs: seq<TxBuffer>, descs: seq<TxDesc>, base: nat, cells: seq<Slot>, lo: nat, o: nat)
    requires base < |bufs| == |descs| && lo <= |cells| <= |bufs| && o < |bufs|
  {
    var i := Wrap(base, o, |bufs|);
    if lo <= o < |cells| then Holds(bufs[i], base, o, |bufs|, cells[o]) && descs[i] == cells[o].desc else Free(bufs[i])
  }

  /** From `lo` on the ring holds `cells` after `base`; all its other slots are free. */
  ghost predicate Laid(bufs: seq<TxBuffer>, descs: seq<TxDesc>, base: nat, cells: seq<Slot>, lo: nat)
  {
    && base < |bufs| == |descs| && lo <= |cells| <= |bufs|
    && forall o :: 0 <= o < |bufs| ==> SlotOk(bufs, descs, base, cells, lo, o)
  }

  /** Both lists say the same about slot o. */
  ghost predicate SameAt(cells: seq<Slot>, lo: nat, cells': seq<Slot>, lo': nat, o: nat)
  {
    (lo <= o < |cells| <==> lo' <= o < |cells'|) && (lo <= o < |cells| ==> cells'[o] == cells[o])
  }

  /** Changing one slot of the ring, and what is said about it, leaves the others alone. */
  lemma LaidChange(bufs: seq<TxBuffer>, descs: seq<TxDesc>, base: nat, cells: seq<Slot>, lo: nat, at: nat,
                   b: TxBuffer, d: TxDesc, cells': seq<Slot>, lo': nat)
    requires Laid(bufs, descs, base, cells, lo) && at < |bufs| && lo' <= |cells'| <= |bufs|
    requires var i := Wrap(base, at, |bufs|); SlotOk(bufs[i := b], descs[i := d], base, cells', lo', at)
    requires forall o :: 0 <= o < |bufs| && o != at ==> SameAt(cells, lo, cells', lo', o)
    ensures var i := Wrap(base, at, |bufs|); Laid(bufs[i := b], descs[i := d], base, cells', lo')
  {
    var i := Wrap(base, at, |bufs|);
    var bufs', descs' := bufs[i := b], descs[i := d];
    forall o | 0 <= o < |bufs'|
      ensures SlotOk(bufs', descs', base, cells', lo', o)
    {
      if o != at {
        assert SlotOk(bufs, descs, base, cells, lo, o) && SameAt(cells, lo, cells', lo', o);
        WrapInjective(base, o, at, |bufs|);
      }
    }
  }

  /** Clearing the first slot still in use frees it. */
  lemma LaidClear(bufs: seq<TxBuffer>, descs: seq<TxDesc>, base: nat, cells: seq<Slot>, lo: nat, b: TxBuffer)
    requires Laid(bufs, descs, base, cells, lo) && lo < |cells| && Free(b)
    ensures Laid(bufs[Wrap(base, lo, |bufs|) := b], descs, base, cells, lo + 1)
  {
    var i := Wrap(base, lo, |bufs|);
    assert descs[i := descs[i]] == descs;
    LaidChange(bufs, descs, base, cells, lo, lo, b, descs[i], cells, lo + 1);
  }

  /** The freed slots may be left behind: the same ring seen from the first slot in use. */
  lemma LaidRebase(bufs: seq<TxBuffer>, descs: seq<TxDesc>, base: nat, cells: seq<Slot>, lo: nat)
    requires Laid(bufs, descs, base, cells, lo) && |cells| < |bufs|
    ensures Laid(bufs, descs, Wrap(base, lo, |bufs|), cells[lo..], 0)
  {
    var n := |bufs|;
    var base' := Wrap(base, lo, n);
    forall o | 0 <= o < n
      ensures SlotOk(bufs, descs, base', cells[lo..], 0, o)
    {
      var o' := if lo + o < n then lo + o else lo + o - n;
      assert Wrap(base', o, n) == Wrap(base, o', n);
      assert SlotOk(bufs, descs, base, cells, lo, o');
    }
  }

  /** The ring after n packets have been reclaimed and left behind. */
  lemma LaidRetired(bufs: seq<TxBuffer>, descs: seq<TxDesc>, base: nat, q: seq<Packet>, n: nat, next: nat)
    requires n <= |q| && |Flatten(q)| < |bufs| && |FlattenTo(q, n)| <= |Flatten(q)|
    requires Laid(bufs, descs, base, Flatten(q), |FlattenTo(q, n)|) && next == Wrap(base, |FlattenTo(q, n)|, |bufs|)
    ensures |Flatten(q[n..])| == |Flatten(q)| - |FlattenTo(q, n)|
    ensures Laid(bufs, descs, next, Flatten(q[n..]), 0)
    ensures Wrap(next, |Flatten(q[n..])|, |bufs|) == Wrap(base, |Flatten(q)|, |bufs|)
  {
    FlattenDrop(q, n, |q|);
    assert Flatten(q)[|FlattenTo(q, n)|..] == Flatten(q[n..]);
    LaidRebase(bufs, descs, base, Flatten(q), |FlattenTo(q, n)|);
  }

  /** A free slot joins the ring with whatever its descriptor says. */
  lemma LaidPush(bufs: seq<TxBuffer>, descs: seq<TxDesc>, base: nat, cells: seq<Slot>, d: TxDesc, lo: nat := 0)
    requires Laid(bufs, descs, base, cells, lo) && |cells| < |bufs|
    ensures Laid(bufs, descs[Wrap(base, |cells|, |bufs|) := d], base, cells + [Slot(None, None, d)], lo)
  {
    var i := Wrap(base, |cells|, |bufs|);
    assert SlotOk(bufs, descs, base, cells, lo, |cells|);
    assert bufs[i := bufs[i]] == bufs;
    LaidChange(bufs, descs, base, cells, lo, |cells|, bufs[i], d, cells + [Slot(None, None, d)], lo);
  }

  /** The last slot leaves the ring again once its record is cleared. */
  lemma LaidPop(bufs: seq<TxBuffer>, descs: seq<TxDesc>, base: nat, cells: seq<Slot>, c: Slot, b: TxBuffer, lo: nat := 0)
    requires Laid(bufs, descs, base, cells + [c], lo) && Free(b) && lo <= |cells|
    ensures Laid(bufs[Wrap(base, |cells|, |bufs|) := b], descs, base, cells, lo)
  {
    var i := Wrap(base, |cells|, |bufs|);
    assert descs[i := descs[i]] == descs;
    LaidChange(bufs, descs, base, cells + [c], lo, |cells|, b, descs[i], cells, lo);
  }

  /** A free slot may carry anything that does not look like a packet or a mapping. */
  lemma LaidTouch(bufs: seq<TxBuffer>, descs: seq<TxDesc>, base: nat, cells: seq<Slot>, b: TxBuffer, lo: nat := 0)
    requires Laid(bufs, descs, base, cells, lo) && |cells| < |bufs| && Free(b)
    ensures Laid(bufs[Wrap(base, |cells|, |bufs|) := b], descs, base, cells, lo)
  {
    var i := Wrap(base, |cells|, |bufs|);
    assert descs[i := descs[i]] == descs;
    LaidChange(bufs, descs, base, cells, lo, |cells|, b, descs[i], cells, lo);
  }

  /** Slot o gets a new descriptor and a new record. */
  lemma LaidUpdate(bufs: seq<TxBuffer>, descs: seq<TxDesc>, base: nat, cells: seq<Slot>, o: nat, c: Slot, b: TxBuffer, lo: nat := 0)
    requires Laid(bufs, descs, base, cells, lo) && lo <= o < |cells| && Holds(b, base, o, |bufs|, c)
    ensures Laid(bufs[Wrap(base, o, |bufs|) := b], descs[Wrap(base, o, |bufs|) := c.desc], base, cells[o := c], lo)
  {
    LaidChange(bufs, descs, base, cells, lo, o, b, c.desc, cells[o := c], lo);
  }

  /** What the arrays say about a slot in use. */
  lemma LaidAt(bufs: seq<TxBuffer>, descs: seq<TxDesc>, base: nat, cells: seq<Slot>, lo: nat, o: nat)
    requires Laid(bufs, descs, base, cells, lo) && lo <= o < |cells|
    ensures Holds(bufs[Wrap(base, o, |bufs|)], base, o, |bufs|, cells[o]) && descs[Wrap(base, o, |bufs|)] == cells[o].desc
  {
    assert SlotOk(bufs, descs, base, cells, lo, o);
  }

  /** Setting next_to_watch turns the mapped slots after `cells` into a packet. */
  lemma LaidStart(bufs: seq<TxBuffer>, descs: seq<TxDesc>, base: nat, cells: seq<Slot>, slots: seq<Slot>, skb: nat, bytes: nat, segs: nat, lo: nat := 0)
    requires |slots| > 0 && lo <= |cells| && Laid(bufs, descs, base, cells + slots, lo)
    requires var b := bufs[Wrap(base, |cells|, |bufs|)]; b.skb == Some(skb) && b.bytecount == bytes && b.gsoSegs == segs
    ensures var first := Wrap(base, |cells|, |bufs|);
            Laid(bufs[first := bufs[first].(nextToWatch := Some(Wrap(base, |cells| + |slots| - 1, |bufs|)))], descs, base,
                 cells + WithStart(slots, skb, bytes, segs), lo)
  {
    var all, first := cells + slots, Wrap(base, |cells|, |bufs|);
    var c := slots[0].(start := Some(Start(skb, bytes, segs, |slots|)));
    var b := bufs[first].(nextToWatch := Some(Wrap(base, |cells| + |slots| - 1, |bufs|)));
    assert all[|cells|] == slots[0];
    LaidAt(bufs, descs, base, all, lo, |cells|);
    assert descs[first] == c.desc;
    LaidUpdate(bufs, descs, base, all, |cells|, c, b, lo);
    assert descs[first := c.desc] == descs;
    assert all[|cells| := c] == cells + WithStart(slots, skb, bytes, segs);
  }

  /** The first of the slots after `cells` becomes a packet together with the mapping it records. */
  lemma LaidHead(bufs: seq<TxBuffer>, descs: seq<TxDesc>, base: nat, cells: seq<Slot>, slots: seq<Slot>, s: Start, m: Mapping, b: TxBuffer)
    requires |slots| > 0 && Laid(bufs, descs, base, cells + slots, 0) && s.span == |slots| && m.len > 0
    requires b == TxBuffer(Some(Wrap(base, |cells| + |slots| - 1, |bufs|)), Some(s.skb), s.bytes, s.segs, m.addr, m.len)
    ensures Laid(bufs[Wrap(base, |cells|, |bufs|) := b], descs, base, cells + [Slot(Some(s), Some(m), slots[0].desc)] + slots[1..], 0)
  {
    var all, first, c := cells + slots, Wrap(base, |cells|, |bufs|), Slot(Some(s), Some(m), slots[0].desc);
    assert all[|cells|] == slots[0];
    LaidAt(bufs, descs, base, all, 0, |cells|);
    LaidUpdate(bufs, descs, base, all, |cells|, c, b);
    assert descs[first := c.desc] == descs;
    assert all[|cells| := c] == cells + [c] + slots[1..];
  }

  /** The slot after packet n is next_to_use exactly when no packet is left. */
  lemma DrainsAll(q: seq<Packet>, n: nat, base: nat, count: nat)
    requires n <= |q| && |FlattenTo(q, n)| <= |Flatten(q)| < count && base < count
    ensures Wrap(base, |FlattenTo(q, n)|, count) == Wrap(base, |Flatten(q)|, count) <==> n == |q|
  {
    if n < |q| {
      PacketAt(q, n);
    }
    WrapInjective(base, |FlattenTo(q, n)|, |Flatten(q)|, count);
  }

  /** What the cleaner reads at the first slot it has not yet reclaimed, when no packet is left. */
  lemma TailSeen(bufs: seq<TxBuffer>, descs: seq<TxDesc>, base: nat, cells: seq<Slot>)
    requires Laid(bufs, descs, base, cells, |cells|) && |cells| < |bufs|
    ensures bufs[Wrap(base, |cells|, |bufs|)].nextToWatch == None
  {
    assert SlotOk(bufs, descs, base, cells, |cells|, |cells|);
  }

  /** And when packet p comes next: its last descriptor, and what it counts for. */
  lemma HeadSeen(bufs: seq<TxBuffer>, descs: seq<TxDesc>, base: nat, cells: seq<Slot>, at: nat, p: Packet)
    requires Laid(bufs, descs, base, cells, at) && Sits(p, cells, at)
    ensures var b := bufs[Wrap(base, at, |bufs|)];
            && b.nextToWatch == Some(Wrap(base, at + |p| - 1, |bufs|))
            && descs[b.nextToWatch.value].dd == Done(p)
            && b.bytecount == p[0].start.value.bytes && b.gsoSegs == p[0].start.value.segs
  {
    LaidAt(bufs, descs, base, cells, at, at);
    LaidAt(bufs, descs, base, cells, at, at + |p| - 1);
    SitsAt(p, cells, at, 0);
    SitsAt(p, cells, at, |p| - 1);
  }

  /** The slots a failed map leaves behind: the first may hold a Single mapping, the others Page mappings. */
  ghost predicate Unfinished(slots: seq<Slot>)
  {
    && |slots| > 0
    && slots[0].start.None? && (slots[0].rec.Some? ==> slots[0].rec.value.kind == Single)
    && forall j :: 0 < j < |slots| ==> slots[j].start.None? && (slots[j].rec.Some? ==> slots[j].rec.value.kind == Page)
  }

  /** A map that failed at buffer n leaves the slots of the buffers before it and one more descriptor. */
  lemma FailedSlots(skb: Skb, dma: seq<Option<nat>>, paylen: nat, n: nat, d: TxDesc)
    requires skb.NonEmpty() && n <= |skb.frags| && n <= |dma| && forall k :: 0 <= k < n ==> dma[k].Some?
    ensures var p := PartialSlots(skb, dma, paylen, n);
            Unfinished(p + [Slot(None, None, d)]) && UnwindTo(p + [Slot(None, None, d)], |p| + 1) == UnwindTo(p, |p|)
  {
    var p := PartialSlots(skb, dma, paylen, n);
    var slots := p + [Slot(None, None, d)];
    DataSlotsShape(skb, dma, paylen, n);
    UnwindPrefix(p, Slot(None, None, d), |p|);
    forall j | 0 < j < |slots|
      ensures slots[j].start.None? && (slots[j].rec.Some? ==> slots[j].rec.value.kind == Page)
    {
      assert j < |p| ==> slots[j] == DataSlots(skb, dma, paylen, n)[j - 1] && DataSlot(slots[j]);
    }
  }

  /** Publishing a mapped frame puts it at the end of the queue. */
  lemma LaidPublish(bufs: seq<TxBuffer>, descs: seq<TxDesc>, base: nat, q: seq<Packet>, skb: Skb, offload: Offload,
                    dma: seq<Option<nat>>)
    requires XmitInput(skb, dma) && MappedCount(dma) == |dma|
    requires Laid(bufs, descs, base, Flatten(q) + PartialSlots(skb, dma, PayLen(skb, offload), |dma|), 0)
    requires |Flatten(q)| + Needed(skb) + 1 < |bufs|
    requires var b := bufs[Wrap(base, |Flatten(q)|, |bufs|)];
             b.skb == Some(skb.id) && b.bytecount == ByteCount(skb, offload) && b.gsoSegs == GsoSegs(offload)
    ensures IsPacket(Frame(skb, offload, dma))
    ensures Flatten(q + [Frame(skb, offload, dma)]) == Flatten(q) + Frame(skb, offload, dma)
    ensures |Frame(skb, offload, dma)| == Needed(skb) + 1
    ensures var first := Wrap(base, |Flatten(q)|, |bufs|);
            var b := bufs[first].(nextToWatch := Some(Wrap(base, |Flatten(q)| + Needed(skb), |bufs|)));
            Laid(bufs[first := b], descs, base, Flatten(q + [Frame(skb, offload, dma)]), 0)
  {
    hide Laid, Needed, DataSlots;
    var f, cells, slots := Frame(skb, offload, dma), Flatten(q), PartialSlots(skb, dma, PayLen(skb, offload), |dma|);
    FrameIsPacket(skb, offload, dma);
    PushedFlat(q, f);
    assert f == WithStart(slots, skb.id, ByteCount(skb, offload), GsoSegs(offload));
    LaidStart(bufs, descs, base, cells, slots, skb.id, ByteCount(skb, offload), GsoSegs(offload));
  }

  class TxRing {
    const count: nat
    const xdp: bool
    const buf: array<TxBuffer>
    const desc: array<TxDesc>
    var nextToUse: nat
    var nextToClean: nat
    var primed: bool
    var stopped: bool
    var packets: nat
    var bytes: nat
    ghost var st: TxState

    ghost predicate Shape()
      reads this
    {
      3 <= count <= 0xFFFF && buf.Length == count && desc.Length == count
    }

    /** The scalar fields agree with the specification state. */
    ghost predicate Agrees()
      reads this
    {
      st.primed == primed && st.stopped == stopped && st.packets == packets && st.bytes == bytes
    }

    ghost predicate Valid()
      reads this, buf, desc
    {
      && Shape() && Agrees()
      && nextToClean < count
      && |Flatten(st.queue)| < count
      && nextToUse == Wrap(nextToClean, |Flatten(st.queue)|, count)
      && Laid(buf[..], desc[..], nextToClean, Flatten(st.queue), 0)
      && (xdp && !primed ==> nextToClean == 0 && st.queue == [])
    }

    /** After clean_tx_ring: nothing is queued, but the buffer records are stale until Configure. */
    ghost predicate Down()
      reads this
    {
      Shape() && Agrees() && st.queue == [] && nextToUse == nextToClean == 0
    }

    // -------------------------------------------------------------- kernel services

    /** Record one call into the kernel. */
    ghost method Log(act: Act)
      modifies this`st
      ensures st == old(st).(log := old(st).log + [act])
    {
      st := st.(log := st.log + [act]);
    }

    /** The DMA API decides whether the mapping succeeds. */
    method DmaMap(kind: MapKind, outcome: Option<nat>, len: nat) returns (r: Option<nat>)
      modifies this`st
      ensures r == outcome
      ensures st == old(st).(log := old(st).log + if r.Some? then [Mapped(Mapping(kind, r.value, len))] else [])
    {
      r := outcome;
      st := st.(log := st.log + if r.Some? then [Mapped(Mapping(kind, r.value, len))] else []);
    }

    /** One slot on, from `count - 1` to 0. */
    method Next(ghost base: nat, ghost o: nat, i: nat) returns (r: nat)
      requires base < count && o < count && i == Wrap(base, o, count)
      ensures r == Wrap(base, o + 1, count)
    {
      WrapStep(base, o, count);
      r := i + 1;
      if r == count { r := 0; }
    }

    // -------------------------------------------------------------- reclaiming

    /** Undo what slot `o` has mapped, if anything, and free the slot. */
    method UnmapSlot(ghost base: nat, ghost cells: seq<Slot>, ghost o: nat, ghost c: Slot, i: nat)
      requires Shape() && Laid(buf[..], desc[..], base, cells, o) && o < |cells| && i == Wrap(base, o, count)
      requires cells[o] == c && c.start.None? && (c.rec.Some? ==> c.rec.value.kind == Page)
      modifies this`st, buf
      ensures Laid(buf[..], desc[..], base, cells, o + 1)
      ensures st == old(st).(log := old(st).log + UnmapOf(c.rec))
    {
      LaidAt(buf[..], desc[..], base, cells, o, o);
      LaidClear(buf[..], desc[..], base, cells, o, buf[i].(len := 0));
      if buf[i].len != 0 {
        Log(Unmapped(Mapping(Page, buf[i].dma, buf[i].len)));
        buf[i] := buf[i].(len := 0);
      }
      assert buf[..] == old(buf[..])[i := old(buf[i]).(len := 0)];
    }

    /** Free the buffer of the packet at slot `o`, undo the mapping of its head and free the slot. */
    method ReleaseHead(ghost base: nat, ghost cells: seq<Slot>, ghost o: nat, i: nat)
      requires Shape() && Laid(buf[..], desc[..], base, cells, o) && o < |cells| && i == Wrap(base, o, count)
      requires cells[o].start.Some?
      requires cells[o].rec.Some? && cells[o].rec.value.kind == Single
      modifies this`st, buf
      ensures Laid(buf[..], desc[..], base, cells, o + 1)
      ensures st == old(st).(log := old(st).log + [Freed(cells[o].start.value.skb)] + UnmapOf(cells[o].rec))
    {
      LaidAt(buf[..], desc[..], base, cells, o, o);
      LaidClear(buf[..], desc[..], base, cells, o, buf[i].(nextToWatch := None, len := 0));
      buf[i] := buf[i].(nextToWatch := None);
      Log(Freed(buf[i].skb.value));
      Log(Unmapped(Mapping(Single, buf[i].dma, buf[i].len)));
      buf[i] := buf[i].(len := 0);
      assert buf[..] == old(buf[..])[i := old(buf[i]).(nextToWatch := None, len := 0)];
    }

    /** Step to slot j of the packet at `at` and undo what it has mapped. */
    method UnmapNext(ghost base: nat, ghost cells: seq<Slot>, ghost at: nat, ghost p: Packet, ghost j: nat,
                     ghost log: seq<Act>, biased: nat, prev: nat) returns (i: nat, next: nat)
      requires Shape() && Laid(buf[..], desc[..], base, cells, at + j) && |cells| < count
      requires 0 < j < |p| && at + j < |cells| && cells[at + j] == p[j]
      requires prev == Wrap(base, at + j - 1, count) && biased == prev + 0x1_0000_0000 - count
      requires st.log == log + PacketLog(p, j)
      modifies this`st, buf
      ensures Laid(buf[..], desc[..], base, cells, at + j + 1)
      ensures next == Wrap(base, at + j, count) && i == next + 0x1_0000_0000 - count
      ensures st == old(st).(log := log + PacketLog(p, j + 1))
    {
      WrapStep(base, at + j - 1, count);
      var step := Advance(biased, prev, count);
      i, next := step.0, step.1;
      PacketLogStep(log, p, j);
      UnmapSlot(base, cells, at + j, p[j], next);
    }

    /** The inner walk of clean_tx_irq: from the packet's first slot, already released, to its last. */
    method WalkPacket(ghost base: nat, ghost cells: seq<Slot>, ghost at: nat, ghost p: Packet, ghost log: seq<Act>,
                      eop: nat, biased: nat, start: nat) returns (i: nat, next: nat)
      requires Shape() && Laid(buf[..], desc[..], base, cells, at + 1) && |cells| < count
      requires Sits(p, cells, at)
      requires start == Wrap(base, at, count) && biased == start + 0x1_0000_0000 - count
      requires eop == Wrap(base, at + |p| - 1, count)
      requires st.log == log + PacketLog(p, 1)
      modifies this`st, buf
      ensures Laid(buf[..], desc[..], base, cells, at + |p|)
      ensures next == eop && i == next + 0x1_0000_0000 - count
      ensures st == old(st).(log := log + PacketLog(p, |p|))
    {
      i, next := biased, start;
      ghost var j := 1;
      while next != eop
        invariant 0 < j <= |p|
        invariant next == Wrap(base, at + j - 1, count) && i == next + 0x1_0000_0000 - count
        invariant Laid(buf[..], desc[..], base, cells, at + j)
        invariant st == old(st).(log := log + PacketLog(p, j))
        decreases |p| - j
      {
        SitsAt(p, cells, at, j);
        i, next := UnmapNext(base, cells, at, p, j, log, i, next);
        j := j + 1;
      }
      assert j == |p| by { WrapInjective(base, at + j - 1, at + |p| - 1, count); }
    }

    /** One packet of clean_tx_irq: release its head, walk to the watched descriptor and go one past it. */
    method RetirePacket(ghost base: nat, ghost cells: seq<Slot>, ghost at: nat, ghost p: Packet, biased: nat, start: nat)
      returns (i: nat, next: nat)
      requires Shape() && Laid(buf[..], desc[..], base, cells, at) && |cells| < count
      requires Sits(p, cells, at)
      requires start == Wrap(base, at, count) && biased == start + 0x1_0000_0000 - count
      modifies this`st, buf
      ensures Laid(buf[..], desc[..], base, cells, at + |p|)
      ensures next == Wrap(base, at + |p|, count) && i == next + 0x1_0000_0000 - count
      ensures st == old(st).(log := old(st).log + PacketLog(p, |p|))
    {
      SitsAt(p, cells, at, 0);
      LaidAt(buf[..], desc[..], base, cells, at, at);
      var eop := buf[start].nextToWatch.value;
      PacketLogStep(st.log, p, 0);
      ReleaseHead(base, cells, at, start);
      i, next := WalkPacket(base, cells, at, p, old(st).log, eop, biased, start);
      WrapStep(base, at + |p| - 1, count);
      var step := Advance(i, next, count);
      i, next := step.0, step.1;
    }

    /** The cleaner has reclaimed the first n packets of `q` and stands at the slot after them. */
    ghost predicate Reached(q: seq<Packet>, n: nat, i: nat, next: nat)
      reads this, buf, desc
    {
      && Shape() && nextToClean < count && |Flatten(q)| < count
      && n <= |q| && |FlattenTo(q, n)| <= |Flatten(q)|
      && Laid(buf[..], desc[..], nextToClean, Flatten(q), |FlattenTo(q, n)|)
      && next == Wrap(nextToClean, |FlattenTo(q, n)|, count) && i == next + 0x1_0000_0000 - count
    }

    /** What clean_tx_irq reads before it commits to a packet. */
    method Peek(ghost q: seq<Packet>, ghost n: nat, ghost i: nat, at: nat) returns (stop: bool, bytes: nat, segs: nat)
      requires Reached(q, n, i, at)
      ensures stop == (n == |q| || !Done(q[n]))
      ensures !stop ==> bytes == q[n][0].start.value.bytes && segs == q[n][0].start.value.segs
    {
      if n == |q| {
        TailSeen(buf[..], desc[..], nextToClean, Flatten(q));
      } else {
        PacketAt(q, n);
        HeadSeen(buf[..], desc[..], nextToClean, Flatten(q), |FlattenTo(q, n)|, q[n]);
      }
      bytes, segs := buf[at].bytecount, buf[at].gsoSegs;
      stop := buf[at].nextToWatch.None? || !desc[buf[at].nextToWatch.value].dd;
    }

    method RetireNext(ghost q: seq<Packet>, ghost n: nat, ghost log: seq<Act>, biased: nat, at: nat) returns (i: nat, next: nat)
      requires Reached(q, n, biased, at) && n < |q| && st.log == log + RetireLog(q, n)
      modifies this`st, buf
      ensures Reached(q, n + 1, i, next)
      ensures st == old(st).(log := log + RetireLog(q, n + 1))
    {
      hide Laid, Sits, PacketLog, RetireLog;
      ghost var before, after, base := |FlattenTo(q, n)|, |FlattenTo(q, n + 1)|, nextToClean;
      RetireLogStep(log, q, n);
      assert Sits(q[n], Flatten(q), before) && after == before + |q[n]| <= |Flatten(q)| by { PacketAt(q, n); }
      i, next := RetirePacket(base, Flatten(q), before, q[n], biased, at);
      assert next == Wrap(base, after, count);
    }

    /** One round of clean_tx_irq's loop: stop, or retire one packet and count it. */
    method CleanRound(ghost q: seq<Packet>, ghost n: nat, ghost log: seq<Act>, biased: nat, at: nat, sum: Totals)
      returns (stop: bool, i: nat, next: nat, totals: Totals)
      requires Reached(q, n, biased, at) && st.log == log + RetireLog(q, n) && sum == TotalsTo(q, n)
      modifies this`st, buf
      ensures stop == (n == |q| || !Done(q[n]))
      ensures stop ==> st == old(st) && (i, next, totals) == (biased, at, sum) && Reached(q, n, i, next)
      ensures !stop ==> Reached(q, n + 1, i, next) && st == old(st).(log := log + RetireLog(q, n + 1)) && totals == TotalsTo(q, n + 1)
    {
      var bytes, segs;
      stop, bytes, segs := Peek(q, n, biased, at);
      if stop { return true, biased, at, sum; }
      totals := sum.Add(bytes, segs);
      i, next := RetireNext(q, n, log, biased, at);
    }

    /** The loop of clean_tx_irq: retire completed packets, oldest first, while budget lasts. */
    method CleanPass(limit: nat) returns (i: nat, next: nat, totals: Totals, budget: nat, ghost n: nat)
      requires Valid() && limit > 0
      modifies this`st, buf
      ensures n == RetireCount(old(st.queue), limit) && budget == limit - n
      ensures Reached(old(st.queue), n, i, next)
      ensures totals == TotalsTo(old(st.queue), n)
      ensures st == old(st).(log := old(st).log + RetireLog(old(st.queue), n))
    {
      ghost var q, log := st.queue, st.log;
      i, next := U32(nextToClean - count), nextToClean;
      totals, budget, n := Totals(0, 0), limit, 0;
      var stop := false;
      while budget != 0 && !stop
        invariant n <= |q| && n <= limit && budget == limit - n
        invariant RetireFrom(q, limit, n) == RetireCount(q, limit)
        invariant stop ==> n == RetireCount(q, limit)
        invariant Reached(q, n, i, next) && totals == TotalsTo(q, n)
        invariant st == old(st).(log := log + RetireLog(q, n))
        decreases |q| - n, !stop
      {
        stop, i, next, totals := CleanRound(q, n, log, i, next, totals);
        if !stop { n, budget := n + 1, budget - 1; }
      }
    }

    /** Publish next_to_clean and the statistics once the loop has reclaimed n packets. */
    method FinishClean(ghost s0: TxState, ghost n: nat, ghost i: nat, next: nat, totals: Totals)
      requires Agrees() && n <= |s0.queue| && st == s0.(log := s0.log + RetireLog(s0.queue, n))
      requires Reached(s0.queue, n, i, next) && totals == TotalsTo(s0.queue, n)
      requires xdp && !primed ==> nextToClean == 0 && s0.queue == []
      requires nextToUse == Wrap(nextToClean, |Flatten(s0.queue)|, count)
      modifies this
      ensures Valid()
      ensures st == Retire(s0, n)
      ensures totals.packets == U32(SegsTo(s0.queue, n))
    {
      ghost var q := s0.queue;
      LaidRetired(buf[..], desc[..], nextToClean, q, n, next);
      TotalsAreSums(q, n);
      nextToClean := next;
      packets, bytes := packets + totals.packets, bytes + totals.bytes;
      st := st.(queue := q[n..], packets := packets, bytes := bytes);
    }

    /** The end of clean_tx_irq: wake the queue if packets were retired and enough room is free. */
    method WakeQueue(ghost s0: TxState, segs: nat, carrier: bool)
      requires Valid() && st == s0
      modifies this
      ensures Valid()
      ensures st == if !xdp && segs != 0 && carrier && Unused(s0, count) >= TX_WAKE_THRESHOLD then s0.(stopped := false) else s0
    {
      if !xdp && segs != 0 && carrier && DescUnused(nextToClean, nextToUse, count) >= TX_WAKE_THRESHOLD && stopped {
        stopped := false;
        st := st.(stopped := false);
      }
    }

    /** ixgbevf_clean_tx_irq with no hang check pending; false asks to be polled again. */
    method CleanTxIrq(down: bool, carrier: bool) returns (complete: bool)
      requires Valid() || (Down() && down)
      modifies this, buf
      ensures if old(Valid()) then Valid() else Down()
      ensures (st, complete) == CleanIrq(old(st), count, xdp, down, carrier)
    {
      hide Laid;
      if down { return true; }
      var i, next, totals, budget; ghost var n;
      i, next, totals, budget, n := CleanPass(count / 2);
      FinishClean(old(st), n, i, U32(i + count), totals);
      WakeQueue(st, totals.packets, carrier);
      return budget != 0;
    }

    // -------------------------------------------------------------- transmitting

    /** Advance to the next descriptor and clear its olinfo_status, and with it DD. */
    method NextDesc(ghost base: nat, ghost cells: seq<Slot>, prev: nat) returns (i: nat)
      requires Shape() && Laid(buf[..], desc[..], base, cells, 0) && 0 < |cells| < count
      requires prev == Wrap(base, |cells| - 1, count)
      modifies desc
      ensures i == Wrap(base, |cells|, count)
      ensures Laid(buf[..], desc[..], base, cells + [Slot(None, None, desc[i])], 0)
      ensures desc[i].paylen == 0 && !desc[i].dd
    {
      i := Next(base, |cells| - 1, prev);
      LaidPush(buf[..], desc[..], base, cells, desc[i].(paylen := 0, dd := false));
      desc[i] := desc[i].(paylen := 0, dd := false);
      assert desc[..] == old(desc[..])[i := desc[i]];
    }

    /** Write descriptor fields of the last slot. */
    method SetDesc(ghost base: nat, ghost cells: seq<Slot>, ghost rec: Option<Mapping>, i: nat, d: TxDesc)
      requires Shape() && base < count && |cells| < count && i == Wrap(base, |cells|, count)
      requires Laid(buf[..], desc[..], base, cells + [Slot(None, rec, desc[i])], 0)
      modifies desc
      ensures desc[i] == d
      ensures Laid(buf[..], desc[..], base, cells + [Slot(None, rec, d)], 0)
    {
      ghost var all := cells + [Slot(None, rec, desc[i])];
      LaidAt(buf[..], desc[..], base, all, 0, |cells|);
      LaidUpdate(buf[..], desc[..], base, all, |cells|, Slot(None, rec, d), buf[i]);
      desc[i] := d;
      assert desc[..] == old(desc[..])[i := d] && buf[..] == buf[..][i := buf[i]];
      assert all[|cells| := Slot(None, rec, d)] == cells + [Slot(None, rec, d)];
    }

    /** The inner loop of tx_map and the command word after it: one mapped buffer into descriptors. */
    method WriteChunks(ghost base: nat, ghost cells: seq<Slot>, ghost rec: Option<Mapping>, start: nat, dma: nat, len: nat, last: bool)
      returns (i: nat)
      requires Shape() && base < count && |cells| + UseCount(len) < count && start == Wrap(base, |cells|, count)
      requires Laid(buf[..], desc[..], base, cells + [Slot(None, rec, desc[start])], 0)
      requires len > 0 && !desc[start].dd
      modifies desc
      ensures |cells| + UseCount(len) > 0 && i == Wrap(base, |cells| + UseCount(len) - 1, count)
      ensures Laid(buf[..], desc[..], base, cells + BufferSlots(rec, Chunks(dma, len, old(desc[start].paylen), last)), 0)
    {
      i := start;
      var addr, size := dma, len;
      ghost var x, r, whole := cells, rec, BufferSlots(rec, Chunks(dma, len, desc[start].paylen, last));
      SetDesc(base, x, r, i, desc[i].(addr := addr));
      while size > MAX_DATA_PER_TXD
        invariant 0 < size <= len && |x| + UseCount(size) == |cells| + UseCount(len)
        invariant i == Wrap(base, |x|, count) && !desc[i].dd && desc[i].addr == addr
        invariant Laid(buf[..], desc[..], base, x + [Slot(None, r, desc[i])], 0)
        invariant x + BufferSlots(r, Chunks(addr, size, desc[i].paylen, last)) == cells + whole
      {
        ChunkSlotsStep(x, r, addr, size, desc[i].paylen, last);
        SetDesc(base, x, r, i, desc[i].(context := false, len := MAX_DATA_PER_TXD, eopRs := false));
        x, r := x + [Slot(None, r, desc[i])], None;
        i := NextDesc(base, x, i);
        addr, size := addr + MAX_DATA_PER_TXD, size - MAX_DATA_PER_TXD;
        SetDesc(base, x, r, i, desc[i].(addr := addr));
      }
      LastChunk(r, addr, size, desc[i].paylen, last);
      SetDesc(base, x, r, i, desc[i].(context := false, len := size, eopRs := last));
    }

    /** Record a mapping in slot o. */
    method RecordMapping(ghost base: nat, ghost cells: seq<Slot>, ghost o: nat, b: nat, ghost kind: MapKind, addr: nat, len: nat)
      requires Shape() && Laid(buf[..], desc[..], base, cells, 0) && o < |cells| && b == Wrap(base, o, count)
      requires cells[o].start.None? && len > 0
      modifies buf
      ensures Laid(buf[..], desc[..], base, cells[o := cells[o].(rec := Some(Mapping(kind, addr, len)))], 0)
      ensures buf[b].skb == old(buf[b].skb) && buf[b].bytecount == old(buf[b].bytecount) && buf[b].gsoSegs == old(buf[b].gsoSegs)
      ensures forall j :: 0 <= j < count && j != b ==> buf[j] == old(buf[j])
    {
      LaidAt(buf[..], desc[..], base, cells, 0, o);
      ghost var c := cells[o].(rec := Some(Mapping(kind, addr, len)));
      LaidUpdate(buf[..], desc[..], base, cells, o, c, buf[b].(len := len, dma := addr));
      buf[b] := buf[b].(len := len, dma := addr);
      assert buf[..] == old(buf[..])[b := buf[b]] && desc[..] == desc[..][b := c.desc];
    }

    /** One round of tx_map's loop for a buffer whose mapping succeeded. */
    method FillBuffer(ghost base: nat, ghost cells: seq<Slot>, ghost skb: Skb, ghost dma: seq<Option<nat>>, ghost paylen: nat, ghost k: nat,
                      b: nat, start: nat, addr: nat, size: nat, last: bool) returns (i: nat)
      requires Shape() && base < count && skb.NonEmpty() && k <= |skb.frags| && |dma| == |skb.frags| + 1
      requires forall j :: 0 <= j <= k ==> dma[j].Some?
      requires addr == dma[k].value && size == skb.Size(k) && last == (k == |skb.frags|)
      requires |cells| + Needed(skb) + 1 < count
      requires |PartialSlots(skb, dma, paylen, k)| <= Needed(skb) + 1
      requires start == Wrap(base, |cells| + |PartialSlots(skb, dma, paylen, k)|, count)
      requires b == if k == 0 then Wrap(base, |cells|, count) else start
      requires Laid(buf[..], desc[..], base, cells + PartialSlots(skb, dma, paylen, k) + [Slot(None, None, desc[start])], 0)
      requires !desc[start].dd && desc[start].paylen == if k == 0 then paylen else 0
      modifies buf, desc
      ensures Laid(buf[..], desc[..], base, cells + PartialSlots(skb, dma, paylen, k + 1), 0)
      ensures i == Wrap(base, |cells| + |PartialSlots(skb, dma, paylen, k + 1)| - 1, count)
      ensures var f := Wrap(base, |cells|, count);
              buf[f].skb == old(buf[f].skb) && buf[f].bytecount == old(buf[f].bytecount) && buf[f].gsoSegs == old(buf[f].gsoSegs)
    {
      ghost var p := PartialSlots(skb, dma, paylen, k);
      PartialFits(skb, dma, paylen, k);
      FrameAlgebra(cells, skb, dma, paylen, k);
      RecordAlgebra(cells, skb, dma, paylen, k, desc[start]);
      RecordMapping(base, cells + p + [Slot(None, None, desc[start])], if k == 0 then |cells| else |cells| + |p|, b,
                    BufferMapping(skb, dma, k).kind, addr, size);
      i := WriteChunks(base, cells + Before(skb, dma, paylen, k), RecOf(skb, dma, k), start, addr, size, last);
    }

    /** Undo the last slot of a failed map. */
    method UnwindSlot(ghost base: nat, ghost cells: seq<Slot>, ghost c: Slot, i: nat, ghost kind: MapKind)
      requires Shape() && Laid(buf[..], desc[..], base, cells + [c], 0) && i == Wrap(base, |cells|, count)
      requires c.start.None? && (c.rec.Some? ==> c.rec.value.kind == kind)
      modifies this`st, buf
      ensures Laid(buf[..], desc[..], base, cells, 0)
      ensures st == old(st).(log := old(st).log + UnmapOf(c.rec))
      ensures buf[i].skb == old(buf[i].skb) && forall j :: 0 <= j < count && j != i ==> buf[j] == old(buf[j])
    {
      assert (cells + [c])[|cells|] == c;
      LaidAt(buf[..], desc[..], base, cells + [c], 0, |cells|);
      LaidPop(buf[..], desc[..], base, cells, c, buf[i].(len := 0));
      if buf[i].len != 0 {
        Log(Unmapped(Mapping(kind, buf[i].dma, buf[i].len)));
      }
      buf[i] := buf[i].(len := 0);
      assert buf[..] == old(buf[..])[i := old(buf[i]).(len := 0)];
    }

    /** Undo the n-th slot and step back, from 0 to the end of the arrays. */
    method UnwindBack(ghost base: nat, ghost cells: seq<Slot>, ghost slots: seq<Slot>, ghost n: nat, ghost log: seq<Act>, at: nat)
      returns (i: nat)
      requires Shape() && Unfinished(slots) && 1 < n <= |slots| && |cells| + |slots| < count
      requires Laid(buf[..], desc[..], base, cells + slots[..n], 0) && at == Wrap(base, |cells| + n - 1, count)
      requires st.log + UnwindTo(slots, n) == log
      modifies this`st, buf
      ensures Laid(buf[..], desc[..], base, cells + slots[..n - 1], 0) && i == Wrap(base, |cells| + n - 2, count)
      ensures st == old(st).(log := st.log) && st.log + UnwindTo(slots, n - 1) == log
      ensures forall k :: 0 <= k < count && k != at ==> buf[k] == old(buf[k])
    {
      assert cells + slots[..n] == (cells + slots[..n - 1]) + [slots[n - 1]];
      UnwindStep(st.log, slots, n);
      UnwindSlot(base, cells + slots[..n - 1], slots[n - 1], at, Page);
      i := if at == 0 then count - 1 else at - 1;
    }

    /** The loop of the dma_error path: back to `first`, across the wrap. */
    method UnwindLoop(ghost base: nat, ghost cells: seq<Slot>, ghost slots: seq<Slot>, ghost log: seq<Act>, first: nat, start: nat)
      requires Shape() && Unfinished(slots) && |cells| + |slots| < count
      requires Laid(buf[..], desc[..], base, cells + slots, 0)
      requires first == Wrap(base, |cells|, count) && start == Wrap(base, |cells| + |slots| - 1, count)
      requires st.log + UnwindTo(slots, |slots|) == log
      modifies this`st, buf
      ensures Laid(buf[..], desc[..], base, cells + slots[..1], 0)
      ensures st == old(st).(log := st.log) && st.log + UnwindTo(slots, 1) == log
      ensures buf[first].skb == old(buf[first].skb)
    {
      var i := start;
      ghost var n := |slots|;
      assert slots[..n] == slots;
      while i != first
        invariant 0 < n <= |slots| && i == Wrap(base, |cells| + n - 1, count)
        invariant Laid(buf[..], desc[..], base, cells + slots[..n], 0)
        invariant st == old(st).(log := st.log) && st.log + UnwindTo(slots, n) == log
        invariant buf[first].skb == old(buf[first].skb)
        decreases n
      {
        i := UnwindBack(base, cells, slots, n, log, i);
        n := n - 1;
      }
      assert n == 1 by { WrapInjective(base, |cells| + n - 1, |cells|, count); }
    }

    /** The dma_error path of tx_map: every mapping made so far is undone and the ring is as before. */
    method Unwind(ghost base: nat, ghost cells: seq<Slot>, ghost slots: seq<Slot>, first: nat, start: nat)
      requires Shape() && Unfinished(slots) && |cells| + |slots| < count
      requires Laid(buf[..], desc[..], base, cells + slots, 0)
      requires first == Wrap(base, |cells|, count) && start == Wrap(base, |cells| + |slots| - 1, count)
      modifies this`st, buf
      ensures Laid(buf[..], desc[..], base, cells, 0)
      ensures st == old(st).(log := old(st).log + UnwindTo(slots, |slots|))
      ensures buf[first].skb == old(buf[first].skb)
    {
      UnwindLoop(base, cells, slots, st.log + UnwindTo(slots, |slots|), first, start);
      assert slots[..1] == [slots[0]];
      UnwindStep(st.log, slots, 1);
      UnwindSlot(base, cells, slots[0], first, Single);
    }

    /** tx_map stands at descriptor i, the first of buffer k; the buffers before k are in the ring. */
    ghost predicate InMap(cells: seq<Slot>, skb: Skb, dma: seq<Option<nat>>, paylen: nat, k: nat, i: nat)
      reads this, buf, desc
    {
      && Shape() && nextToClean < count && skb.NonEmpty()
      && |dma| == |skb.frags| + 1 && k <= |skb.frags| && (forall j :: 0 <= j < k ==> dma[j].Some?)
      && |cells| + Needed(skb) + 3 < count && |PartialSlots(skb, dma, paylen, k)| <= Needed(skb) + 1
      && i == Wrap(nextToClean, |cells| + |PartialSlots(skb, dma, paylen, k)|, count)
      && Laid(buf[..], desc[..], nextToClean, cells + PartialSlots(skb, dma, paylen, k) + [Slot(None, None, desc[i])], 0)
      && !desc[i].dd && desc[i].paylen == (if k == 0 then paylen else 0)
    }

    /** The fields xmit_frame_ring wrote into the first buffer before the frame was mapped. */
    ghost function Tag(first: nat): (Option<nat>, nat, nat)
      reads this, buf
      requires first < buf.Length
    {
      (buf[first].skb, buf[first].bytecount, buf[first].gsoSegs)
    }

    /** All buffers are mapped and written; i is the last descriptor of the frame. */
    ghost predicate AllMapped(cells: seq<Slot>, skb: Skb, dma: seq<Option<nat>>, paylen: nat, i: nat)
      reads this, buf, desc
    {
      && Shape() && nextToClean < count && skb.NonEmpty() && |dma| == |skb.frags| + 1 && MappedCount(dma) == |dma|
      && var p := PartialSlots(skb, dma, paylen, |dma|);
      && |p| == Needed(skb) + 1 && |cells| + |p| + 2 < count
      && i == Wrap(nextToClean, |cells| + |p| - 1, count)
      && Laid(buf[..], desc[..], nextToClean, cells + p, 0)
    }

    /** One successful round of tx_map's loop, with another buffer to come. */
    method MapRound(ghost cells: seq<Slot>, ghost skb: Skb, ghost dma: seq<Option<nat>>, ghost paylen: nat, ghost k: nat,
                    first: nat, b: nat, start: nat, addr: nat, size: nat) returns (i: nat)
      requires InMap(cells, skb, dma, paylen, k, start) && k < |skb.frags|
      requires dma[k] == Some(addr) && size == skb.Size(k)
      requires first == Wrap(nextToClean, |cells|, count) && b == if k == 0 then first else start
      modifies buf, desc
      ensures InMap(cells, skb, dma, paylen, k + 1, i)
      ensures Tag(first) == old(Tag(first))
    {
      PartialFits(skb, dma, paylen, k);
      i := FillBuffer(nextToClean, cells, skb, dma, paylen, k, b, start, addr, size, false);
      i := NextDesc(nextToClean, cells + PartialSlots(skb, dma, paylen, k + 1), i);
    }

    /** The last successful round. */
    method MapLast(ghost cells: seq<Slot>, ghost skb: Skb, ghost dma: seq<Option<nat>>, ghost paylen: nat,
                   first: nat, b: nat, start: nat, addr: nat, size: nat) returns (i: nat)
      requires InMap(cells, skb, dma, paylen, |skb.frags|, start)
      requires dma[|skb.frags|] == Some(addr) && size == skb.Size(|skb.frags|)
      requires first == Wrap(nextToClean, |cells|, count) && b == if skb.frags == [] then first else start
      modifies buf, desc
      ensures AllMapped(cells, skb, dma, paylen, i)
      ensures Tag(first) == old(Tag(first))
    {
      PartialFits(skb, dma, paylen, |skb.frags|);
      DataSlotsShape(skb, dma, paylen, |dma|);
      assert skb.frags[..|dma| - 1] == skb.frags;
      i := FillBuffer(nextToClean, cells, skb, dma, paylen, |skb.frags|, b, start, addr, size, true);
    }

    /** The loop state of tx_map: buffer f has been given to the DMA API with outcome `addr`. */
    ghost predicate AtBuffer(cells: seq<Slot>, skb: Skb, dma: seq<Option<nat>>, paylen: nat, f: nat, i: nat,
                             addr: Option<nat>, size: nat, dataLen: nat, log: seq<Act>)
      reads this, buf, desc
    {
      && InMap(cells, skb, dma, paylen, f, i)
      && addr == dma[f] && size == skb.Size(f) && dataLen == Sum(skb.frags[f..])
      && st.log == log + MapLog(skb, dma, if addr.Some? then f + 1 else f)
    }

    /** Map the head. */
    method MapHead(ghost cells: seq<Slot>, skb: Skb, dma: seq<Option<nat>>, ghost paylen: nat, ghost i: nat)
      returns (addr: Option<nat>)
      requires InMap(cells, skb, dma, paylen, 0, i)
      modifies this`st
      ensures AtBuffer(cells, skb, dma, paylen, 0, i, addr, skb.head, skb.DataLen(), old(st).log)
      ensures st == old(st).(log := st.log)
    {
      MapLogStep(st.log, skb, dma, 0);
      assert st.log + MapLog(skb, dma, 0) == st.log;
      assert skb.frags[0..] == skb.frags;
      addr := DmaMap(Single, dma[0], skb.head);
    }

    /** Write buffer f and map fragment f. */
    method MapNext(ghost cells: seq<Slot>, skb: Skb, dma: seq<Option<nat>>, ghost paylen: nat, ghost log: seq<Act>,
                   f: nat, first: nat, b: nat, start: nat, addr: Option<nat>, size: nat, dataLen: nat)
      returns (i: nat, addr': Option<nat>, size': nat, dataLen': nat)
      requires AtBuffer(cells, skb, dma, paylen, f, start, addr, size, dataLen, log) && addr.Some? && f < |skb.frags|
      requires first == Wrap(nextToClean, |cells|, count) && b == if f == 0 then first else start
      modifies this`st, buf, desc
      ensures AtBuffer(cells, skb, dma, paylen, f + 1, i, addr', size', dataLen', log)
      ensures st == old(st).(log := st.log)
      ensures Tag(first) == old(Tag(first))
    {
      DataLeft(skb, f);
      i := MapRound(cells, skb, dma, paylen, f, first, b, start, addr.value, size);
      size' := skb.frags[f];
      dataLen' := dataLen - size';
      MapLogStep(log, skb, dma, f + 1);
      addr' := DmaMap(Page, dma[f + 1], size');
    }

    /** The loop of tx_map: buffers are mapped and written in order until one fails or only the last is left. */
    method MapLoop(ghost cells: seq<Slot>, skb: Skb, dma: seq<Option<nat>>, ghost paylen: nat, first: nat, start: nat)
      returns (i: nat, f: nat, b: nat, addr: Option<nat>, size: nat)
      requires InMap(cells, skb, dma, paylen, 0, start) && first == Wrap(nextToClean, |cells|, count)
      modifies this`st, buf, desc
      ensures InMap(cells, skb, dma, paylen, f, i) && addr == dma[f] && size == skb.Size(f)
      ensures (addr.None? || f == |skb.frags|) && b == if f == 0 then first else i
      ensures st == old(st).(log := old(st).log + MapLog(skb, dma, if addr.Some? then f + 1 else f))
      ensures Tag(first) == old(Tag(first))
    {
      hide Laid, PartialSlots, MapLog;
      i := start;
      var dataLen;
      f, b, size, dataLen := 0, first, skb.head, skb.DataLen();
      addr := MapHead(cells, skb, dma, paylen, i);
      while addr.Some? && dataLen != 0
        invariant AtBuffer(cells, skb, dma, paylen, f, i, addr, size, dataLen, old(st).log)
        invariant b == if f == 0 then first else i
        invariant st == old(st).(log := st.log)
        invariant Tag(first) == old(Tag(first))
        decreases |skb.frags| - f
      {
        DataLeft(skb, f);
        i, addr, size, dataLen := MapNext(cells, skb, dma, paylen, old(st).log, f, first, b, i, addr, size, dataLen);
        b, f := i, f + 1;
      }
      DataLeft(skb, f);
    }

    /** tx_map's loop and its last buffer. */
    method MapBuffers(ghost cells: seq<Slot>, skb: Skb, dma: seq<Option<nat>>, ghost paylen: nat, first: nat, start: nat)
      returns (ok: bool, i: nat)
      requires InMap(cells, skb, dma, paylen, 0, start) && first == Wrap(nextToClean, |cells|, count)
      modifies this`st, buf, desc
      ensures ok == (MappedCount(dma) == |dma|)
      ensures ok ==> AllMapped(cells, skb, dma, paylen, i)
      ensures !ok ==> InMap(cells, skb, dma, paylen, MappedCount(dma), i)
      ensures st == old(st).(log := old(st).log + MapLog(skb, dma, MappedCount(dma)))
      ensures Tag(first) == old(Tag(first))
    {
      var f, b, addr, size;
      i, f, b, addr, size := MapLoop(cells, skb, dma, paylen, first, start);
      ok := addr.Some?;
      MappedCountIs(dma, if ok then f + 1 else f);
      if ok {
        i := MapLast(cells, skb, dma, paylen, first, b, i, addr.value, size);
      }
    }

    /** Overwrite one buffer record. */
    method Touch(i: nat, b: TxBuffer)
      requires i < buf.Length
      modifies buf
      ensures buf[..] == old(buf[..])[i := b]
    {
      buf[i] := b;
    }

    /** A packet laid after the queue joins it; next_to_use moves past its last descriptor. */
    method Append(ghost s0: TxState, ghost p: Packet, last: nat)
      requires Shape() && Agrees() && nextToClean < count && st == s0.(log := st.log) && (xdp ==> primed)
      requires 0 < |Flatten(s0.queue + [p])| < count && last == Wrap(nextToClean, |Flatten(s0.queue + [p])| - 1, count)
      requires Laid(buf[..], desc[..], nextToClean, Flatten(s0.queue + [p]), 0)
      modifies this
      ensures Valid()
      ensures st == s0.(queue := s0.queue + [p], log := old(st).log)
    {
      nextToUse := Next(nextToClean, |Flatten(s0.queue + [p])| - 1, last);
      st := st.(queue := s0.queue + [p]);
    }

    /** The end of tx_map: publish the frame by its last descriptor. */
    method Publish(ghost s0: TxState, ghost skb: Skb, ghost offload: Offload, ghost dma: seq<Option<nat>>, first: nat, last: nat)
      requires XmitInput(skb, dma) && AllMapped(Flatten(s0.queue), skb, dma, PayLen(skb, offload), last)
      requires Agrees() && !xdp
      requires st == s0.(log := st.log) && first == Wrap(nextToClean, |Flatten(s0.queue)|, count)
      requires Tag(first) == (Some(skb.id), ByteCount(skb, offload), GsoSegs(offload))
      modifies this, buf
      ensures Valid()
      ensures IsPacket(Frame(skb, offload, dma)) && st == s0.(queue := s0.queue + [Frame(skb, offload, dma)], log := old(st).log)
    {
      LaidPublish(buf[..], desc[..], nextToClean, s0.queue, skb, offload, dma);
      Touch(first, buf[first].(nextToWatch := Some(last)));
      Append(s0, Frame(skb, offload, dma), last);
    }

    /** The failure path of tx_map, down to freeing the frame. */
    method MapFailed(ghost s0: TxState, ghost skb: Skb, ghost dma: seq<Option<nat>>, ghost paylen: nat, first: nat, i: nat)
      requires MappedCount(dma) < |dma|
      requires InMap(Flatten(s0.queue), skb, dma, paylen, MappedCount(dma), i)
      requires Agrees() && !xdp
      requires st == s0.(log := st.log) && first == Wrap(nextToClean, |Flatten(s0.queue)|, count)
      requires buf[first].skb == Some(skb.id)
      modifies this, buf
      ensures Valid()
      ensures var p := PartialSlots(skb, dma, paylen, MappedCount(dma));
              st == s0.(log := old(st).log + UnwindTo(p, |p|) + [Freed(skb.id)])
    {
      ghost var p := PartialSlots(skb, dma, paylen, MappedCount(dma));
      ghost var slots, cells := p + [Slot(None, None, desc[i])], Flatten(s0.queue);
      FailedSlots(skb, dma, paylen, MappedCount(dma), desc[i]);
      assert cells + slots == cells + p + [Slot(None, None, desc[i])];
      Unwind(nextToClean, cells, slots, first, i);
      Log(Freed(buf[first].skb.value));
      assert SlotOk(buf[..], desc[..], nextToClean, cells, 0, |cells|);
      LaidTouch(buf[..], desc[..], nextToClean, cells, buf[first].(skb := None));
      Touch(first, buf[first].(skb := None));
      nextToUse := first;
    }

    /** ixgbevf_maybe_stop_tx with no cleaner running beside it; TxWake interleaves the two. */
    method MaybeStopTx(size: nat) returns (busy: bool)
      requires Valid()
      modifies this
      ensures Valid()
      ensures busy == (Unused(st, count) < size)
      ensures st == if busy then old(st).(stopped := true) else old(st)
    {
      busy := DescUnused(nextToClean, nextToUse, count) < size;
      if busy {
        stopped := true;
        st := st.(stopped := true);
      }
    }

    /** The descriptor count of xmit_frame_ring, kept in 16 bits. */
    method CountDescs(skb: Skb) returns (n: nat)
      ensures n == U16(Needed(skb))
    {
      n := U16(UseCount(skb.head));
      assert skb.frags[..|skb.frags|] == skb.frags;
      for f := 0 to |skb.frags|
        invariant n == U16(UseCount(skb.head) + FragsUse(skb.frags[..f]))
      {
        assert skb.frags[..f + 1][..f] == skb.frags[..f];
        AddInU16(UseCount(skb.head) + FragsUse(skb.frags[..f]), UseCount(skb.frags[f]));
        n := U16(n + UseCount(skb.frags[f]));
      }
    }

    /** tx_ctxtdesc, then the olinfo word of the first data descriptor. */
    method StartFrame(ghost s0: TxState, ghost skb: Skb, ghost dma: seq<Option<nat>>, first: nat, paylen: nat) returns (i: nat)
      requires Shape() && nextToClean < count && |Flatten(s0.queue)| + Needed(skb) + 3 < count
      requires nextToUse == first == Wrap(nextToClean, |Flatten(s0.queue)|, count)
      requires Laid(buf[..], desc[..], nextToClean, Flatten(s0.queue), 0)
      requires skb.NonEmpty() && |dma| == |skb.frags| + 1
      modifies this`nextToUse, desc
      ensures InMap(Flatten(s0.queue), skb, dma, paylen, 0, i)
    {
      ghost var cells := Flatten(s0.queue);
      LaidPush(buf[..], desc[..], nextToClean, cells, CONTEXT);
      desc[first] := CONTEXT;
      assert desc[..] == old(desc[..])[first := CONTEXT];
      nextToUse := if first + 1 < count then first + 1 else 0;
      WrapStep(nextToClean, |cells|, count);
      i := nextToUse;
      label filled:
      ghost var slots := cells + PartialSlots(skb, dma, paylen, 0);
      assert slots == cells + [Slot(None, None, CONTEXT)];
      var d := desc[i].(paylen := paylen, dd := false);
      LaidPush(buf[..], desc[..], nextToClean, slots, d);
      desc[i] := d;
      assert desc[..] == old@filled(desc[..])[i := d];
    }

    /** ixgbevf_tx_map for a frame recorded in `first`, and the stop check at its end. */
    method TxMap(ghost s0: TxState, skb: Skb, ghost offload: Offload, dma: seq<Option<nat>>, first: nat, start: nat)
      requires XmitInput(skb, dma) && InMap(Flatten(s0.queue), skb, dma, PayLen(skb, offload), 0, start)
      requires Agrees() && !xdp && st == s0.(log := st.log)
      requires first == Wrap(nextToClean, |Flatten(s0.queue)|, count)
      requires Tag(first) == (Some(skb.id), ByteCount(skb, offload), GsoSegs(offload))
      modifies this, buf, desc
      ensures Valid()
      ensures var n := MappedCount(dma);
              var taken := old(st).log + MapLog(skb, dma, n);
              if n < |dma| then
                var p := PartialSlots(skb, dma, PayLen(skb, offload), n);
                st == s0.(log := taken + UnwindTo(p, |p|) + [Freed(skb.id)])
              else
                && IsPacket(Frame(skb, offload, dma))
                && var s' := s0.(queue := s0.queue + [Frame(skb, offload, dma)], log := taken);
                   st == s'.(stopped := s0.stopped || Unused(s', count) < DESC_NEEDED)
    {
      var ok, i := MapBuffers(Flatten(s0.queue), skb, dma, PayLen(skb, offload), first, start);
      if ok {
        Publish(s0, skb, offload, dma, first, i);
        var _ := MaybeStopTx(DESC_NEEDED);
      } else {
        MapFailed(s0, skb, dma, PayLen(skb, offload), first, i);
      }
    }

    /** Write the frame into the buffer record at next_to_use; the slot stays free. */
    method TagFirst(skb: Option<nat>, bytes: nat, segs: nat)
      requires Valid()
      modifies buf
      ensures Valid()
      ensures Tag(nextToUse) == (skb, bytes, segs)
    {
      assert SlotOk(buf[..], desc[..], nextToClean, Flatten(st.queue), 0, |Flatten(st.queue)|);
      var b := buf[nextToUse].(skb := skb, bytecount := bytes, gsoSegs := segs);
      LaidTouch(buf[..], desc[..], nextToClean, Flatten(st.queue), b);
      Touch(nextToUse, b);
    }

    /** What ixgbevf_tso leaves in the buffer record. */
    method TagOffload(skb: Skb, offload: Offload)
      requires Valid() && !offload.Fails? && Tag(nextToUse) == (Some(skb.id), U32(skb.Len()), 1)
      modifies buf
      ensures Valid()
      ensures Tag(nextToUse) == (Some(skb.id), ByteCount(skb, offload), GsoSegs(offload))
    {
      if offload.Tso? {
        AddInU32(skb.Len(), (offload.gsoSegs - 1) * offload.hdrLen);
        TagFirst(Some(skb.id), U32(buf[nextToUse].bytecount + (offload.gsoSegs - 1) * offload.hdrLen), offload.gsoSegs);
      }
    }

    /** The part of xmit_frame_ring after the room check. */
    method XmitRoom(skb: Skb, vlanMissing: bool, offload: Offload, dma: seq<Option<nat>>)
      requires Valid() && !xdp && XmitInput(skb, dma) && Unused(st, count) >= Needed(skb) + 3
      modifies this, buf, desc
      ensures Valid()
      ensures (st, Ok) == Xmit(old(st), count, skb, false, vlanMissing, offload, dma)
    {
      ghost var s0 := st;
      var first := nextToUse;
      TagFirst(Some(skb.id), U32(skb.Len()), 1);
      Log(Took(skb.id));
      if vlanMissing || offload.Fails? {
        Log(Freed(buf[first].skb.value));
        TagFirst(None, buf[first].bytecount, 1);
        return;
      }
      TagOffload(skb, offload);
      var start := StartFrame(s0, skb, dma, first, PayLen(skb, offload));
      TxMap(s0, skb, offload, dma, first, start);
    }

    /** ixgbevf_xmit_frame_ring, for every protocol, VLAN, offload and DMA outcome. */
    method XmitFrameRing(skb: Skb, lldp: bool, vlanMissing: bool, offload: Offload, dma: seq<Option<nat>>) returns (status: TxStatus)
      requires Valid() && !xdp && XmitInput(skb, dma)
      modifies this, buf, desc
      ensures Valid()
      ensures (st, status) == Xmit(old(st), count, skb, lldp, vlanMissing, offload, dma)
    {
      if lldp {
        Log(Took(skb.id));
        Log(Freed(skb.id));
        return Ok;
      }
      var n := CountDescs(skb);
      var busy := MaybeStopTx(n + 3);
      if busy { return Busy; }
      XmitRoom(skb, vlanMissing, offload, dma);
      return Ok;
    }

    // -------------------------------------------------------------- XDP

    /** Write a descriptor into the first free slot. */
    method PlaceDesc(ghost cells: seq<Slot>, i: nat, d: TxDesc)
      requires Shape() && nextToClean < count && Laid(buf[..], desc[..], nextToClean, cells, 0)
      requires |cells| < count && i == Wrap(nextToClean, |cells|, count)
      modifies desc
      ensures Laid(buf[..], desc[..], nextToClean, cells + [Slot(None, None, d)], 0)
    {
      LaidPush(buf[..], desc[..], nextToClean, cells, d);
      desc[i] := d;
      assert desc[..] == old(desc[..])[i := d];
    }

    /** The descriptors of an XDP frame: a context descriptor first, once after each reset. */
    method PlaceXdp(len: nat, addr: nat) returns (i: nat, ghost slots: seq<Slot>)
      requires Valid() && xdp && Unused(st, count) > 0
      modifies desc
      ensures slots == (if primed then [] else [Slot(None, None, CONTEXT)]) + [Slot(None, None, TxDesc(false, addr, len, true, len, false))]
      ensures |Flatten(st.queue)| + |slots| < count && i == Wrap(nextToClean, |Flatten(st.queue)| + |slots| - 1, count)
      ensures Laid(buf[..], desc[..], nextToClean, Flatten(st.queue) + slots, 0)
    {
      ghost var cells := Flatten(st.queue);
      var d := TxDesc(false, addr, len, true, len, false);
      i, slots := nextToUse, [];
      if !primed {
        PlaceDesc(cells, 0, CONTEXT);
        i, slots := 1, [Slot(None, None, CONTEXT)];
      }
      assert cells + [] == cells;
      PlaceDesc(cells + slots, i, d);
      slots := slots + [Slot(None, None, d)];
      assert cells + slots == (cells + slots[..|slots| - 1]) + [Slot(None, None, d)];
    }

    /** Record the frame in its first slot, then publish it. */
    method RecordXdp(ghost slots: seq<Slot>, data: nat, len: nat, addr: nat, last: nat)
      requires Shape() && len > 0 && |slots| > 0 && |Flatten(st.queue)| + |slots| < count
      requires nextToClean < count && nextToUse == Wrap(nextToClean, |Flatten(st.queue)|, count)
      requires last == Wrap(nextToClean, |Flatten(st.queue)| + |slots| - 1, count)
      requires Laid(buf[..], desc[..], nextToClean, Flatten(st.queue) + slots, 0) && slots[0].start.None?
      modifies buf
      ensures Laid(buf[..], desc[..], nextToClean,
                   Flatten(st.queue) + [Slot(Some(Start(data, len, 1, |slots|)), Some(Mapping(Single, addr, len)), slots[0].desc)] + slots[1..], 0)
    {
      var i := nextToUse;
      var b := buf[i].(len := len, dma := addr, skb := Some(data), bytecount := len, gsoSegs := 1);
      LaidHead(buf[..], desc[..], nextToClean, Flatten(st.queue), slots, Start(data, len, 1, |slots|),
               Mapping(Single, addr, len), b.(nextToWatch := Some(last)));
      Touch(i, b);
      Touch(i, b.(nextToWatch := Some(last)));
      assert buf[..] == old(buf[..])[i := b.(nextToWatch := Some(last))];
    }

    /** ixgbevf_xmit_xdp_ring; false hands the page back to the receive side. */
    method XmitXdpRing(data: nat, len: nat, outcome: Option<nat>) returns (sent: bool)
      requires Valid() && xdp && len > 0
      modifies this, buf, desc
      ensures Valid()
      ensures (st, sent) == XmitXdp(old(st), count, data, len, outcome)
    {
      if DescUnused(nextToClean, nextToUse, count) == 0 { return false; }
      ghost var s0 := st;
      var dma := DmaMap(Single, outcome, len);
      if dma.None? {
        assert s0.log + [] == s0.log;
        return false;
      }
      var last; ghost var slots;
      last, slots := PlaceXdp(len, dma.value);
      RecordXdp(slots, data, len, dma.value, last);
      XdpQueued(s0, slots, data, len, dma.value, last);
      return true;
    }

    method XdpQueued(ghost s0: TxState, ghost slots: seq<Slot>, data: nat, ghost len: nat, ghost addr: nat, last: nat)
      requires Shape() && Agrees() && xdp && len > 0 && nextToClean < count && st == s0.(log := s0.log + [Mapped(Mapping(Single, addr, len))])
      requires slots == (if primed then [] else [Slot(None, None, CONTEXT)]) + [Slot(None, None, TxDesc(false, addr, len, true, len, false))]
      requires |Flatten(st.queue)| + |slots| < count
      requires last == Wrap(nextToClean, |Flatten(st.queue)| + |slots| - 1, count)
      requires Laid(buf[..], desc[..], nextToClean,
                   Flatten(st.queue) + [Slot(Some(Start(data, len, 1, |slots|)), Some(Mapping(Single, addr, len)), slots[0].desc)] + slots[1..], 0)
      modifies this
      ensures Valid()
      ensures st == s0.(queue := s0.queue + [XdpFrame(s0.primed, data, len, addr)], primed := true,
                        log := s0.log + [Mapped(Mapping(Single, addr, len))] + [Took(data)])
    {
      ghost var p := XdpFrame(s0.primed, data, len, addr);
      assert p == [Slot(Some(Start(data, len, 1, |slots|)), Some(Mapping(Single, addr, len)), slots[0].desc)] + slots[1..];
      FlattenPrefix(s0.queue, [p], |s0.queue|);
      assert Flatten(s0.queue + [p]) == Flatten(s0.queue) + p;
      assert Flatten(s0.queue) + p == Flatten(st.queue) + [Slot(Some(Start(data, len, 1, |slots|)), Some(Mapping(Single, addr, len)), slots[0].desc)] + slots[1..];
      primed := true;
      Log(Took(data));
      st := st.(primed := true);
      Append(s0.(primed := true), p, last);
    }

    // -------------------------------------------------------------- hardware, teardown and set-up

    /** Hardware may write back the last descriptor of any queued packet, in any order. */
    method HardwareComplete(ghost k: nat, i: nat, d: TxDesc)
      requires Valid() && k < |st.queue| && d.dd
      requires 0 < |FlattenTo(st.queue, k + 1)| <= count && i == Wrap(nextToClean, |FlattenTo(st.queue, k + 1)| - 1, count)
      modifies this`st, desc
      ensures Valid()
      ensures st == Complete(old(st), k, d)
    {
      ghost var q := st.queue;
      ghost var e := |FlattenTo(q, k + 1)| - 1;
      FlattenComplete(q, k, d, |q|);
      LaidAt(buf[..], desc[..], nextToClean, Flatten(q), 0, e);
      LaidUpdate(buf[..], desc[..], nextToClean, Flatten(q), e, Flatten(q)[e].(desc := d), buf[i]);
      desc[i] := d;
      assert desc[..] == old(desc[..])[i := d] && buf[..] == buf[..][i := buf[i]];
      st := Complete(st, k, d);
    }

    /** The inner walk of clean_tx_ring: log what slot j of packet n has mapped. */
    method DrainSlot(ghost q: seq<Packet>, ghost n: nat, ghost j: nat, ghost log: seq<Act>, prev: nat) returns (i: nat)
      requires Shape() && nextToClean < count && |Flatten(q)| < count && Laid(buf[..], desc[..], nextToClean, Flatten(q), 0)
      requires n < |q| && 0 < j < |q[n]| && |FlattenTo(q, n)| + |q[n]| <= |Flatten(q)|
      requires prev == Wrap(nextToClean, |FlattenTo(q, n)| + j - 1, count)
      requires st.log == log + PacketLog(q[n], j)
      modifies this`st
      ensures i == Wrap(nextToClean, |FlattenTo(q, n)| + j, count)
      ensures st == old(st).(log := log + PacketLog(q[n], j + 1))
    {
      ghost var o := |FlattenTo(q, n)| + j;
      i := Next(nextToClean, o - 1, prev);
      PacketAt(q, n);
      SitsAt(q[n], Flatten(q), |FlattenTo(q, n)|, j);
      LaidAt(buf[..], desc[..], nextToClean, Flatten(q), 0, o);
      PacketLogStep(log, q[n], j);
      if buf[i].len != 0 {
        Log(Unmapped(Mapping(Page, buf[i].dma, buf[i].len)));
      }
    }

    /** What clean_tx_ring gives back at a packet's first slot. */
    method DrainHead(ghost q: seq<Packet>, ghost n: nat, start: nat) returns (eop: nat)
      requires Shape() && nextToClean < count && |Flatten(q)| < count && Laid(buf[..], desc[..], nextToClean, Flatten(q), 0)
      requires n < |q| && Sits(q[n], Flatten(q), |FlattenTo(q, n)|) && start == Wrap(nextToClean, |FlattenTo(q, n)|, count)
      modifies this`st
      ensures eop == Wrap(nextToClean, |FlattenTo(q, n)| + |q[n]| - 1, count)
      ensures st == old(st).(log := old(st).log + PacketLog(q[n], 1))
    {
      ghost var at, p := |FlattenTo(q, n)|, q[n];
      SitsAt(p, Flatten(q), at, 0);
      LaidAt(buf[..], desc[..], nextToClean, Flatten(q), 0, at);
      PacketLogStep(st.log, p, 0);
      Log(Freed(buf[start].skb.value));
      Log(Unmapped(Mapping(Single, buf[start].dma, buf[start].len)));
      eop := buf[start].nextToWatch.value;
    }

    /** One packet of clean_tx_ring; the buffer records are only read. */
    method DrainPacket(ghost q: seq<Packet>, ghost n: nat, ghost log: seq<Act>, start: nat) returns (next: nat)
      requires Shape() && nextToClean < count && |Flatten(q)| < count && Laid(buf[..], desc[..], nextToClean, Flatten(q), 0)
      requires n < |q| && |FlattenTo(q, n)| <= |Flatten(q)| && start == Wrap(nextToClean, |FlattenTo(q, n)|, count)
      requires st.log == log + RetireLog(q, n)
      modifies this`st
      ensures |FlattenTo(q, n + 1)| <= |Flatten(q)| && next == Wrap(nextToClean, |FlattenTo(q, n + 1)|, count)
      ensures st == old(st).(log := log + RetireLog(q, n + 1))
    {
      hide Laid, Sits, PacketLog, RetireLog;
      ghost var at, p, before := |FlattenTo(q, n)|, q[n], st.log;
      PacketAt(q, n);
      var eop := DrainHead(q, n, start);
      next := start;
      ghost var j := 1;
      while next != eop
        invariant 0 < j <= |p| && next == Wrap(nextToClean, at + j - 1, count)
        invariant st == old(st).(log := before + PacketLog(p, j))
        decreases |p| - j
      {
        next := DrainSlot(q, n, j, before, next);
        j := j + 1;
      }
      assert j == |p| by { WrapInjective(nextToClean, at + j - 1, at + |p| - 1, count); }
      RetireLogStep(log, q, n);
      next := Next(nextToClean, at + |p| - 1, next);
    }

    /** clean_tx_ring stands at packet n of the queue. */
    ghost predicate Draining(q: seq<Packet>, n: nat, i: nat)
      reads this, buf, desc
    {
      && Shape() && nextToClean < count && |Flatten(q)| < count
      && n <= |q| && |FlattenTo(q, n)| <= |Flatten(q)|
      && nextToUse == Wrap(nextToClean, |Flatten(q)|, count) && i == Wrap(nextToClean, |FlattenTo(q, n)|, count)
      && (q == [] || Laid(buf[..], desc[..], nextToClean, Flatten(q), 0))
    }

    /** The loop of clean_tx_ring. */
    method DrainAll()
      requires Draining(st.queue, 0, nextToClean)
      modifies this`st
      ensures st == old(st).(log := old(st).log + RetireLog(old(st.queue), |old(st.queue)|))
    {
      ghost var q, n := st.queue, 0;
      var i := nextToClean;
      RetireLogStart(st.log, q);
      while i != nextToUse
        invariant Draining(q, n, i)
        invariant st == old(st).(log := old(st).log + RetireLog(q, n))
        decreases |q| - n
      {
        DrainsAll(q, n, nextToClean, count);
        i := DrainPacket(q, n, old(st).log, i);
        n := n + 1;
      }
      DrainsAll(q, n, nextToClean, count);
    }

    /** ixgbevf_clean_tx_ring; on a ring already down it does nothing. */
    method CleanTxRing()
      requires Valid() || Down()
      modifies this
      ensures Down()
      ensures st == CleanRing(old(st))
    {
      DrainAll();
      nextToUse, nextToClean := 0, 0;
      st := st.(queue := []);
    }

    /** configure_tx_ring: the buffer records are zeroed and the ring starts empty. */
    method Configure()
      requires Down()
      modifies this, buf
      ensures Valid()
      ensures st == old(st).(primed := false)
    {
      nextToClean, nextToUse, primed := 0, 0, false;
      forall i | 0 <= i < count {
        buf[i] := ZEROED;
      }
      st := st.(primed := false);
      assert forall i :: 0 <= i < count ==> buf[..][i] == ZEROED;
    }

    constructor (size: nat, isXdp: bool)
      requires 3 <= size <= 0xFFFF
      ensures Valid() && fresh(buf) && fresh(desc) && count == size && xdp == isXdp
      ensures st == TxState([], false, false, 0, 0, [])
    {
      count, xdp := size, isXdp;
      buf, desc := new TxBuffer[size](_ => ZEROED), new TxDesc[size](_ => CONTEXT);
      nextToUse, nextToClean, primed, stopped, packets, bytes := 0, 0, false, false, 0, 0;
      st := TxState([], false, false, 0, 0, []);
      new;
      assert forall i :: 0 <= i < count ==> buf[..][i] == ZEROED;
    }
  }
}
