/**
 The transmit ring seen from outside: a FIFO of packets that own ring slots, and a log of every buffer
 the driver took or freed and every DMA mapping it made or undid, in order.  TxRings proves the in-place
 ring against these functions; TxRuns proves what they promise over whole runs.
 */
module TxSpec {
  import opened Util

  const MAX_DATA_PER_TXD: nat := 16384
  const DESC_NEEDED: nat := 21
  const TX_WAKE_THRESHOLD: nat := 2 * DESC_NEEDED

  /** Which DMA call made a mapping; the matching unmap call has to be used. */
  datatype MapKind = Single | Page
  datatype Mapping = Mapping(kind: MapKind, addr: nat, len: nat)

  /** A transmit descriptor.  `dd` is bit 0 of the word that software writes as olinfo_status. */
  datatype TxDesc = TxDesc(context: bool, addr: nat, len: nat, eopRs: bool, paylen: nat, dd: bool)

  /** What the first slot of a packet says about the packet; `span` counts its slots. */
  datatype Start = Start(skb: nat, bytes: nat, segs: nat, span: nat)
  datatype Slot = Slot(start: Option<Start>, rec: Option<Mapping>, desc: TxDesc)

  /** The slots of one packet: only the first carries the packet, and it holds the Single mapping. */
  predicate IsPacket(s: seq<Slot>)
  {
    && |s| > 0
    && s[0].start.Some? && s[0].start.value.span == |s|
    && s[0].rec.Some? && s[0].rec.value.kind == Single
    && (forall j :: 0 <= j < |s| && s[j].rec.Some? ==> s[j].rec.value.len > 0)
    && (forall j :: 0 < j < |s| ==> s[j].start.None? && (s[j].rec.Some? ==> s[j].rec.value.kind == Page))
  }

  const CONTEXT: TxDesc := TxDesc(true, 0, 0, false, 0, false)

  type Packet = s: seq<Slot> | IsPacket(s)
    witness [Slot(Some(Start(0, 0, 0, 1)), Some(Mapping(Single, 0, 1)), CONTEXT)]

  /** Hardware reports a packet on its last descriptor. */
  predicate Done(p: Packet) { p[|p| - 1].desc.dd }

  datatype Act = Took(skb: nat) | Freed(skb: nat) | Mapped(m: Mapping) | Unmapped(m: Mapping)

  datatype TxState = TxState(queue: seq<Packet>, primed: bool, stopped: bool, packets: nat, bytes: nat, log: seq<Act>)

  // ---------------------------------------------------------------- views of the queue

  /** The slots of the first n packets, oldest first. */
  function FlattenTo(q: seq<Packet>, n: nat): seq<Slot>
    requires n <= |q|
  {
    if n == 0 then [] else FlattenTo(q, n - 1) + q[n - 1]
  }

  function Flatten(q: seq<Packet>): seq<Slot> { FlattenTo(q, |q|) }

  function BytesTo(q: seq<Packet>, n: nat): nat
    requires n <= |q|
  {
    if n == 0 then 0 else BytesTo(q, n - 1) + q[n - 1][0].start.value.bytes
  }

  function SegsTo(q: seq<Packet>, n: nat): nat
    requires n <= |q|
  {
    if n == 0 then 0 else SegsTo(q, n - 1) + q[n - 1][0].start.value.segs
  }

  function UnmapOf(rec: Option<Mapping>): seq<Act>
  {
    match rec case None => [] case Some(m) => [Unmapped(m)]
  }

  /** Undoing the mappings of the first n slots, in order. */
  function UnmapsTo(s: seq<Slot>, n: nat): seq<Act>
    requires n <= |s|
  {
    if n == 0 then [] else UnmapsTo(s, n - 1) + UnmapOf(s[n - 1].rec)
  }

  /** Undoing the mappings of the first n slots, last slot first, as a failed map does. */
  function UnwindTo(s: seq<Slot>, n: nat): seq<Act>
    requires n <= |s|
  {
    if n == 0 then [] else UnmapOf(s[n - 1].rec) + UnwindTo(s, n - 1)
  }

  /** Freeing the buffers and undoing the mappings of the first n packets. */
  function RetireLog(q: seq<Packet>, n: nat): seq<Act>
    requires n <= |q|
  {
    if n == 0 then [] else RetireLog(q, n - 1) + PacketLog(q[n - 1], |q[n - 1]|)
  }

  /** Freeing one packet's buffer and undoing the mappings of its first n slots. */
  function PacketLog(p: Packet, n: nat): seq<Act>
    requires n <= |p|
  {
    [Freed(p[0].start.value.skb)] + UnmapsTo(p, n)
  }

  /** The log of a packet grows slot by slot. */
  lemma PacketLogStep(log: seq<Act>, p: Packet, n: nat)
    requires n < |p|
    ensures (log + PacketLog(p, n)) + UnmapOf(p[n].rec) == log + PacketLog(p, n + 1)
    ensures log + [Freed(p[0].start.value.skb)] == log + PacketLog(p, 0)
    ensures n > 0 ==> p[n].start.None? && (p[n].rec.Some? ==> p[n].rec.value.kind == Page)
  {
    assert PacketLog(p, n + 1) == PacketLog(p, n) + UnmapOf(p[n].rec);
  }

  lemma RetireLogStart(log: seq<Act>, q: seq<Packet>)
    ensures log + RetireLog(q, 0) == log
  {
  }

  lemma RetireLogStep(log: seq<Act>, q: seq<Packet>, n: nat)
    requires n < |q|
    ensures (log + RetireLog(q, n)) + PacketLog(q[n], |q[n]|) == log + RetireLog(q, n + 1)
    ensures log == log + RetireLog(q, 0)
  {
    assert RetireLog(q, n + 1) == RetireLog(q, n) + PacketLog(q[n], |q[n]|);
  }

  lemma UnwindStep(log: seq<Act>, s: seq<Slot>, n: nat)
    requires 0 < n <= |s|
    ensures (log + UnmapOf(s[n - 1].rec)) + UnwindTo(s, n - 1) == log + UnwindTo(s, n)
  {
  }

  /** A slot that maps nothing adds nothing to the unwinding. */
  lemma {:induction false} UnwindPrefix(s: seq<Slot>, c: Slot, n: nat)
    requires n <= |s|
    ensures UnwindTo(s + [c], n) == UnwindTo(s, n)
  {
    hide UnmapOf;
    if n > 0 {
      UnwindPrefix(s, c, n - 1);
    }
  }

  lemma {:induction false} FlattenPrefix(q: seq<Packet>, r: seq<Packet>, n: nat)
    requires n <= |q|
    ensures FlattenTo(q + r, n) == FlattenTo(q, n)
  {
    if n > 0 {
      FlattenPrefix(q, r, n - 1);
      assert (q + r)[n - 1] == q[n - 1];
    }
  }

  lemma PushedFlat(q: seq<Packet>, p: Packet)
    ensures Flatten(q + [p]) == Flatten(q) + p
  {
    FlattenPrefix(q, [p], |q|);
  }

  /** Dropping the first n packets drops their slots. */
  lemma {:induction false} FlattenDrop(q: seq<Packet>, n: nat, m: nat)
    requires n <= m <= |q|
    ensures FlattenTo(q, m) == FlattenTo(q, n) + FlattenTo(q[n..], m - n)
  {
    if m > n {
      FlattenDrop(q, n, m - 1);
      assert q[n..][m - n - 1] == q[m - 1];
    }
  }

  predicate Matches(p: seq<Slot>, cells: seq<Slot>, at: nat, j: nat)
    requires j < |p| && at + |p| <= |cells|
  {
    cells[at + j] == p[j]
  }

  /** The slots of `p` are found in `cells` from `at` on. */
  predicate Sits(p: seq<Slot>, cells: seq<Slot>, at: nat)
  {
    at + |p| <= |cells| && forall j :: 0 <= j < |p| ==> Matches(p, cells, at, j)
  }

  lemma SitsAt(p: seq<Slot>, cells: seq<Slot>, at: nat, j: nat)
    requires Sits(p, cells, at) && j < |p|
    ensures cells[at + j] == p[j]
  {
    assert Matches(p, cells, at, j);
  }

  lemma SitsGrows(p: seq<Slot>, cells: seq<Slot>, more: seq<Slot>, at: nat)
    requires Sits(p, cells, at)
    ensures Sits(p, cells + more, at)
  {
    forall j | 0 <= j < |p|
      ensures Matches(p, cells + more, at, j)
    {
      assert Matches(p, cells, at, j);
    }
  }

  lemma {:induction false} PacketAtTo(q: seq<Packet>, n: nat, m: nat)
    requires n < m <= |q|
    ensures Sits(q[n], FlattenTo(q, m), |FlattenTo(q, n)|)
  {
    if m > n + 1 {
      PacketAtTo(q, n, m - 1);
      SitsGrows(q[n], FlattenTo(q, m - 1), q[m - 1], |FlattenTo(q, n)|);
    }
  }

  /** Packet n sits in the flat ring right after the packets before it. */
  lemma PacketAt(q: seq<Packet>, n: nat)
    requires n < |q|
    ensures Sits(q[n], Flatten(q), |FlattenTo(q, n)|)
    ensures |FlattenTo(q, n + 1)| == |FlattenTo(q, n)| + |q[n]| <= |Flatten(q)|
  {
    PacketAtTo(q, n, |q|);
  }

  // ---------------------------------------------------------------- laying a frame out

  /** A socket buffer: a linear head and its page fragments, by length. */
  datatype Skb = Skb(id: nat, head: nat, frags: seq<nat>)
  {
    function DataLen(): nat { Sum(frags) }
    function Len(): nat { head + DataLen() }
    function Size(k: nat): nat requires k <= |frags| { if k == 0 then head else frags[k - 1] }
    predicate NonEmpty() { head > 0 && forall k :: 0 <= k < |frags| ==> frags[k] > 0 }
  }

  /** TXD_USE_COUNT: descriptors for one buffer. */
  function UseCount(size: nat): nat { (size + 16383) / 16384 }

  function FragsUse(frags: seq<nat>): nat
  {
    if frags == [] then 0 else FragsUse(frags[..|frags| - 1]) + UseCount(frags[|frags| - 1])
  }

  /** Data descriptors the frame needs; the context descriptor comes on top. */
  function Needed(skb: Skb): nat { UseCount(skb.head) + FragsUse(skb.frags) }

  /** The data descriptors of one mapped buffer. */
  function Chunks(addr: nat, size: nat, paylen: nat, last: bool): seq<TxDesc>
    decreases size
  {
    if size <= MAX_DATA_PER_TXD then [TxDesc(false, addr, size, last, paylen, false)]
    else [TxDesc(false, addr, MAX_DATA_PER_TXD, false, paylen, false)]
         + Chunks(addr + MAX_DATA_PER_TXD, size - MAX_DATA_PER_TXD, 0, last)
  }

  /** The slots of one buffer: the mapping is recorded in the first, continuation slots record none. */
  function BufferSlots(rec: Option<Mapping>, descs: seq<TxDesc>): (s: seq<Slot>)
    ensures |s| == |descs|
    decreases |descs|
  {
    if descs == [] then [] else [Slot(None, rec, descs[0])] + BufferSlots(None, descs[1..])
  }

  lemma {:induction false} BufferSlotAt(rec: Option<Mapping>, descs: seq<TxDesc>, j: nat)
    requires j < |descs|
    ensures BufferSlots(rec, descs)[j] == Slot(None, if j == 0 then rec else None, descs[j])
    decreases |descs|
  {
    if j > 0 {
      BufferSlotAt(None, descs[1..], j - 1);
    }
  }

  lemma ChunkSlotsStep(x: seq<Slot>, rec: Option<Mapping>, addr: nat, size: nat, paylen: nat, last: bool)
    requires size > MAX_DATA_PER_TXD
    ensures x + BufferSlots(rec, Chunks(addr, size, paylen, last))
         == (x + [Slot(None, rec, TxDesc(false, addr, MAX_DATA_PER_TXD, false, paylen, false))])
            + BufferSlots(None, Chunks(addr + MAX_DATA_PER_TXD, size - MAX_DATA_PER_TXD, 0, last))
    ensures UseCount(size) == 1 + UseCount(size - MAX_DATA_PER_TXD)
  {
    var rest := Chunks(addr + MAX_DATA_PER_TXD, size - MAX_DATA_PER_TXD, 0, last);
    var c := TxDesc(false, addr, MAX_DATA_PER_TXD, false, paylen, false);
    assert Chunks(addr, size, paylen, last) == [c] + rest;
    assert ([c] + rest)[1..] == rest;
    assert BufferSlots(rec, [c] + rest) == [Slot(None, rec, c)] + BufferSlots(None, rest);
    assert x + ([Slot(None, rec, c)] + BufferSlots(None, rest)) == (x + [Slot(None, rec, c)]) + BufferSlots(None, rest);
  }

  lemma LastChunk(rec: Option<Mapping>, addr: nat, size: nat, paylen: nat, last: bool)
    requires 0 < size <= MAX_DATA_PER_TXD
    ensures BufferSlots(rec, Chunks(addr, size, paylen, last)) == [Slot(None, rec, TxDesc(false, addr, size, last, paylen, false))]
    ensures UseCount(size) == 1
  {
    var c := TxDesc(false, addr, size, last, paylen, false);
    assert BufferSlots(rec, [c]) == [Slot(None, rec, c)] + BufferSlots(None, [c][1..]);
  }

  /** The mapping of buffer k; the head is mapped as Single, fragments as Page. */
  function BufferMapping(skb: Skb, dma: seq<Option<nat>>, k: nat): Mapping
    requires k <= |skb.frags| && k < |dma| && dma[k].Some?
  {
    Mapping(if k == 0 then Single else Page, dma[k].value, skb.Size(k))
  }

  function FrameSlots(skb: Skb, dma: seq<Option<nat>>, paylen: nat, k: nat): seq<Slot>
    requires k <= |skb.frags| && k < |dma| && dma[k].Some?
  {
    BufferSlots(RecOf(skb, dma, k),
                Chunks(dma[k].value, skb.Size(k), if k == 0 then paylen else 0, k == |skb.frags|))
  }

  /** Data slots of the first n buffers. */
  function DataSlots(skb: Skb, dma: seq<Option<nat>>, paylen: nat, n: nat): seq<Slot>
    requires n <= |skb.frags| + 1 && n <= |dma|
    requires forall k :: 0 <= k < n ==> dma[k].Some?
  {
    if n == 0 then [] else DataSlots(skb, dma, paylen, n - 1) + FrameSlots(skb, dma, paylen, n - 1)
  }

  /** What tx_map has written after n buffers: the context slot, which records the head mapping, then data. */
  function PartialSlots(skb: Skb, dma: seq<Option<nat>>, paylen: nat, n: nat): seq<Slot>
    requires n <= |skb.frags| + 1 && n <= |dma|
    requires forall k :: 0 <= k < n ==> dma[k].Some?
  {
    [Slot(None, if n == 0 then None else Some(BufferMapping(skb, dma, 0)), CONTEXT)] + DataSlots(skb, dma, paylen, n)
  }

  function WithStart(s: seq<Slot>, skb: nat, bytes: nat, segs: nat): (r: seq<Slot>)
    requires |s| > 0
    ensures |r| == |s| && r[0].rec == s[0].rec && r[0].desc == s[0].desc && r[1..] == s[1..]
  {
    [s[0].(start := Some(Start(skb, bytes, segs, |s|)))] + s[1..]
  }

  /** Number of buffers mapped before the first failure. */
  function MappedCount(dma: seq<Option<nat>>): (n: nat)
    ensures n <= |dma|
    ensures forall k :: 0 <= k < n ==> dma[k].Some?
    ensures n < |dma| ==> dma[n].None?
  {
    if dma == [] || dma[0].None? then 0 else 1 + MappedCount(dma[1..])
  }

  lemma MappedCountIs(dma: seq<Option<nat>>, n: nat)
    requires n <= |dma| && (forall k :: 0 <= k < n ==> dma[k].Some?) && (n < |dma| ==> dma[n].None?)
    ensures n == MappedCount(dma)
  {
    var _ := MappedCount(dma);
  }

  /** data_len runs out exactly with the fragments. */
  lemma DataLeft(skb: Skb, f: nat)
    requires skb.NonEmpty() && f <= |skb.frags|
    ensures Sum(skb.frags[f..]) == 0 <==> f == |skb.frags|
    ensures f < |skb.frags| ==> Sum(skb.frags[f..]) - skb.frags[f] == Sum(skb.frags[f + 1..])
  {
    if f < |skb.frags| {
      assert skb.frags[f..][1..] == skb.frags[f + 1..];
    }
  }

  // ---------------------------------------------------------------- the operations

  /** Outcome of the offload setup: TSO fails, TSO rewrites the counts, or plain checksum offload. */
  datatype Offload = Fails | Tso(hdrLen: nat, gsoSegs: nat) | Csum
  datatype TxStatus = Ok | Busy

  function HdrLen(o: Offload): nat { match o case Tso(h, _) => h case _ => 0 }
  function GsoSegs(o: Offload): nat { match o case Tso(_, g) => g case _ => 1 }

  /** bytecount after TSO has added one header per extra segment, in 32 bits. */
  function ByteCount(skb: Skb, o: Offload): nat
  {
    match o
    case Tso(h, g) => U32(skb.Len() + (g - 1) * h)
    case _ => U32(skb.Len())
  }

  function PayLen(skb: Skb, o: Offload): nat { U32(skb.Len() - HdrLen(o)) }

  function Unused(s: TxState, count: nat): int { count - 1 - |Flatten(s.queue)| }

  /** Taken and freed again without touching the ring. */
  function Drop(s: TxState, id: nat): TxState
  {
    s.(log := s.log + [Took(id)] + [Freed(id)])
  }

  /** The mappings made for the first n buffers. */
  function MapLog(skb: Skb, dma: seq<Option<nat>>, n: nat): seq<Act>
    requires n <= |skb.frags| + 1 && n <= |dma|
    requires forall k :: 0 <= k < n ==> dma[k].Some?
  {
    if n == 0 then [] else MapLog(skb, dma, n - 1) + [Mapped(BufferMapping(skb, dma, n - 1))]
  }

  /** The log entry of trying to map buffer n after buffers 0..n-1 succeeded. */
  lemma MapLogStep(log: seq<Act>, skb: Skb, dma: seq<Option<nat>>, n: nat)
    requires n <= |skb.frags| && n < |dma| && forall k :: 0 <= k < n ==> dma[k].Some?
    ensures log + MapLog(skb, dma, n) + (if dma[n].Some? then [Mapped(BufferMapping(skb, dma, n))] else [])
         == log + MapLog(skb, dma, if dma[n].Some? then n + 1 else n)
  {
  }

  ghost predicate XmitInput(skb: Skb, dma: seq<Option<nat>>)
  {
    skb.NonEmpty() && |dma| == |skb.frags| + 1 && Needed(skb) <= 0xFFFF
  }

  function Frame(skb: Skb, offload: Offload, dma: seq<Option<nat>>): seq<Slot>
    requires |dma| == |skb.frags| + 1 && MappedCount(dma) == |dma|
  {
    WithStart(PartialSlots(skb, dma, PayLen(skb, offload), |dma|), skb.id, ByteCount(skb, offload), GsoSegs(offload))
  }

  lemma {:induction false} ChunksShape(addr: nat, size: nat, paylen: nat, last: bool)
    requires size > 0
    ensures |Chunks(addr, size, paylen, last)| == UseCount(size) > 0
    ensures forall j :: 0 <= j < UseCount(size) ==>
              var d := Chunks(addr, size, paylen, last)[j];
              !d.context && !d.dd && 0 < d.len <= MAX_DATA_PER_TXD && d.eopRs == (last && j == UseCount(size) - 1)
              && d.paylen == if j == 0 then paylen else 0
    decreases size
  {
    if size > MAX_DATA_PER_TXD {
      ChunksShape(addr + MAX_DATA_PER_TXD, size - MAX_DATA_PER_TXD, 0, last);
      var rest := Chunks(addr + MAX_DATA_PER_TXD, size - MAX_DATA_PER_TXD, 0, last);
      assert Chunks(addr, size, paylen, last)[1..] == rest;
    }
  }

  /** What every data slot of a frame looks like. */
  predicate DataSlot(s: Slot)
  {
    && s.start.None? && !s.desc.context && !s.desc.dd && 0 < s.desc.len <= MAX_DATA_PER_TXD
    && (s.rec.Some? ==> s.rec.value.kind == Page && s.rec.value.len > 0)
  }

  lemma FrameSlotsShape(skb: Skb, dma: seq<Option<nat>>, paylen: nat, k: nat)
    requires skb.NonEmpty() && k <= |skb.frags| && k < |dma| && dma[k].Some?
    ensures |FrameSlots(skb, dma, paylen, k)| == UseCount(skb.Size(k)) > 0
    ensures forall j :: 0 <= j < |FrameSlots(skb, dma, paylen, k)| ==> DataSlot(FrameSlots(skb, dma, paylen, k)[j])
  {
    var cs := Chunks(dma[k].value, skb.Size(k), if k == 0 then paylen else 0, k == |skb.frags|);
    ChunksShape(dma[k].value, skb.Size(k), if k == 0 then paylen else 0, k == |skb.frags|);
    forall j | 0 <= j < |cs|
      ensures DataSlot(FrameSlots(skb, dma, paylen, k)[j])
    {
      BufferSlotAt(RecOf(skb, dma, k), cs, j);
    }
  }

  lemma {:induction false} DataSlotsShape(skb: Skb, dma: seq<Option<nat>>, paylen: nat, n: nat)
    requires skb.NonEmpty() && n <= |skb.frags| + 1 && n <= |dma|
    requires forall k :: 0 <= k < n ==> dma[k].Some?
    ensures |DataSlots(skb, dma, paylen, n)| == if n == 0 then 0 else UseCount(skb.head) + FragsUse(skb.frags[..n - 1])
    ensures forall j :: 0 <= j < |DataSlots(skb, dma, paylen, n)| ==> DataSlot(DataSlots(skb, dma, paylen, n)[j])
  {
    if n > 0 {
      DataSlotsShape(skb, dma, paylen, n - 1);
      FrameSlotsShape(skb, dma, paylen, n - 1);
      if n > 1 {
        assert skb.frags[..n - 1][..n - 2] == skb.frags[..n - 2];
      }
    }
  }

  lemma {:induction false} FragsUseGrows(frags: seq<nat>, n: nat)
    requires n <= |frags|
    ensures FragsUse(frags[..n]) <= FragsUse(frags)
    decreases |frags| - n
  {
    if n < |frags| {
      FragsUseGrows(frags, n + 1);
      assert frags[..n + 1][..n] == frags[..n];
    } else {
      assert frags[..n] == frags;
    }
  }

  /** The slots so far fit the frame, and the whole frame takes one slot more than it needs data descriptors. */
  lemma PartialFits(skb: Skb, dma: seq<Option<nat>>, paylen: nat, n: nat)
    requires skb.NonEmpty() && n <= |skb.frags| && n < |dma|
    requires forall k :: 0 <= k <= n ==> dma[k].Some?
    ensures |PartialSlots(skb, dma, paylen, n + 1)| == |PartialSlots(skb, dma, paylen, n)| + UseCount(skb.Size(n))
    ensures |PartialSlots(skb, dma, paylen, n + 1)| <= Needed(skb) + 1
    ensures |FrameSlots(skb, dma, paylen, n)| == UseCount(skb.Size(n)) > 0
  {
    FrameSlotsShape(skb, dma, paylen, n);
    DataSlotsShape(skb, dma, paylen, n + 1);
    FragsUseGrows(skb.frags, n);
  }

  /** The slots before buffer k once its mapping is recorded, and what its own first slot records. */
  function Before(skb: Skb, dma: seq<Option<nat>>, paylen: nat, k: nat): seq<Slot>
    requires k <= |skb.frags| && k < |dma| && forall j :: 0 <= j <= k ==> dma[j].Some?
  {
    if k == 0 then [Slot(None, Some(BufferMapping(skb, dma, 0)), CONTEXT)] else PartialSlots(skb, dma, paylen, k)
  }

  function RecOf(skb: Skb, dma: seq<Option<nat>>, k: nat): Option<Mapping>
    requires k <= |skb.frags| && k < |dma| && dma[k].Some?
  {
    if k == 0 then None else Some(BufferMapping(skb, dma, k))
  }

  /** Buffer n adds its slots. */
  lemma PartialGrows(skb: Skb, dma: seq<Option<nat>>, paylen: nat, n: nat)
    requires n <= |skb.frags| && n < |dma|
    requires forall k :: 0 <= k <= n ==> dma[k].Some?
    ensures PartialSlots(skb, dma, paylen, n + 1) == Before(skb, dma, paylen, n) + FrameSlots(skb, dma, paylen, n)
    ensures |Before(skb, dma, paylen, n)| == |PartialSlots(skb, dma, paylen, n)|
  {
    var c, d, f := [Slot(None, Some(BufferMapping(skb, dma, 0)), CONTEXT)], DataSlots(skb, dma, paylen, n), FrameSlots(skb, dma, paylen, n);
    Regroup(c, d, f);
    assert n == 0 ==> c + d == c;
  }

  /** Recording mapping k: in the context slot for the head, in the buffer's own first slot for a fragment. */
  lemma RecordAlgebra(cells: seq<Slot>, skb: Skb, dma: seq<Option<nat>>, paylen: nat, k: nat, d: TxDesc)
    requires k <= |skb.frags| && k < |dma| && forall j :: 0 <= j <= k ==> dma[j].Some?
    ensures var p := PartialSlots(skb, dma, paylen, k);
            var all := cells + p + [Slot(None, None, d)];
            var o := if k == 0 then |cells| else |cells| + |p|;
            && all[o].start.None?
            && all[o := all[o].(rec := Some(BufferMapping(skb, dma, k)))]
               == (cells + Before(skb, dma, paylen, k)) + [Slot(None, RecOf(skb, dma, k), d)]
  {
    var p, m := PartialSlots(skb, dma, paylen, k), Some(BufferMapping(skb, dma, k));
    if k == 0 {
      assert p == [Slot(None, None, CONTEXT)];
      Replace(cells, Slot(None, None, CONTEXT), Slot(None, m, CONTEXT), [Slot(None, None, d)]);
    } else {
      Replace(cells + p, Slot(None, None, d), Slot(None, m, d), []);
    }
  }

  /** Writing buffer k after the slots before it. */
  lemma FrameAlgebra(cells: seq<Slot>, skb: Skb, dma: seq<Option<nat>>, paylen: nat, k: nat)
    requires k <= |skb.frags| && k < |dma| && forall j :: 0 <= j <= k ==> dma[j].Some?
    ensures (cells + Before(skb, dma, paylen, k)) + FrameSlots(skb, dma, paylen, k) == cells + PartialSlots(skb, dma, paylen, k + 1)
    ensures |Before(skb, dma, paylen, k)| == |PartialSlots(skb, dma, paylen, k)|
  {
    PartialGrows(skb, dma, paylen, k);
    Regroup(cells, Before(skb, dma, paylen, k), FrameSlots(skb, dma, paylen, k));
  }

  lemma FrameIsPacket(skb: Skb, offload: Offload, dma: seq<Option<nat>>)
    requires XmitInput(skb, dma) && MappedCount(dma) == |dma|
    ensures IsPacket(Frame(skb, offload, dma))
    ensures |Frame(skb, offload, dma)| == Needed(skb) + 1
  {
    DataSlotsShape(skb, dma, PayLen(skb, offload), |dma|);
    assert skb.frags[..|dma| - 1] == skb.frags;
    var f := Frame(skb, offload, dma);
    var d := DataSlots(skb, dma, PayLen(skb, offload), |dma|);
    assert f[1..] == d;
    forall j | 0 < j < |f|
      ensures DataSlot(f[j])
    {
      assert f[j] == d[j - 1];
    }
  }

  /** xmit_frame_ring on a ring of `count` slots. */
  ghost function Xmit(s: TxState, count: nat, skb: Skb, lldp: bool, vlanMissing: bool, offload: Offload,
                      dma: seq<Option<nat>>): (r: (TxState, TxStatus))
    requires XmitInput(skb, dma)
  {
    if lldp then
      (Drop(s, skb.id), Ok)
    else if Unused(s, count) < Needed(skb) + 3 then
      (s.(stopped := true), Busy)
    else if vlanMissing || offload.Fails? then
      (Drop(s, skb.id), Ok)
    else
      var n := MappedCount(dma);
      var taken := s.log + [Took(skb.id)] + MapLog(skb, dma, n);
      if n < |dma| then
        var slots := PartialSlots(skb, dma, PayLen(skb, offload), n);
        (s.(log := taken + UnwindTo(slots, |slots|) + [Freed(skb.id)]), Ok)
      else
        FrameIsPacket(skb, offload, dma);
        var s' := s.(queue := s.queue + [Frame(skb, offload, dma)], log := taken);
        (s'.(stopped := s.stopped || Unused(s', count) < DESC_NEEDED), Ok)
  }

  /** The slots of an XDP frame; the first one after a reset also carries a context descriptor. */
  function XdpFrame(primed: bool, data: nat, len: nat, addr: nat): (p: seq<Slot>)
    requires len > 0
    ensures IsPacket(p) && |p| == if primed then 1 else 2
  {
    var rec := Some(Mapping(Single, addr, len));
    var d := TxDesc(false, addr, len, true, len, false);
    if primed then [Slot(Some(Start(data, len, 1, 1)), rec, d)]
    else [Slot(Some(Start(data, len, 1, 2)), rec, CONTEXT), Slot(None, None, d)]
  }

  /** xmit_xdp_ring; the result says whether the ring took the frame. */
  ghost function XmitXdp(s: TxState, count: nat, data: nat, len: nat, dma: Option<nat>): (r: (TxState, bool))
    requires len > 0
  {
    if Unused(s, count) == 0 || dma.None? then (s, false)
    else (s.(queue := s.queue + [XdpFrame(s.primed, data, len, dma.value)], primed := true,
             log := s.log + [Mapped(Mapping(Single, dma.value, len))] + [Took(data)]), true)
  }

  /** Hardware writes back the last descriptor of the k-th queued packet, as it likes but for DD. */
  function WriteBack(p: Packet, d: TxDesc): Packet
    requires d.dd
  {
    p[|p| - 1 := p[|p| - 1].(desc := d)]
  }

  /** A write-back changes one slot of the ring. */
  lemma {:induction false} FlattenComplete(q: seq<Packet>, k: nat, d: TxDesc, n: nat)
    requires k < n <= |q| && d.dd
    ensures 0 < |FlattenTo(q, k + 1)| <= |FlattenTo(q, n)|
    ensures var e := |FlattenTo(q, k + 1)| - 1;
            FlattenTo(q[k := WriteBack(q[k], d)], n) == FlattenTo(q, n)[e := FlattenTo(q, n)[e].(desc := d)]
  {
    var q' := q[k := WriteBack(q[k], d)];
    if n == k + 1 {
      FlattenPrefix(q[..k], q[k..], k);
      assert q == q[..k] + q[k..] && q' == q[..k] + q'[k..];
      FlattenPrefix(q[..k], q'[k..], k);
    } else {
      FlattenComplete(q, k, d, n - 1);
    }
  }

  ghost function Complete(s: TxState, k: nat, d: TxDesc): TxState
    requires k < |s.queue| && d.dd
  {
    s.(queue := s.queue[k := WriteBack(s.queue[k], d)])
  }

  /** Packet `at` is the first that has not completed, or that the budget no longer covers. */
  predicate StopsAt(q: seq<Packet>, budget: nat, at: nat)
  {
    at <= |q| && at <= budget && (at == |q| || at == budget || !Done(q[at]))
  }

  /** How many packets one clean pass retires, counting on from packet `at`. */
  function RetireFrom(q: seq<Packet>, budget: nat, at: nat): (n: nat)
    requires at <= |q| && at <= budget
    ensures at <= n && StopsAt(q, budget, n)
    ensures forall k :: at <= k < n ==> Done(q[k])
    decreases |q| - at
  {
    if at == |q| || at == budget || !Done(q[at]) then at else RetireFrom(q, budget, at + 1)
  }

  function RetireCount(q: seq<Packet>, budget: nat): nat { RetireFrom(q, budget, 0) }

  /** Being the longest completed prefix within the budget determines the count. */
  lemma RetireCountIs(q: seq<Packet>, budget: nat, n: nat)
    requires StopsAt(q, budget, n)
    requires forall k :: 0 <= k < n ==> Done(q[k])
    ensures n == RetireCount(q, budget)
  {
    var _ := RetireCount(q, budget);
  }

  /** The two accumulators of a clean pass, 32 bits each. */
  datatype Totals = Totals(bytes: nat, packets: nat)
  {
    function Add(b: nat, segs: nat): Totals { Totals(U32(bytes + b), U32(packets + segs)) }
  }

  function TotalsTo(q: seq<Packet>, n: nat): Totals
    requires n <= |q|
  {
    if n == 0 then Totals(0, 0) else TotalsTo(q, n - 1).Add(q[n - 1][0].start.value.bytes, q[n - 1][0].start.value.segs)
  }

  lemma {:induction false} TotalsAreSums(q: seq<Packet>, n: nat)
    requires n <= |q|
    ensures TotalsTo(q, n) == Totals(U32(BytesTo(q, n)), U32(SegsTo(q, n)))
  {
    if n > 0 {
      TotalsAreSums(q, n - 1);
      AddInU32(BytesTo(q, n - 1), q[n - 1][0].start.value.bytes);
      AddInU32(SegsTo(q, n - 1), q[n - 1][0].start.value.segs);
    }
  }

  /** Retire the first n packets: free their buffers, undo their mappings, count them in 32 bits. */
  ghost function Retire(s: TxState, n: nat): TxState
    requires n <= |s.queue|
  {
    s.(queue := s.queue[n..],
       packets := s.packets + U32(SegsTo(s.queue, n)),
       bytes := s.bytes + U32(BytesTo(s.queue, n)),
       log := s.log + RetireLog(s.queue, n))
  }

  /** clean_tx_irq with no hang check pending; the result is false when the whole budget was used. */
  ghost function CleanIrq(s: TxState, count: nat, xdp: bool, down: bool, carrier: bool): (r: (TxState, bool))
  {
    if down then (s, true)
    else
      var n := RetireCount(s.queue, count / 2);
      var s' := Retire(s, n);
      var wake := !xdp && U32(SegsTo(s.queue, n)) != 0 && carrier && Unused(s', count) >= TX_WAKE_THRESHOLD;
      (if wake then s'.(stopped := false) else s', n < count / 2)
  }

  /** clean_tx_ring: everything still queued is freed and unmapped, completed or not. */
  ghost function CleanRing(s: TxState): TxState
  {
    s.(queue := [], log := s.log + RetireLog(s.queue, |s.queue|))
  }
}
