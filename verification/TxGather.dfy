/**
 What one transmitted frame looks like to the hardware: read in ring order, its data descriptors gather
 exactly the bytes of the head and then of each fragment.
 */
module TxGather {
  import opened Util
  import opened TxSpec

  /** The bus addresses of `len` bytes from `addr` on. */
  function Range(addr: nat, len: nat): seq<nat>
  {
    if len == 0 then [] else Range(addr, len - 1) + [addr + len - 1]
  }

  lemma {:induction false} RangeSplit(addr: nat, a: nat, b: nat, total: nat)
    requires total == a + b
    ensures Range(addr, total) == Range(addr, a) + Range(addr + a, b)
  {
    if b > 0 {
      RangeSplit(addr, a, b - 1, total - 1);
    }
  }

  /** What one descriptor makes the hardware read; a context descriptor carries no data. */
  function Reads(d: TxDesc): seq<nat> { if d.context then [] else Range(d.addr, d.len) }

  /** The bus addresses the hardware reads for the first n slots. */
  function GatherTo(s: seq<Slot>, n: nat): seq<nat>
    requires n <= |s|
  {
    if n == 0 then [] else GatherTo(s, n - 1) + Reads(s[n - 1].desc)
  }

  /** The bytes of the first n buffers of a frame: the head, then the fragments. */
  function PayloadTo(skb: Skb, dma: seq<Option<nat>>, n: nat): seq<nat>
    requires n <= |skb.frags| + 1 && n <= |dma| && forall k :: 0 <= k < n ==> dma[k].Some?
  {
    if n == 0 then [] else PayloadTo(skb, dma, n - 1) + Range(dma[n - 1].value, skb.Size(n - 1))
  }

  lemma {:induction false} GatherPrefix(a: seq<Slot>, all: seq<Slot>, n: nat)
    requires n <= |a| <= |all| && forall j :: 0 <= j < n ==> all[j].desc == a[j].desc
    ensures GatherTo(all, n) == GatherTo(a, n)
  {
    if n > 0 {
      GatherPrefix(a, all, n - 1);
    }
  }

  lemma {:induction false} GatherSplit(a: seq<Slot>, b: seq<Slot>, all: seq<Slot>, n: nat, m: nat)
    requires n <= |b| && all == a + b && m == |a| + n
    ensures GatherTo(all, m) == GatherTo(a, |a|) + GatherTo(b, n)
  {
    hide Reads;
    if n == 0 {
      GatherPrefix(a, all, m);
    } else {
      GatherSplit(a, b, all, n - 1, m - 1);
      assert all[m - 1] == b[n - 1];
      Regroup(GatherTo(a, |a|), GatherTo(b, n - 1), Reads(b[n - 1].desc));
    }
  }

  /** However many descriptors a buffer is cut into, they gather that buffer. */
  lemma {:induction false} BufferGathers(rec: Option<Mapping>, addr: nat, size: nat, paylen: nat, last: bool)
    requires size > 0
    ensures var s := BufferSlots(rec, Chunks(addr, size, paylen, last)); GatherTo(s, |s|) == Range(addr, size)
    decreases size
  {
    hide GatherTo, BufferSlots, Chunks, Range;
    if size <= MAX_DATA_PER_TXD {
      LastChunk(rec, addr, size, paylen, last);
      OneGathers(Slot(None, rec, TxDesc(false, addr, size, last, paylen, false)));
    } else {
      var c := Slot(None, rec, TxDesc(false, addr, MAX_DATA_PER_TXD, false, paylen, false));
      var rest := BufferSlots(None, Chunks(addr + MAX_DATA_PER_TXD, size - MAX_DATA_PER_TXD, 0, last));
      FirstChunk(rec, addr, size, paylen, last);
      BufferGathers(None, addr + MAX_DATA_PER_TXD, size - MAX_DATA_PER_TXD, 0, last);
      ConsGathers(c, rest, BufferSlots(rec, Chunks(addr, size, paylen, last)));
      RangeSplit(addr, MAX_DATA_PER_TXD, size - MAX_DATA_PER_TXD, size);
    }
  }

  lemma FirstChunk(rec: Option<Mapping>, addr: nat, size: nat, paylen: nat, last: bool)
    requires size > MAX_DATA_PER_TXD
    ensures BufferSlots(rec, Chunks(addr, size, paylen, last))
         == [Slot(None, rec, TxDesc(false, addr, MAX_DATA_PER_TXD, false, paylen, false))]
            + BufferSlots(None, Chunks(addr + MAX_DATA_PER_TXD, size - MAX_DATA_PER_TXD, 0, last))
  {
    ChunkSlotsStep([], rec, addr, size, paylen, last);
  }

  lemma ConsGathers(c: Slot, rest: seq<Slot>, all: seq<Slot>)
    requires all == [c] + rest
    ensures GatherTo(all, |all|) == Reads(c.desc) + GatherTo(rest, |rest|)
  {
    GatherSplit([c], rest, all, |rest|, |all|);
    OneGathers(c);
  }

  lemma OneGathers(c: Slot)
    ensures GatherTo([c], 1) == Reads(c.desc)
  {
    assert GatherTo([c], 1) == GatherTo([c], 0) + Reads(c.desc);
  }

  lemma {:induction false} DataGathers(skb: Skb, dma: seq<Option<nat>>, paylen: nat, n: nat)
    requires skb.NonEmpty() && n <= |skb.frags| + 1 && n <= |dma| && forall k :: 0 <= k < n ==> dma[k].Some?
    ensures var d := DataSlots(skb, dma, paylen, n); GatherTo(d, |d|) == PayloadTo(skb, dma, n)
  {
    if n > 0 {
      DataGathers(skb, dma, paylen, n - 1);
      var d, f, all := DataSlots(skb, dma, paylen, n - 1), FrameSlots(skb, dma, paylen, n - 1), DataSlots(skb, dma, paylen, n);
      BufferGathers(RecOf(skb, dma, n - 1), dma[n - 1].value, skb.Size(n - 1), if n == 1 then paylen else 0, n - 1 == |skb.frags|);
      GatherSplit(d, f, all, |f|, |all|);
    }
  }

  /** The frame in the ring gathers exactly head ++ fragments. */
  lemma FrameGathers(skb: Skb, offload: Offload, dma: seq<Option<nat>>)
    requires XmitInput(skb, dma) && MappedCount(dma) == |dma|
    ensures var f := Frame(skb, offload, dma); GatherTo(f, |f|) == PayloadTo(skb, dma, |dma|)
  {
    var f, d := Frame(skb, offload, dma), DataSlots(skb, dma, PayLen(skb, offload), |dma|);
    assert f == f[..1] + d;
    DataGathers(skb, dma, PayLen(skb, offload), |dma|);
    GatherSplit(f[..1], d, f, |d|, |f|);
    OneGathers(f[0]);
    assert f[..1] == [f[0]];
  }

  /** The command and payload words of a buffer's descriptors. */
  predicate Words(d: TxDesc, last: bool, paylen: nat) { (d.eopRs <==> last) && d.paylen == paylen }

  lemma ChunkWords(skb: Skb, dma: seq<Option<nat>>, paylen: nat, k: nat, j: nat)
    requires skb.NonEmpty() && k <= |skb.frags| && k < |dma| && dma[k].Some?
    requires j < |FrameSlots(skb, dma, paylen, k)|
    ensures Words(FrameSlots(skb, dma, paylen, k)[j].desc, k == |skb.frags| && j == |FrameSlots(skb, dma, paylen, k)| - 1,
                  if k == 0 && j == 0 then paylen else 0)
  {
    var cs := Chunks(dma[k].value, skb.Size(k), if k == 0 then paylen else 0, k == |skb.frags|);
    ChunksShape(dma[k].value, skb.Size(k), if k == 0 then paylen else 0, k == |skb.frags|);
    BufferSlotAt(RecOf(skb, dma, k), cs, j);
    assert cs[j].eopRs <==> k == |skb.frags| && j == UseCount(skb.Size(k)) - 1;
  }

  lemma {:induction false} DataWords(skb: Skb, dma: seq<Option<nat>>, paylen: nat, n: nat, j: nat)
    requires skb.NonEmpty() && n <= |skb.frags| + 1 && n <= |dma| && forall k :: 0 <= k < n ==> dma[k].Some?
    requires j < |DataSlots(skb, dma, paylen, n)|
    ensures Words(DataSlots(skb, dma, paylen, n)[j].desc, n == |skb.frags| + 1 && j == |DataSlots(skb, dma, paylen, n)| - 1,
                  if j == 0 then paylen else 0)
  {
    var before := |DataSlots(skb, dma, paylen, n - 1)|;
    if j < before {
      FrameSlotsShape(skb, dma, paylen, n - 1);
      DataWords(skb, dma, paylen, n - 1, j);
    } else {
      ChunkWords(skb, dma, paylen, n - 1, j - before);
      if n > 1 { FrameSlotsShape(skb, dma, paylen, n - 2); }
    }
  }

  lemma NeedsOne(skb: Skb)
    requires skb.NonEmpty()
    ensures Needed(skb) >= 1
  {
  }

  lemma PayLenIs(skb: Skb, o: Offload)
    ensures PayLen(skb, o) == (skb.head + Sum(skb.frags) - if o.Tso? then o.hdrLen else 0) % 0x1_0000_0000
  {
  }

  /** One context descriptor first, then data descriptors of 1..16384 bytes; only the last ends the packet
      and reports, only the first carries the payload length. */
  lemma FrameLayout(skb: Skb, offload: Offload, dma: seq<Option<nat>>, j: nat)
    requires XmitInput(skb, dma) && MappedCount(dma) == |dma| && j < |Frame(skb, offload, dma)|
    ensures var f := Frame(skb, offload, dma);
            && |f| == Needed(skb) + 1 >= 2
            && (f[j].desc.context <==> j == 0)
            && (f[j].desc.eopRs <==> j == |f| - 1)
            && (j > 0 ==> 0 < f[j].desc.len <= MAX_DATA_PER_TXD)
            && (j == 1 ==> f[j].desc.paylen == (skb.head + Sum(skb.frags) - if offload.Tso? then offload.hdrLen else 0) % 0x1_0000_0000)
            && (j > 1 ==> f[j].desc.paylen == 0)
            && !f[j].desc.dd
  {
    hide DataSlots, FrameSlots, Needed, IsPacket, PayLen;
    var f, d := Frame(skb, offload, dma), DataSlots(skb, dma, PayLen(skb, offload), |dma|);
    FrameIsPacket(skb, offload, dma);
    NeedsOne(skb);
    PayLenIs(skb, offload);
    DataSlotsShape(skb, dma, PayLen(skb, offload), |dma|);
    assert f[1..] == d;
    if j > 0 {
      assert f[j] == d[j - 1] && DataSlot(d[j - 1]);
      DataWords(skb, dma, PayLen(skb, offload), |dma|, j - 1);
    }
  }

  /** The k-th mapping made is buffer k's, whole: the head as Single, fragment k-1 as Page. */
  lemma {:induction false} MapsInOrder(skb: Skb, dma: seq<Option<nat>>, n: nat, k: nat)
    requires k < n <= |skb.frags| + 1 && n <= |dma| && forall i :: 0 <= i < n ==> dma[i].Some?
    ensures |MapLog(skb, dma, n)| == n
    ensures MapLog(skb, dma, n)[k]
         == Mapped(if k == 0 then Mapping(Single, dma[0].value, skb.head) else Mapping(Page, dma[k].value, skb.frags[k - 1]))
    decreases n
  {
    if n == 1 {
      assert MapLog(skb, dma, 1) == MapLog(skb, dma, 0) + [Mapped(BufferMapping(skb, dma, 0))];
    } else {
      MapsInOrder(skb, dma, n - 1, if k < n - 1 then k else 0);
    }
  }

  /** What the first record says: the frame, one segment or TSO's, and the bytes on the wire, with one more header for
      every segment after the first. */
  lemma FrameCounts(skb: Skb, offload: Offload, dma: seq<Option<nat>>)
    requires XmitInput(skb, dma) && MappedCount(dma) == |dma|
    ensures var f := Frame(skb, offload, dma);
            var len := skb.head + Sum(skb.frags);
            f[0].start == Some(Start(skb.id,
                                     (if offload.Tso? then len + (offload.gsoSegs - 1) * offload.hdrLen else len) % 0x1_0000_0000,
                                     if offload.Tso? then offload.gsoSegs else 1,
                                     Needed(skb) + 1))
  {
    hide PartialSlots, Needed, IsPacket, ByteCount, GsoSegs;
    FrameIsPacket(skb, offload, dma);
    CountsAre(skb, offload);
  }

  lemma CountsAre(skb: Skb, o: Offload)
    ensures ByteCount(skb, o) == (if o.Tso? then skb.head + Sum(skb.frags) + (o.gsoSegs - 1) * o.hdrLen else skb.head + Sum(skb.frags)) % 0x1_0000_0000
    ensures GsoSegs(o) == if o.Tso? then o.gsoSegs else 1
  {
  }

  /** An XDP frame is one data descriptor that ends the packet and gathers exactly the frame, after a context descriptor
      the first time; the first slot carries the frame and its mapping. */
  lemma XdpLayout(primed: bool, data: nat, len: nat, addr: nat)
    requires len > 0
    ensures var p := XdpFrame(primed, data, len, addr);
            && (p[0].desc.context <==> !primed) && p[0].rec == Some(Mapping(Single, addr, len)) && p[0].start == Some(Start(data, len, 1, |p|))
            && !p[|p| - 1].desc.context && p[|p| - 1].desc.eopRs && p[|p| - 1].desc.paylen == len && !p[|p| - 1].desc.dd
            && GatherTo(p, |p|) == Range(addr, len)
  {
    var p := XdpFrame(primed, data, len, addr);
    hide Range;
    assert GatherTo(p, |p|) == GatherTo(p, |p| - 1) + Reads(p[|p| - 1].desc);
    assert |p| == 2 ==> GatherTo(p, 1) == GatherTo(p, 0) + Reads(p[0].desc);
  }
}
