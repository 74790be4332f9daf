/**
 Transmitter, cleaner and hardware on one ring, interleaved access by access: the cleaner may run between any
 two steps of mapping a frame, and of undoing a failed map.  It is safe because next_to_watch is written last.
 The steps work on the arrays and indices alone; what they mean is tracked by a view that only the proof sees.
 */
module TxInterleave {
  import opened Util
  import opened TxSpec
  import opened TxRings
  import opened TxConservation

  // ---------------------------------------------------------------- the machine

  /** A frame being transmitted: what its first record says, the data descriptors asked for, and that record's index. */
  datatype Work = Work(skb: nat, bytes: nat, segs: nat, need: nat, first: nat)

  /** The transmitter: between frames; mapping, with `used` slots written up to index i; undoing a failed map from
      index i back; or with next_to_watch written and next_to_use still to be set. */
  datatype Sender = Out | Placing(w: Work, i: nat, used: nat) | Unwinding(w: Work, i: nat) | Watched(next: nat)

  /** The cleaner: between passes, before a packet, or inside the packet that ends at `eop`. */
  datatype Cleaner = Resting | Seeking(at: nat, budget: nat) | Walking(at: nat, eop: nat, budget: nat)

  datatype Machine = Machine(bufs: seq<TxBuffer>, descs: seq<TxDesc>, ntc: nat, ntu: nat, tx: Sender, cl: Cleaner, log: seq<Act>)

  datatype Step =
    | Begin(skb: nat, bytes: nat, segs: nat, need: nat) | Drop | Context | Describe(d: TxDesc) | Rewrite(d: TxDesc)
    | MapHead(addr: nat, len: nat) | MapFrag(addr: nat, len: nat) | Watch | Advance | Fail | UndoLast | UndoHead
    | Pass(budget: nat) | Take | Walk | NextPacket | Stop
    | Reported(f: nat, d: TxDesc)

  function Next(i: nat, count: nat): nat { if i + 1 == count then 0 else i + 1 }
  function Prev(i: nat, count: nat): nat requires count > 0 { if i == 0 then count - 1 else i - 1 }

  function UnmapIf(b: TxBuffer, kind: MapKind): seq<Act>
  {
    if b.len != 0 then [Unmapped(Mapping(kind, b.dma, b.len))] else []
  }

  function SkbOf(b: TxBuffer): nat { match b.skb case Some(s) => s case None => 0 }

  /** All indices are inside the arrays. */
  predicate InArrays(m: Machine)
  {
    var n := |m.bufs|;
    && n == |m.descs| && m.ntc < n && m.ntu < n
    && (match m.tx case Out => true case Placing(w, i, _) => w.first < n && i < n case Unwinding(w, i) => w.first < n && i < n case Watched(x) => x < n)
    && (match m.cl case Resting => true case Seeking(at, _) => at < n case Walking(at, eop, _) => at < n && eop < n)
  }

  /** The transmitter's steps: xmit_frame_ring, tx_ctxtdesc and tx_map. */
  function Transmit(m: Machine, e: Step): Machine
    requires InArrays(m)
  {
    var n := |m.bufs|;
    match m.tx
    case Out =>
      (match e
       case Begin(skb, bytes, segs, need) =>
         if DescUnused(m.ntc, m.ntu, n) < need + 3 then m
         else m.(bufs := m.bufs[m.ntu := m.bufs[m.ntu].(skb := Some(skb), bytecount := bytes, gsoSegs := segs)],
                 log := m.log + [Took(skb)], tx := Placing(Work(skb, bytes, segs, need, m.ntu), m.ntu, 0))
       case _ => m)
    case Placing(w, i, used) =>
      (match e
       case Drop =>
         if used != 0 then m
         else m.(log := m.log + [Freed(SkbOf(m.bufs[w.first]))], bufs := m.bufs[w.first := m.bufs[w.first].(skb := None)], tx := Out)
       case Context =>
         if used != 0 then m
         else m.(descs := m.descs[w.first := CONTEXT], ntu := Next(w.first, n), tx := Placing(w, w.first, 1))
       case Describe(d) =>
         if used == 0 || used > w.need || d.dd then m
         else m.(descs := m.descs[Next(i, n) := d], tx := Placing(w, Next(i, n), used + 1))
       case Rewrite(d) =>
         if used < 2 || d.dd then m else m.(descs := m.descs[i := d])
       case MapHead(addr, len) =>
         if used != 2 || len == 0 || m.bufs[w.first].len != 0 then m
         else m.(bufs := m.bufs[w.first := m.bufs[w.first].(len := len, dma := addr)], log := m.log + [Mapped(Mapping(Single, addr, len))])
       case MapFrag(addr, len) =>
         if used < 3 || len == 0 || m.bufs[w.first].len == 0 || m.bufs[i].len != 0 then m
         else m.(bufs := m.bufs[i := m.bufs[i].(len := len, dma := addr)], log := m.log + [Mapped(Mapping(Page, addr, len))])
       case Watch =>
         if used < 2 || m.bufs[w.first].len == 0 then m
         else m.(bufs := m.bufs[w.first := m.bufs[w.first].(nextToWatch := Some(i))], tx := Watched(Next(i, n)))
       case Fail => if used == 0 then m else m.(tx := Unwinding(w, i))
       case _ => m)
    case Unwinding(w, i) =>
      (match e
       case UndoLast =>
         if i == w.first then m
         else m.(log := m.log + UnmapIf(m.bufs[i], Page), bufs := m.bufs[i := m.bufs[i].(len := 0)], tx := Unwinding(w, Prev(i, n)))
       case UndoHead =>
         if i != w.first then m
         else m.(log := m.log + UnmapIf(m.bufs[i], Single) + [Freed(SkbOf(m.bufs[i]))],
                 bufs := m.bufs[i := m.bufs[i].(len := 0, skb := None)], ntu := i, tx := Out)
       case _ => m)
    case Watched(x) => if e == Advance then m.(ntu := x, tx := Out) else m
  }

  /** The cleaner's steps: clean_tx_irq. */
  function Clean(m: Machine, e: Step): Machine
    requires InArrays(m)
  {
    var n := |m.bufs|;
    match m.cl
    case Resting => (match e case Pass(budget) => m.(cl := Seeking(m.ntc, budget)) case _ => m)
    case Seeking(at, budget) =>
      var b := m.bufs[at];
      var ready := budget > 0 && b.nextToWatch.Some? && b.nextToWatch.value < n && m.descs[b.nextToWatch.value].dd;
      if e == Take && ready then
        m.(log := m.log + [Freed(SkbOf(b))] + UnmapIf(b, Single), bufs := m.bufs[at := b.(nextToWatch := None, len := 0)],
           cl := Walking(at, b.nextToWatch.value, budget))
      else if e == Stop && !ready then m.(ntc := at, cl := Resting)
      else m
    case Walking(at, eop, budget) =>
      if e == Walk && at != eop then
        var i := Next(at, n);
        m.(log := m.log + UnmapIf(m.bufs[i], Page), bufs := m.bufs[i := m.bufs[i].(len := 0)], cl := Walking(i, eop, budget))
      else if e == NextPacket && at == eop then m.(cl := Seeking(Next(at, n), if budget > 0 then budget - 1 else 0))
      else m
  }

  /** Hardware writes back the last descriptor of a packet that some record watches. */
  function Report(m: Machine, f: nat, d: TxDesc): Machine
    requires InArrays(m)
  {
    if f < |m.bufs| && m.bufs[f].nextToWatch.Some? && m.bufs[f].nextToWatch.value < |m.descs| && d.dd
    then m.(descs := m.descs[m.bufs[f].nextToWatch.value := d]) else m
  }

  // ---------------------------------------------------------------- the view

  /** Packets published and not yet behind next_to_clean, the cleaner being j slots into packet n of them; and the
      slots the transmitter has written after them. */
  datatype View = View(queue: seq<Packet>, n: nat, j: nat, pending: seq<Slot>)

  function Cells(v: View): seq<Slot> { Flatten(v.queue) + v.pending }

  /** Slots already reclaimed. */
  function Lo(v: View): nat
    requires v.n <= |v.queue|
  {
    |FlattenTo(v.queue, v.n)| + v.j
  }

  /** Slots of an unpublished frame: the first may hold a Single mapping; only then may others hold Page mappings. */
  predicate PendingOk(p: seq<Slot>)
  {
    && (forall k :: 0 <= k < |p| ==> p[k].start.None?)
    && (|p| > 0 && p[0].rec.Some? ==> p[0].rec.value.kind == Single)
    && (forall k :: 0 < k < |p| && p[k].rec.Some? ==> p[k].rec.value.kind == Page)
  }

  ghost predicate RingGood(m: Machine, v: View)
  {
    && 3 <= |m.bufs| == |m.descs| && m.ntc < |m.bufs| && m.ntu < |m.bufs|
    && v.n <= |v.queue| && (v.j > 0 ==> v.n < |v.queue| && v.j <= |v.queue[v.n]|)
    && |Cells(v)| < |m.bufs| && Lo(v) <= |Flatten(v.queue)|
    && (v.n < |v.queue| ==> |FlattenTo(v.queue, v.n)| + |v.queue[v.n]| <= |Flatten(v.queue)|)
    && Laid(m.bufs, m.descs, m.ntc, Cells(v), Lo(v))
    && PendingOk(v.pending)
  }

  /** The index of the slot o places after next_to_clean. */
  function Ix(m: Machine, o: nat): nat
    requires m.ntc < |m.bufs| && o <= |m.bufs|
  {
    Wrap(m.ntc, o, |m.bufs|)
  }

  ghost predicate CleanerGood(m: Machine, v: View)
    requires RingGood(m, v)
  {
    match m.cl
    case Resting => v.n == 0 && v.j == 0
    case Seeking(at, _) => v.j == 0 && at == Ix(m, Lo(v))
    case Walking(at, eop, _) => v.j > 0 && at == Ix(m, Lo(v) - 1) && eop == Ix(m, |FlattenTo(v.queue, v.n)| + |v.queue[v.n]| - 1)
  }

  ghost predicate SenderGood(m: Machine, v: View)
    requires RingGood(m, v)
  {
    var end := Ix(m, |Flatten(v.queue)|);
    match m.tx
    case Out => v.pending == [] && m.ntu == end
    case Placing(w, i, used) =>
      && used == |v.pending| <= w.need + 1 && |Flatten(v.queue)| + w.need + 3 < |m.bufs|
      && w.first == end && i == (if used == 0 then end else Ix(m, |Cells(v)| - 1))
      && (used == 0 ==> m.ntu == end)
      && (m.bufs[end].skb, m.bufs[end].bytecount, m.bufs[end].gsoSegs) == (Some(w.skb), w.bytes, w.segs)
      && (used > 0 ==> v.pending[0].rec.None? ==> forall k :: 0 < k < |v.pending| ==> v.pending[k].rec.None?)
    case Unwinding(w, i) =>
      |v.pending| > 0 && w.first == end && i == Ix(m, |Cells(v)| - 1) && m.bufs[end].skb == Some(w.skb)
    case Watched(x) => v.pending == [] && x == end
  }

  // ---------------------------------------------------------------- what is still owed

  function UnmapsFrom(s: seq<Slot>, j: nat): seq<Act>
    requires j <= |s|
    decreases |s| - j
  {
    if j == |s| then [] else UnmapOf(s[j].rec) + UnmapsFrom(s, j + 1)
  }

  function PacketOwes(p: Packet): seq<Act> { [Freed(p[0].start.value.skb)] + UnmapsFrom(p, 0) }

  function QueueOwes(q: seq<Packet>, n: nat): seq<Act>
    requires n <= |q|
    decreases |q| - n
  {
    if n == |q| then [] else PacketOwes(q[n]) + QueueOwes(q, n + 1)
  }

  function CleanerOwes(v: View): seq<Act>
    requires v.n <= |v.queue| && (v.j > 0 ==> v.n < |v.queue| && v.j <= |v.queue[v.n]|)
  {
    if v.j == 0 then QueueOwes(v.queue, v.n) else UnmapsFrom(v.queue[v.n], v.j) + QueueOwes(v.queue, v.n + 1)
  }

  function SenderOwes(tx: Sender, pending: seq<Slot>): seq<Act>
  {
    UnmapsFrom(pending, 0) + (match tx case Placing(w, _, _) => [Freed(w.skb)] case Unwinding(w, _) => [Freed(w.skb)] case _ => [])
  }

  predicate AllLosses(l: seq<Act>) { forall i :: 0 <= i < |l| ==> !IsGain(l[i]) }

  /** Nothing was given back before it was taken, and what is live is exactly what is owed. */
  ghost predicate Square(log: seq<Act>, owed: seq<Act>)
  {
    Safe(log) && AllLosses(owed) && forall k :: Live(log, k) + Live(owed, k) == 0
  }

  ghost predicate Books(m: Machine, v: View)
    requires RingGood(m, v)
  {
    Square(m.log, CleanerOwes(v) + SenderOwes(m.tx, v.pending))
  }

  ghost predicate Good(m: Machine, v: View)
  {
    RingGood(m, v) && CleanerGood(m, v) && SenderGood(m, v) && Books(m, v)
  }

  // ---------------------------------------------------------------- book-keeping

  lemma SquareGain(log: seq<Act>, owed: seq<Act>, g: Act, l: Act, owed': seq<Act>)
    requires Square(log, owed) && IsGain(g) && AllLosses(owed')
    requires l == (if g.Took? then Freed(g.skb) else Unmapped(g.m))
    requires forall k :: Live(owed', k) == Live(owed, k) + Live([l], k)
    ensures Square(log + [g], owed')
  {
    SafeGains(log, [g]);
    forall k
      ensures Live(log + [g], k) + Live(owed', k) == 0
    {
      LiveAppend(log, [g], k);
      LiveOne(g, k);
      LiveOne(l, k);
      assert Live(owed', k) == Live(owed, k) + Live([l], k);
    }
  }

  lemma SquareLoss(log: seq<Act>, owed: seq<Act>, l: seq<Act>, owed': seq<Act>)
    requires Square(log, owed) && AllLosses(l) && AllLosses(owed')
    requires forall k :: Live(owed, k) == Live(l, k) + Live(owed', k)
    ensures Square(log + l, owed')
  {
    forall k
      ensures Live(log, k) + Live(l, k) >= 0 && Live(log + l, k) + Live(owed', k) == 0
    {
      LiveAppend(log, l, k);
      assert Live(owed, k) == Live(l, k) + Live(owed', k);
      TxConservation.LossesOnly(owed', k);
    }
    SafeLosses(log, l);
  }

  lemma SquareSame(log: seq<Act>, owed: seq<Act>, owed': seq<Act>)
    requires Square(log, owed) && AllLosses(owed') && forall k :: Live(owed, k) == Live(owed', k)
    ensures Square(log, owed')
  {
    forall k ensures Live(log, k) + Live(owed', k) == 0 { assert Live(owed, k) == Live(owed', k); }
  }

  lemma {:induction false} UnmapsFromLosses(s: seq<Slot>, j: nat)
    requires j <= |s|
    ensures AllLosses(UnmapsFrom(s, j))
    decreases |s| - j
  {
    if j < |s| { UnmapsFromLosses(s, j + 1); }
  }

  lemma {:induction false} QueueOwesLosses(q: seq<Packet>, n: nat)
    requires n <= |q|
    ensures AllLosses(QueueOwes(q, n))
    decreases |q| - n
  {
    if n < |q| {
      QueueOwesLosses(q, n + 1);
      UnmapsFromLosses(q[n], 0);
    }
  }

  /** One more slot at the end adds its mapping. */
  lemma {:induction false} UnmapsFromGrow(s: seq<Slot>, c: Slot, j: nat, k: Key)
    requires j <= |s|
    ensures Live(UnmapsFrom(s + [c], j), k) == Live(UnmapsFrom(s, j), k) + Live(UnmapOf(c.rec), k)
    decreases |s| - j
  {
    if j < |s| {
      UnmapsFromGrow(s, c, j + 1, k);
      assert (s + [c])[j] == s[j];
      LiveAppend(UnmapOf(s[j].rec), UnmapsFrom(s + [c], j + 1), k);
      LiveAppend(UnmapOf(s[j].rec), UnmapsFrom(s, j + 1), k);
    } else {
      assert UnmapsFrom(s + [c], j) == UnmapOf(c.rec) + UnmapsFrom(s + [c], j + 1);
      LiveAppend(UnmapOf(c.rec), [], k);
    }
  }

  /** A slot whose record changes from nothing to a mapping adds it. */
  lemma {:induction false} UnmapsFromRecord(s: seq<Slot>, o: nat, m: Mapping, j: nat, k: Key)
    requires o < |s| && j <= |s| && s[o].rec.None?
    ensures var s' := s[o := s[o].(rec := Some(m))];
            Live(UnmapsFrom(s', j), k) == Live(UnmapsFrom(s, j), k) + if j <= o then Live([Unmapped(m)], k) else 0
    decreases |s| - j
  {
    var s' := s[o := s[o].(rec := Some(m))];
    if j < |s| {
      UnmapsFromRecord(s, o, m, j + 1, k);
      LiveAppend(UnmapOf(s'[j].rec), UnmapsFrom(s', j + 1), k);
      LiveAppend(UnmapOf(s[j].rec), UnmapsFrom(s, j + 1), k);
    }
  }

  lemma {:induction false} UnmapsFromSame(s: seq<Slot>, s': seq<Slot>, j: nat)
    requires j <= |s| == |s'| && forall i :: 0 <= i < |s| ==> s'[i].rec == s[i].rec
    ensures UnmapsFrom(s', j) == UnmapsFrom(s, j)
    decreases |s| - j
  {
    hide UnmapOf;
    if j < |s| { UnmapsFromSame(s, s', j + 1); }
  }

  lemma NothingLive(k: Key)
    ensures Live([], k) == 0
  {
  }

  lemma {:induction false} QueueOwesGrow(q: seq<Packet>, p: Packet, n: nat, k: Key)
    requires n <= |q|
    ensures Live(QueueOwes(q + [p], n), k) == Live(QueueOwes(q, n), k) + Live(PacketOwes(p), k)
    decreases |q| - n
  {
    hide PacketOwes, Live;
    if n < |q| {
      QueueOwesGrow(q, p, n + 1, k);
      assert (q + [p])[n] == q[n];
      LiveAppend(PacketOwes(q[n]), QueueOwes(q + [p], n + 1), k);
      LiveAppend(PacketOwes(q[n]), QueueOwes(q, n + 1), k);
    } else {
      assert QueueOwes(q + [p], n) == PacketOwes(p) + QueueOwes(q + [p], n + 1);
      LiveAppend(PacketOwes(p), [], k);
      NothingLive(k);
    }
  }

  lemma {:induction false} QueueOwesDrop(q: seq<Packet>, n: nat, m: nat)
    requires n <= m <= |q|
    ensures QueueOwes(q[n..], m - n) == QueueOwes(q, m)
    decreases |q| - m
  {
    hide PacketOwes;
    if m < |q| {
      QueueOwesDrop(q, n, m + 1);
      assert q[n..][m - n] == q[m];
      assert QueueOwes(q[n..], m - n) == PacketOwes(q[n..][m - n]) + QueueOwes(q[n..], m - n + 1);
    }
  }

  lemma {:induction false} QueueOwesComplete(q: seq<Packet>, i: nat, d: TxDesc, n: nat)
    requires i < |q| && d.dd && n <= |q|
    ensures QueueOwes(q[i := WriteBack(q[i], d)], n) == QueueOwes(q, n)
    decreases |q| - n
  {
    if n < |q| {
      QueueOwesComplete(q, i, d, n + 1);
      UnmapsFromSame(q[i], WriteBack(q[i], d), 0);
    }
  }

  // ---------------------------------------------------------------- the transmitter's steps

  lemma Here(v: View, k: nat)
    requires k < |v.pending|
    ensures Cells(v)[|Flatten(v.queue)| + k] == v.pending[k]
  {
  }

  /** The record of a slot still in use. */
  lemma RecordAt(m: Machine, v: View, o: nat)
    requires RingGood(m, v) && Lo(v) <= o < |Cells(v)|
    ensures Holds(m.bufs[Ix(m, o)], m.ntc, o, |m.bufs|, Cells(v)[o]) && m.descs[Ix(m, o)] == Cells(v)[o].desc
    ensures UnmapOf(Cells(v)[o].rec) == match Cells(v)[o].rec case None => [] case Some(r) => UnmapIf(m.bufs[Ix(m, o)], r.kind)
    ensures Cells(v)[o].rec.None? <==> m.bufs[Ix(m, o)].len == 0
    ensures Cells(v)[o].rec.None? ==> UnmapIf(m.bufs[Ix(m, o)], Page) == [] && UnmapIf(m.bufs[Ix(m, o)], Single) == []
  {
    LaidAt(m.bufs, m.descs, m.ntc, Cells(v), Lo(v), o);
  }

  lemma BeginStep(m: Machine, v: View, skb: nat, bytes: nat, segs: nat, need: nat)
    requires Good(m, v) && InArrays(m) && m.tx.Out?
    ensures Transmit(m, Begin(skb, bytes, segs, need)) != m <==> |Flatten(v.queue)| + need + 3 < |m.bufs|
    ensures Good(Transmit(m, Begin(skb, bytes, segs, need)), v)
  {
    hide CleanerOwes;
    var m' := Transmit(m, Begin(skb, bytes, segs, need));
    var cells := Cells(v);
    assert cells == Flatten(v.queue);
    WrapInjective(m.ntc, |cells|, |m.bufs| - 1 - DescUnused(m.ntc, m.ntu, |m.bufs|), |m.bufs|);
    if m' != m {
      assert SlotOk(m.bufs, m.descs, m.ntc, cells, Lo(v), |cells|);
      LaidTouch(m.bufs, m.descs, m.ntc, cells, m'.bufs[m.ntu], Lo(v));
      var owed := CleanerOwes(v) + SenderOwes(m.tx, v.pending);
      var owed' := CleanerOwes(v) + SenderOwes(m'.tx, v.pending);
      assert owed' == owed + [Freed(skb)];
      forall k ensures Live(owed', k) == Live(owed, k) + Live([Freed(skb)], k) { LiveAppend(owed, [Freed(skb)], k); }
      SquareGain(m.log, owed, Took(skb), Freed(skb), owed');
    }
  }

  lemma DropStep(m: Machine, v: View)
    requires Good(m, v) && InArrays(m) && m.tx.Placing?
    ensures Transmit(m, Drop) != m <==> v.pending == []
    ensures Good(Transmit(m, Drop), v)
    ensures var m' := Transmit(m, Drop); m' != m ==> m'.tx.Out? && m'.log == m.log + [Freed(m.tx.w.skb)] && m'.bufs[m.tx.w.first].skb.None?
  {
    hide CleanerOwes;
    var m' := Transmit(m, Drop);
    if m' != m {
      var cells := Cells(v);
      assert cells == Flatten(v.queue);
      assert SlotOk(m.bufs, m.descs, m.ntc, cells, Lo(v), |cells|);
      LaidTouch(m.bufs, m.descs, m.ntc, cells, m'.bufs[m.tx.w.first], Lo(v));
      var owed := CleanerOwes(v) + SenderOwes(m.tx, v.pending);
      var owed', l := CleanerOwes(v) + SenderOwes(m'.tx, v.pending), [Freed(m.tx.w.skb)];
      assert owed == owed' + l;
      OwedLosses(m'.tx, v);
      forall k ensures Live(owed, k) == Live(l, k) + Live(owed', k) { LiveAppend(owed', l, k); }
      SquareLoss(m.log, owed, l, owed');
    }
  }

  /** The cleaner stands where it stood if its packets, and next_to_clean, stay. */
  lemma CleanerKept(m: Machine, v: View, m': Machine, v': View)
    requires RingGood(m, v) && RingGood(m', v') && CleanerGood(m, v)
    requires m'.ntc == m.ntc && m'.cl == m.cl && |m'.bufs| == |m.bufs| && (v'.queue, v'.n, v'.j) == (v.queue, v.n, v.j)
    ensures CleanerGood(m', v')
  {
    hide Laid, PendingOk, Cells;
  }

  lemma PushRing(m: Machine, m': Machine, v: View, d: TxDesc) returns (v': View)
    requires RingGood(m, v) && |Cells(v)| + 1 < |m.bufs|
    requires m' == m.(descs := m.descs[Ix(m, |Cells(v)|) := d], ntu := m'.ntu, tx := m'.tx) && m'.ntu < |m.bufs|
    ensures v' == v.(pending := v.pending + [Slot(None, None, d)]) && Cells(v') == Cells(v) + [Slot(None, None, d)]
    ensures RingGood(m', v')
  {
    v' := v.(pending := v.pending + [Slot(None, None, d)]);
    assert Cells(v') == Cells(v) + [Slot(None, None, d)];
    LaidPush(m.bufs, m.descs, m.ntc, Cells(v), d, Lo(v));
    hide Laid;
  }

  /** The frame's slots grow by one that records nothing. */
  lemma PushStep(m: Machine, m': Machine, v: View, d: TxDesc) returns (v': View)
    requires Good(m, v) && m.tx.Placing? && m.tx.used <= m.tx.w.need && |Cells(v)| + 1 < |m.bufs|
    requires var at := Ix(m, |Cells(v)|);
             m' == m.(descs := m.descs[at := d], ntu := m'.ntu, tx := Placing(m.tx.w, at, m.tx.used + 1)) && m'.ntu < |m.bufs|
    ensures Good(m', v') && v' == v.(pending := v.pending + [Slot(None, None, d)])
  {
    hide Laid, PendingOk, Square, CleanerOwes, UnmapsFrom;
    v' := PushRing(m, m', v, d);
    CleanerKept(m, v, m', v');
    SameCleaner(v, v');
    forall k ensures Live(UnmapsFrom(v'.pending, 0), k) == Live(UnmapsFrom(v.pending, 0), k) {
      UnmapsFromGrow(v.pending, Slot(None, None, d), 0, k);
      assert Live([], k) == 0;
    }
    BooksSame(m, v, m', v');
  }

  /** Steps that change nothing anyone owes. */
  lemma BooksSame(m: Machine, v: View, m': Machine, v': View)
    requires RingGood(m, v) && RingGood(m', v') && Books(m, v) && m'.log == m.log
    requires CleanerOwes(v') == CleanerOwes(v) && SenderOwes(m'.tx, []) == SenderOwes(m.tx, [])
    requires forall k :: Live(UnmapsFrom(v'.pending, 0), k) == Live(UnmapsFrom(v.pending, 0), k)
    ensures Books(m', v')
  {
    hide CleanerOwes;
    var held := SenderOwes(m.tx, []);
    forall k
      ensures Live(CleanerOwes(v) + SenderOwes(m.tx, v.pending), k) == Live(CleanerOwes(v') + SenderOwes(m'.tx, v'.pending), k)
    {
      assert Live(UnmapsFrom(v'.pending, 0), k) == Live(UnmapsFrom(v.pending, 0), k);
      OwedLive(m.tx, v, k);
      OwedLive(m'.tx, v', k);
    }
    OwedLosses(m'.tx, v');
    SquareSame(m.log, CleanerOwes(v) + SenderOwes(m.tx, v.pending), CleanerOwes(v') + SenderOwes(m'.tx, v'.pending));
  }

  lemma OwedLive(tx: Sender, v: View, k: Key)
    requires v.n <= |v.queue| && (v.j > 0 ==> v.n < |v.queue| && v.j <= |v.queue[v.n]|)
    ensures Live(CleanerOwes(v) + SenderOwes(tx, v.pending), k)
         == Live(CleanerOwes(v), k) + Live(UnmapsFrom(v.pending, 0), k) + Live(SenderOwes(tx, []), k)
  {
    hide CleanerOwes;
    LiveAppend(CleanerOwes(v), SenderOwes(tx, v.pending), k);
    assert SenderOwes(tx, v.pending) == UnmapsFrom(v.pending, 0) + SenderOwes(tx, []);
    LiveAppend(UnmapsFrom(v.pending, 0), SenderOwes(tx, []), k);
  }

  lemma OwedLosses(tx: Sender, v: View)
    requires v.n <= |v.queue| && (v.j > 0 ==> v.n < |v.queue| && v.j <= |v.queue[v.n]|)
    ensures AllLosses(CleanerOwes(v) + SenderOwes(tx, v.pending))
  {
    UnmapsFromLosses(v.pending, 0);
    QueueOwesLosses(v.queue, v.n);
    if v.j > 0 {
      UnmapsFromLosses(v.queue[v.n], v.j);
      QueueOwesLosses(v.queue, v.n + 1);
    }
  }

  lemma DescribeStep(m: Machine, v: View, e: Step) returns (v': View)
    requires Good(m, v) && InArrays(m) && m.tx.Placing? && (e.Context? || e.Describe?)
    ensures Good(Transmit(m, e), v')
    ensures v' == if Transmit(m, e) == m then v else v.(pending := v.pending + [Slot(None, None, if e.Context? then CONTEXT else e.d)])
  {
    hide Laid, PendingOk, Books;
    var m' := Transmit(m, e);
    v' := v;
    if m' != m {
      WrapStep(m.ntc, if m.tx.used == 0 then 0 else |Cells(v)| - 1, |m.bufs|);
      v' := PushStep(m, m', v, if e.Context? then CONTEXT else e.d);
    }
  }

  /** Rewriting the descriptor or the record of one of the frame's slots. */
  lemma ChangeRing(m: Machine, m': Machine, v: View, o: nat, c: Slot) returns (v': View)
    requires RingGood(m, v) && o < |v.pending| && c.start.None?
    requires c.rec.Some? ==> c.rec.value.kind == if o == 0 then Single else Page
    requires |m'.bufs| == |m.bufs|
    requires var at := Ix(m, |Flatten(v.queue)| + o);
             && m' == m.(bufs := m.bufs[at := m'.bufs[at]], descs := m.descs[at := c.desc], log := m'.log)
             && Holds(m'.bufs[at], m.ntc, |Flatten(v.queue)| + o, |m.bufs|, c)
    ensures v' == v.(pending := v.pending[o := c]) && |Cells(v')| == |Cells(v)|
    ensures RingGood(m', v')
  {
    var at := |Flatten(v.queue)| + o;
    v' := v.(pending := v.pending[o := c]);
    assert Cells(v') == Cells(v)[at := c];
    LaidUpdate(m.bufs, m.descs, m.ntc, Cells(v), at, c, m'.bufs[Ix(m, at)], Lo(v));
  }

  lemma RewriteStep(m: Machine, v: View, d: TxDesc) returns (v': View)
    requires Good(m, v) && InArrays(m) && m.tx.Placing?
    ensures Good(Transmit(m, Rewrite(d)), v')
    ensures v' == if Transmit(m, Rewrite(d)) == m then v
                  else v.(pending := v.pending[|v.pending| - 1 := v.pending[|v.pending| - 1].(desc := d)])
  {
    hide Laid, PendingOk, Square, CleanerOwes, UnmapsFrom;
    var m' := Transmit(m, Rewrite(d));
    v' := v;
    if m' != m {
      var o := |v.pending| - 1;
      assert v.pending[o].start.None? && (v.pending[o].rec.Some? ==> v.pending[o].rec.value.kind == Page) by { PendingAt(v.pending, o); }
      Here(v, o);
      RecordAt(m, v, |Flatten(v.queue)| + o);
      assert m'.bufs == m.bufs[m.tx.i := m.bufs[m.tx.i]];
      v' := ChangeRing(m, m', v, o, v.pending[o].(desc := d));
      CleanerKept(m, v, m', v');
      SameCleaner(v, v');
      UnmapsFromSame(v.pending, v'.pending, 0);
      BooksSame(m, v, m', v');
    }
  }

  lemma PendingAt(p: seq<Slot>, o: nat)
    requires PendingOk(p) && o < |p|
    ensures p[o].start.None? && (p[o].rec.Some? ==> p[o].rec.value.kind == if o == 0 then Single else Page)
  {
  }

  /** Recording a mapping the transmitter has just made. */
  lemma RecordStep(m: Machine, m': Machine, v: View, o: nat, r: Mapping) returns (v': View)
    requires Good(m, v) && m.tx.Placing? && o < |v.pending| && v.pending[o].rec.None? && r.len > 0
    requires r.kind == if o == 0 then Single else Page
    requires o > 0 ==> v.pending[0].rec.Some?
    requires var at := Ix(m, |Flatten(v.queue)| + o);
             m' == m.(bufs := m.bufs[at := m.bufs[at].(len := r.len, dma := r.addr)], log := m.log + [Mapped(r)])
    ensures Good(m', v') && v' == v.(pending := v.pending[o := v.pending[o].(rec := Some(r))])
  {
    hide Laid, PendingOk, Square, CleanerOwes, UnmapsFrom;
    var at := |Flatten(v.queue)| + o;
    var c := v.pending[o].(rec := Some(r));
    PendingAt(v.pending, o);
    Here(v, o);
    RecordAt(m, v, at);
    assert m.descs[Ix(m, at) := c.desc] == m.descs;
    v' := ChangeRing(m, m', v, o, c);
    CleanerKept(m, v, m', v');
    WrapInjective(m.ntc, |Flatten(v.queue)|, at, |m.bufs|);
    RecordBooks(m, m', v, v', o, r);
  }

  lemma SameCleaner(v: View, v': View)
    requires v.n <= |v.queue| && (v.j > 0 ==> v.n < |v.queue| && v.j <= |v.queue[v.n]|)
    requires (v'.queue, v'.n, v'.j) == (v.queue, v.n, v.j)
    ensures CleanerOwes(v') == CleanerOwes(v)
  {
  }

  lemma RecordBooks(m: Machine, m': Machine, v: View, v': View, o: nat, r: Mapping)
    requires RingGood(m, v) && RingGood(m', v') && Books(m, v) && o < |v.pending| && v.pending[o].rec.None?
    requires v' == v.(pending := v.pending[o := v.pending[o].(rec := Some(r))])
    requires m'.log == m.log + [Mapped(r)] && m'.tx == m.tx
    ensures Books(m', v')
  {
    hide CleanerOwes;
    var owed, owed' := CleanerOwes(v) + SenderOwes(m.tx, v.pending), CleanerOwes(v') + SenderOwes(m.tx, v'.pending);
    SameCleaner(v, v');
    OwedLosses(m.tx, v');
    forall k
      ensures Live(owed', k) == Live(owed, k) + Live([Unmapped(r)], k)
    {
      OwedLive(m.tx, v, k);
      OwedLive(m.tx, v', k);
      UnmapsFromRecord(v.pending, o, r, 0, k);
    }
    SquareGain(m.log, owed, Mapped(r), Unmapped(r), owed');
  }

  /** Which slot a mapping is recorded in: the context slot for the head, the slot just written for a fragment. */
  function Target(v: View, e: Step): nat
    requires |v.pending| > 0
  {
    if e.MapHead? then 0 else |v.pending| - 1
  }

  /** The head may be mapped once its first data slot is written, a fragment into each slot after it. */
  predicate Maps(v: View, e: Step)
  {
    match e
    case MapHead(_, len) => |v.pending| == 2 && len > 0 && v.pending[0].rec.None?
    case MapFrag(_, len) => |v.pending| >= 3 && len > 0 && v.pending[0].rec.Some? && v.pending[|v.pending| - 1].rec.None?
    case _ => false
  }

  lemma MapsExactly(m: Machine, v: View, e: Step)
    requires RingGood(m, v) && SenderGood(m, v) && InArrays(m) && m.tx.Placing? && (e.MapHead? || e.MapFrag?)
    ensures Transmit(m, e) != m <==> Maps(v, e)
  {
    hide Laid, PendingOk, UnmapIf;
    if |v.pending| > 1 {
      Here(v, 0);
      RecordAt(m, v, |Flatten(v.queue)|);
      Here(v, |v.pending| - 1);
      RecordAt(m, v, |Cells(v)| - 1);
    }
  }

  lemma MapStep(m: Machine, v: View, e: Step) returns (v': View)
    requires Good(m, v) && InArrays(m) && m.tx.Placing? && (e.MapHead? || e.MapFrag?)
    ensures Transmit(m, e) != m <==> Maps(v, e)
    ensures Good(Transmit(m, e), v')
    ensures v' == if !Maps(v, e) then v
                  else v.(pending := v.pending[Target(v, e) := v.pending[Target(v, e)].(rec := Some(Mapping(if e.MapHead? then Single else Page, e.addr, e.len)))])
  {
    hide Laid, PendingOk, Square, CleanerOwes, UnmapsFrom, UnmapIf;
    var m' := Transmit(m, e);
    v' := v;
    MapsExactly(m, v, e);
    if m' != m {
      v' := RecordStep(m, m', v, Target(v, e), Mapping(if e.MapHead? then Single else Page, e.addr, e.len));
    }
  }

  // ---------------------------------------------------------------- publishing and undoing

  /** A frame whose head is mapped is a packet once its first record says so. */
  lemma PendingIsPacket(m: Machine, v: View, w: Work)
    requires RingGood(m, v) && |v.pending| > 0 && v.pending[0].rec.Some?
    ensures IsPacket(WithStart(v.pending, w.skb, w.bytes, w.segs))
  {
    var p := WithStart(v.pending, w.skb, w.bytes, w.segs);
    forall k | 0 <= k < |p|
      ensures p[k].rec == v.pending[k].rec && (k > 0 ==> p[k] == v.pending[k]) && (p[k].rec.Some? ==> p[k].rec.value.len > 0)
    {
      assert k > 0 ==> p[1..][k - 1] == v.pending[1..][k - 1];
      Here(v, k);
      LaidAt(m.bufs, m.descs, m.ntc, Cells(v), Lo(v), |Flatten(v.queue)| + k);
    }
  }

  lemma PublishRing(m: Machine, m': Machine, v: View, p: Packet) returns (v': View)
    requires RingGood(m, v) && m.tx.Placing? && |v.pending| > 0
    requires m.tx.w.first == Ix(m, |Flatten(v.queue)|) && m.tx.i == Ix(m, |Cells(v)| - 1)
    requires (m.bufs[m.tx.w.first].skb, m.bufs[m.tx.w.first].bytecount, m.bufs[m.tx.w.first].gsoSegs) == (Some(m.tx.w.skb), m.tx.w.bytes, m.tx.w.segs)
    requires p == WithStart(v.pending, m.tx.w.skb, m.tx.w.bytes, m.tx.w.segs)
    requires m' == m.(bufs := m.bufs[m.tx.w.first := m.bufs[m.tx.w.first].(nextToWatch := Some(m.tx.i))], tx := m'.tx)
    ensures v' == View(v.queue + [p], v.n, v.j, []) && Flatten(v'.queue) == Flatten(v.queue) + p && |p| == |v.pending|
    ensures FlattenTo(v'.queue, v.n) == FlattenTo(v.queue, v.n)
    ensures RingGood(m', v')
  {
    hide Laid;
    v' := View(v.queue + [p], v.n, v.j, []);
    PushedFlat(v.queue, p);
    FlattenPrefix(v.queue, [p], v.n);
    LaidStart(m.bufs, m.descs, m.ntc, Flatten(v.queue), v.pending, m.tx.w.skb, m.tx.w.bytes, m.tx.w.segs, Lo(v));
    assert Cells(v') == Flatten(v.queue) + p;
    if v.n < |v'.queue| { PacketAt(v'.queue, v.n); }
  }

  /** What the transmitter owed for its frame the queue owes now. */
  lemma PublishBooks(m: Machine, m': Machine, v: View, v': View, p: Packet)
    requires RingGood(m, v) && RingGood(m', v') && Books(m, v) && m.tx.Placing? && m'.tx.Watched? && m'.log == m.log
    requires |v.pending| > 0 && p == WithStart(v.pending, m.tx.w.skb, m.tx.w.bytes, m.tx.w.segs)
    requires v' == View(v.queue + [p], v.n, v.j, [])
    ensures Books(m', v')
  {
    var owed, owed' := CleanerOwes(v) + SenderOwes(m.tx, v.pending), CleanerOwes(v') + SenderOwes(m'.tx, v'.pending);
    forall k
      ensures Live(owed, k) == Live(owed', k)
    {
      OwedLive(m.tx, v, k);
      OwedLive(m'.tx, v', k);
      CleanerGrows(v, v', p, k);
      forall i | 0 <= i < |p| ensures p[i].rec == v.pending[i].rec { assert i > 0 ==> p[1..][i - 1] == v.pending[1..][i - 1]; }
      UnmapsFromSame(v.pending, p, 0);
      LiveAppend([Freed(m.tx.w.skb)], UnmapsFrom(p, 0), k);
      assert SenderOwes(m.tx, []) == [Freed(m.tx.w.skb)] && SenderOwes(m'.tx, []) == [];
    }
    OwedLosses(m'.tx, v');
    SquareSame(m.log, owed, owed');
  }

  lemma CleanerGrows(v: View, v': View, p: Packet, k: Key)
    requires v.n <= |v.queue| && (v.j > 0 ==> v.n < |v.queue| && v.j <= |v.queue[v.n]|)
    requires v' == View(v.queue + [p], v.n, v.j, v'.pending)
    ensures Live(CleanerOwes(v'), k) == Live(CleanerOwes(v), k) + Live(PacketOwes(p), k)
  {
    if v.j == 0 {
      QueueOwesGrow(v.queue, p, v.n, k);
    } else {
      QueueOwesGrow(v.queue, p, v.n + 1, k);
      LiveAppend(UnmapsFrom(v.queue[v.n], v.j), QueueOwes(v.queue, v.n + 1), k);
      LiveAppend(UnmapsFrom(v.queue[v.n], v.j), QueueOwes(v'.queue, v.n + 1), k);
    }
  }

  /** Writing next_to_watch, once the head is mapped, makes one packet of all the slots written. */
  lemma WatchStep(m: Machine, v: View) returns (v': View)
    requires Good(m, v) && InArrays(m) && m.tx.Placing?
    ensures Transmit(m, Watch) != m <==> |v.pending| >= 2 && v.pending[0].rec.Some?
    ensures Good(Transmit(m, Watch), v')
    ensures Transmit(m, Watch) == m ==> v' == v
    ensures Transmit(m, Watch) != m ==>
              v' == View(v'.queue, v.n, v.j, []) && |v'.queue| == |v.queue| + 1 && v'.queue[..|v.queue|] == v.queue
              && v'.queue[|v.queue|] == WithStart(v.pending, m.tx.w.skb, m.tx.w.bytes, m.tx.w.segs)
  {
    hide Laid, PendingOk, Square, CleanerOwes, UnmapsFrom, FlattenTo, Books, IsPacket;
    var m' := Transmit(m, Watch);
    v' := v;
    if |v.pending| > 0 {
      Here(v, 0);
      RecordAt(m, v, |Flatten(v.queue)|);
    }
    if m' != m {
      PendingIsPacket(m, v, m.tx.w);
      var p: Packet := WithStart(v.pending, m.tx.w.skb, m.tx.w.bytes, m.tx.w.segs);
      v' := PublishRing(m, m', v, p);
      PublishBooks(m, m', v, v', p);
      WrapStep(m.ntc, |Cells(v)| - 1, |m.bufs|);
    }
  }

  /** next_to_use is set, or a failed map turns to undoing: only the transmitter's own state changes. */
  lemma TurnStep(m: Machine, v: View, e: Step)
    requires Good(m, v) && InArrays(m) && ((m.tx.Placing? && e.Fail?) || (m.tx.Watched? && e.Advance?))
    ensures Good(Transmit(m, e), v)
  {
    hide Laid, PendingOk, Square, CleanerOwes, UnmapsFrom;
    var m' := Transmit(m, e);
    assert m'.tx.Unwinding? || m'.tx.Out? || m' == m;
    assert SenderOwes(m'.tx, v.pending) == SenderOwes(m.tx, v.pending);
  }

  lemma PopRing(m: Machine, m': Machine, v: View) returns (v': View)
    requires RingGood(m, v) && |v.pending| > 0
    requires var at := Ix(m, |Cells(v)| - 1);
             |m'.bufs| == |m.bufs| && m' == m.(bufs := m.bufs[at := m'.bufs[at]], ntu := m'.ntu, tx := m'.tx, log := m'.log) && Free(m'.bufs[at])
    requires m'.ntu < |m.bufs|
    ensures v' == v.(pending := v.pending[..|v.pending| - 1]) && |Cells(v')| == |Cells(v)| - 1
    ensures RingGood(m', v')
  {
    v' := v.(pending := v.pending[..|v.pending| - 1]);
    var c := v.pending[|v.pending| - 1];
    assert Cells(v) == Cells(v') + [c];
    LaidPop(m.bufs, m.descs, m.ntc, Cells(v'), c, m'.bufs[Ix(m, |Cells(v)| - 1)], Lo(v));
  }

  lemma PopLive(tx: Sender, tx': Sender, v: View, v': View, c: Slot, f: seq<Act>, k: Key)
    requires v.n <= |v.queue| && (v.j > 0 ==> v.n < |v.queue| && v.j <= |v.queue[v.n]|)
    requires (v'.queue, v'.n, v'.j) == (v.queue, v.n, v.j) && v.pending == v'.pending + [c]
    requires SenderOwes(tx, []) == f + SenderOwes(tx', [])
    ensures Live(CleanerOwes(v) + SenderOwes(tx, v.pending), k)
         == Live(UnmapOf(c.rec) + f, k) + Live(CleanerOwes(v') + SenderOwes(tx', v'.pending), k)
  {
    hide CleanerOwes;
    SameCleaner(v, v');
    OwedLive(tx, v, k);
    OwedLive(tx', v', k);
    UnmapsFromGrow(v'.pending, c, 0, k);
    LiveAppend(UnmapOf(c.rec), f, k);
    LiveAppend(f, SenderOwes(tx', []), k);
  }

  lemma SenderOwesFrame(tx: Sender)
    ensures SenderOwes(tx, []) == match tx case Placing(w, _, _) => [Freed(w.skb)] case Unwinding(w, _) => [Freed(w.skb)] case _ => []
  {
    assert UnmapsFrom([], 0) == [];
  }

  /** The last slot's mapping, if any, is undone; `l` also frees the frame when that was the first slot. */
  lemma PopBooks(m: Machine, m': Machine, v: View, v': View, l: seq<Act>)
    requires RingGood(m, v) && RingGood(m', v') && Books(m, v) && m.tx.Unwinding? && |v.pending| > 0
    requires v' == v.(pending := v.pending[..|v.pending| - 1]) && m'.log == m.log + l
    requires (m'.tx.Unwinding? && m'.tx.w == m.tx.w) || m'.tx.Out?
    requires l == if m'.tx.Out? then UnmapOf(v.pending[|v.pending| - 1].rec) + [Freed(m.tx.w.skb)] else UnmapOf(v.pending[|v.pending| - 1].rec)
    ensures Books(m', v')
  {
    hide CleanerOwes, SenderOwes, Laid, PendingOk, Square, FlattenTo;
    var owed, owed' := CleanerOwes(v) + SenderOwes(m.tx, v.pending), CleanerOwes(v') + SenderOwes(m'.tx, v'.pending);
    var c, f := v.pending[|v.pending| - 1], if m'.tx.Out? then [Freed(m.tx.w.skb)] else [];
    assert v.pending == v'.pending + [c];
    assert l == UnmapOf(c.rec) + f;
    SenderOwesFrame(m.tx);
    SenderOwesFrame(m'.tx);
    OwedLosses(m'.tx, v');
    forall k
      ensures Live(owed, k) == Live(l, k) + Live(owed', k)
    {
      PopLive(m.tx, m'.tx, v, v', c, f, k);
    }
    SquareLoss(m.log, owed, l, owed');
  }

  /** Undoing goes from the last slot back: its mapping, if any, is undone and the slot is free again. */
  lemma UndoLastStep(m: Machine, v: View) returns (v': View)
    requires Good(m, v) && InArrays(m) && m.tx.Unwinding?
    ensures |v.pending| > 0 && (Transmit(m, UndoLast) != m <==> |v.pending| > 1)
    ensures Good(Transmit(m, UndoLast), v') && v' == if |v.pending| > 1 then v.(pending := v.pending[..|v.pending| - 1]) else v
    ensures |v.pending| > 1 ==> Transmit(m, UndoLast).log == m.log + UnmapOf(v.pending[|v.pending| - 1].rec)
  {
    hide Laid, PendingOk, Square, CleanerOwes, UnmapsFrom, UnmapIf;
    var m' := Transmit(m, UndoLast);
    v' := v;
    WrapInjective(m.ntc, |Cells(v)| - 1, |Flatten(v.queue)|, |m.bufs|);
    if m' != m {
      var o := |v.pending| - 1;
      PendingAt(v.pending, o);
      Here(v, o);
      RecordAt(m, v, |Cells(v)| - 1);
      v' := PopRing(m, m', v);
      CleanerKept(m, v, m', v');
      PopBooks(m, m', v, v', UnmapIf(m.bufs[m.tx.i], Page));
    }
  }

  /** Back at the first slot, the head is unmapped and the frame freed. */
  lemma UndoHeadStep(m: Machine, v: View) returns (v': View)
    requires Good(m, v) && InArrays(m) && m.tx.Unwinding?
    ensures |v.pending| > 0 && (Transmit(m, UndoHead) != m <==> |v.pending| == 1)
    ensures Good(Transmit(m, UndoHead), v') && v' == if |v.pending| == 1 then v.(pending := []) else v
    ensures |v.pending| == 1 ==> Transmit(m, UndoHead).log == m.log + UnmapOf(v.pending[0].rec) + [Freed(m.tx.w.skb)]
  {
    hide Laid, PendingOk, Square, CleanerOwes, UnmapsFrom, UnmapIf;
    var m' := Transmit(m, UndoHead);
    v' := v;
    WrapInjective(m.ntc, |Cells(v)| - 1, |Flatten(v.queue)|, |m.bufs|);
    if m' != m {
      PendingAt(v.pending, 0);
      Here(v, 0);
      RecordAt(m, v, |Flatten(v.queue)|);
      v' := PopRing(m, m', v);
      CleanerKept(m, v, m', v');
      Regroup(m.log, UnmapIf(m.bufs[m.tx.i], Single), [Freed(m.tx.w.skb)]);
      PopBooks(m, m', v, v', UnmapIf(m.bufs[m.tx.i], Single) + [Freed(m.tx.w.skb)]);
    }
  }

  // ---------------------------------------------------------------- the cleaner's steps

  /** Slot j of packet n. */
  lemma PacketCell(v: View, n: nat, j: nat)
    requires n < |v.queue| && j < |v.queue[n]|
    ensures |FlattenTo(v.queue, n)| + |v.queue[n]| == |FlattenTo(v.queue, n + 1)| <= |Flatten(v.queue)|
    ensures Cells(v)[|FlattenTo(v.queue, n)| + j] == v.queue[n][j]
  {
    PacketAt(v.queue, n);
    SitsAt(v.queue[n], Flatten(v.queue), |FlattenTo(v.queue, n)|, j);
  }

  lemma PassStep(m: Machine, v: View, budget: nat)
    requires Good(m, v) && InArrays(m) && m.cl.Resting?
    ensures Good(Clean(m, Pass(budget)), v)
  {
    hide Laid, PendingOk, Square, CleanerOwes, UnmapsFrom;
  }

  /** The slot before which the cleaner stands watches nothing once all published packets are reclaimed. */
  lemma NothingWatched(m: Machine, v: View)
    requires RingGood(m, v) && v.n == |v.queue| && v.j == 0
    ensures m.bufs[Ix(m, Lo(v))].nextToWatch.None?
  {
    var o := Lo(v);
    assert SlotOk(m.bufs, m.descs, m.ntc, Cells(v), o, o);
    if |v.pending| > 0 { Here(v, 0); }
  }

  /** And if one is left, the packet's last slot, and what hardware reported there. */
  lemma PacketWatched(m: Machine, v: View)
    requires RingGood(m, v) && v.n < |v.queue| && v.j == 0
    ensures var p := v.queue[v.n];
            var eop := Ix(m, |FlattenTo(v.queue, v.n)| + |p| - 1);
            m.bufs[Ix(m, Lo(v))].nextToWatch == Some(eop) && (m.descs[eop].dd <==> Done(p))
  {
    hide Laid, FlattenTo, PendingOk;
    PacketAt(v.queue, v.n);
    SitsGrows(v.queue[v.n], Flatten(v.queue), v.pending, |FlattenTo(v.queue, v.n)|);
    HeadSeen(m.bufs, m.descs, m.ntc, Cells(v), Lo(v), v.queue[v.n]);
  }

  /** The slot reclaimed next is emptied. */
  lemma ReclaimRing(m: Machine, m': Machine, v: View) returns (v': View)
    requires RingGood(m, v) && v.n < |v.queue| && v.j < |v.queue[v.n]| && |m'.bufs| == |m.bufs|
    requires var at := Ix(m, Lo(v)); m' == m.(bufs := m.bufs[at := m'.bufs[at]], log := m'.log, cl := m'.cl) && Free(m'.bufs[at])
    ensures v' == v.(j := v.j + 1) && Lo(v') == Lo(v) + 1
    ensures RingGood(m', v')
  {
    PacketCell(v, v.n, v.j);
    v' := v.(j := v.j + 1);
    LaidClear(m.bufs, m.descs, m.ntc, Cells(v), Lo(v), m'.bufs[Ix(m, Lo(v))]);
  }

  /** The transmitter stands where it stood if only a reclaimed slot's record changed. */
  lemma SenderKept(m: Machine, v: View, m': Machine, v': View)
    requires RingGood(m, v) && RingGood(m', v') && SenderGood(m, v)
    requires |Flatten(v'.queue)| == |Flatten(v.queue)| && v'.pending == v.pending
    requires m'.tx == m.tx && m'.ntc == m.ntc && m'.ntu == m.ntu && |m'.bufs| == |m.bufs|
    requires |Flatten(v.queue)| < |m.bufs| ==> m'.bufs[Ix(m, |Flatten(v.queue)|)] == m.bufs[Ix(m, |Flatten(v.queue)|)]
    ensures SenderGood(m', v')
  {
    hide Laid, PendingOk;
  }

  /** What the cleaner gives back at the next slot is the front of what it owes. */
  lemma ReclaimBooks(m: Machine, m': Machine, v: View, v': View, l: seq<Act>)
    requires RingGood(m, v) && RingGood(m', v') && Books(m, v) && v.n < |v.queue| && v.j < |v.queue[v.n]|
    requires v' == v.(j := v.j + 1) && m'.log == m.log + l && m'.tx == m.tx
    requires l == Front(v.queue[v.n], v.j)
    ensures Books(m', v')
  {
    hide RingGood, Square, UnmapsFrom;
    FrontFirst(v, v');
    hide CleanerOwes;
    var owed, owed' := CleanerOwes(v) + SenderOwes(m.tx, v.pending), CleanerOwes(v') + SenderOwes(m.tx, v.pending);
    OwedLosses(m.tx, v');
    FrontOf(l, CleanerOwes(v'), SenderOwes(m.tx, v.pending));
    forall k ensures Live(owed, k) == Live(l, k) + Live(owed', k) { LiveAppend(l, owed', k); }
    SquareLoss(m.log, owed, l, owed');
  }

  /** What is given back at slot j of a packet. */
  function Front(p: Packet, j: nat): seq<Act>
    requires j < |p|
  {
    if j == 0 then [Freed(p[0].start.value.skb)] + UnmapOf(p[0].rec) else UnmapOf(p[j].rec)
  }

  lemma FrontIs(p: Packet, j: nat)
    requires j < |p|
    ensures p[0].rec.Some? && p[0].rec.value.kind == Single && p[0].start.Some?
    ensures j == 0 ==> Front(p, j) == [Freed(p[0].start.value.skb)] + UnmapOf(p[0].rec)
    ensures j > 0 ==> Front(p, j) == UnmapOf(p[j].rec) && (p[j].rec.Some? ==> p[j].rec.value.kind == Page) && p[j].start.None?
  {
  }

  lemma FrontFirst(v: View, v': View)
    requires v.n < |v.queue| && v.j < |v.queue[v.n]| && v' == v.(j := v.j + 1)
    ensures CleanerOwes(v) == Front(v.queue[v.n], v.j) + CleanerOwes(v')
  {
    var p, rest := v.queue[v.n], QueueOwes(v.queue, v.n + 1);
    assert UnmapsFrom(p, v.j) == UnmapOf(p[v.j].rec) + UnmapsFrom(p, v.j + 1);
    if v.j == 0 {
      Regroup([Freed(p[0].start.value.skb)], UnmapOf(p[0].rec), UnmapsFrom(p, 1));
    }
    Regroup(Front(p, v.j), UnmapsFrom(p, v.j + 1), rest);
  }

  lemma FrontOf(a: seq<Act>, b: seq<Act>, c: seq<Act>)
    ensures (a + b) + c == a + (b + c)
  {
  }

  /** A packet is taken exactly when hardware has reported its last descriptor and budget is left: its buffer is freed
      and its head unmapped. */
  lemma TakeStep(m: Machine, v: View) returns (v': View)
    requires Good(m, v) && InArrays(m) && m.cl.Seeking?
    ensures Clean(m, Take) != m <==> m.cl.budget > 0 && v.n < |v.queue| && Done(v.queue[v.n])
    ensures Good(Clean(m, Take), v') && v' == if Clean(m, Take) != m then v.(j := 1) else v
    ensures Clean(m, Take) != m ==> Clean(m, Take).log == m.log + PacketLog(v.queue[v.n], 1)
  {
    hide Laid, PendingOk, Square, CleanerOwes, UnmapsFrom, UnmapIf, UnmapOf, Front, FlattenTo, Books, Done;
    var m' := Clean(m, Take);
    v' := v;
    if v.n == |v.queue| { NothingWatched(m, v); } else { PacketWatched(m, v); }
    if m' != m {
      var p := v.queue[v.n];
      PacketCell(v, v.n, 0);
      FrontIs(p, 0);
      RecordAt(m, v, Lo(v));
      WrapInjective(m.ntc, Lo(v), |Flatten(v.queue)|, |m.bufs|);
      v' := ReclaimRing(m, m', v);
      SenderKept(m, v, m', v');
      Regroup(m.log, [Freed(p[0].start.value.skb)], UnmapOf(p[0].rec));
      ReclaimBooks(m, m', v, v', Front(p, 0));
      assert PacketLog(p, 1) == [Freed(p[0].start.value.skb)] + UnmapOf(p[0].rec) by { assert UnmapsTo(p, 1) == UnmapsTo(p, 0) + UnmapOf(p[0].rec); }
    }
  }

  /** Inside a packet the cleaner's next slot is the packet's next, and its record says what that slot has mapped. */
  lemma WalkReads(m: Machine, v: View)
    requires RingGood(m, v) && CleanerGood(m, v) && m.cl.Walking? && m.cl.at != m.cl.eop
    ensures v.n < |v.queue| && v.j < |v.queue[v.n]| && Lo(v) < |Flatten(v.queue)|
    ensures m.cl.at < |m.bufs| && Next(m.cl.at, |m.bufs|) == Ix(m, Lo(v))
    ensures var b := m.bufs[Ix(m, Lo(v))]; b.nextToWatch.None? && UnmapIf(b, Page) == Front(v.queue[v.n], v.j)
  {
    hide Laid, PendingOk, UnmapIf, UnmapOf, Front, FlattenTo;
    FrontIs(v.queue[v.n], v.j);
    PacketCell(v, v.n, v.j);
    RecordAt(m, v, Lo(v));
    WrapStep(m.ntc, Lo(v) - 1, |m.bufs|);
  }

  /** The cleaner is inside a packet, and at its watched descriptor exactly when all its slots are reclaimed. */
  lemma WalkingAt(m: Machine, v: View)
    requires RingGood(m, v) && CleanerGood(m, v) && m.cl.Walking?
    ensures v.n < |v.queue| && 0 < v.j <= |v.queue[v.n]|
    ensures m.cl.at == m.cl.eop <==> v.j == |v.queue[v.n]|
  {
    hide Laid, PendingOk, FlattenTo;
    WrapInjective(m.ntc, Lo(v) - 1, |FlattenTo(v.queue, v.n)| + |v.queue[v.n]| - 1, |m.bufs|);
  }

  /** Inside a packet the mapping of each further slot is undone, up to its watched descriptor. */
  lemma WalkStep(m: Machine, v: View) returns (v': View)
    requires Good(m, v) && InArrays(m) && m.cl.Walking?
    ensures v.n < |v.queue| && (Clean(m, Walk) != m <==> v.j < |v.queue[v.n]|)
    ensures Good(Clean(m, Walk), v') && v' == if Clean(m, Walk) != m then v.(j := v.j + 1) else v
    ensures Clean(m, Walk) != m ==> Clean(m, Walk).log == m.log + UnmapOf(v.queue[v.n][v.j].rec)
  {
    hide Laid, PendingOk, Square, CleanerOwes, UnmapsFrom, UnmapIf, UnmapOf, Front, FlattenTo, Books;
    var m' := Clean(m, Walk);
    v' := v;
    WalkingAt(m, v);
    if m' != m {
      FrontIs(v.queue[v.n], v.j);
      WalkReads(m, v);
      WrapInjective(m.ntc, Lo(v), |Flatten(v.queue)|, |m.bufs|);
      v' := ReclaimRing(m, m', v);
      SenderKept(m, v, m', v');
      ReclaimBooks(m, m', v, v', Front(v.queue[v.n], v.j));
    }
  }

  /** The packet's last slot is reclaimed: the cleaner stands before the next packet. */
  lemma NextRing(m: Machine, m': Machine, v: View) returns (v': View)
    requires RingGood(m, v) && v.n < |v.queue| && v.j == |v.queue[v.n]| && m' == m.(cl := m'.cl)
    ensures v' == v.(n := v.n + 1, j := 0) && RingGood(m', v') && Lo(v') == Lo(v)
  {
    hide Laid, PendingOk;
    PacketAt(v.queue, v.n);
    if v.n + 1 < |v.queue| { PacketAt(v.queue, v.n + 1); }
    v' := v.(n := v.n + 1, j := 0);
  }

  lemma NextOwes(v: View, v': View)
    requires v.n < |v.queue| && v.j == |v.queue[v.n]| && v' == v.(n := v.n + 1, j := 0)
    ensures CleanerOwes(v') == CleanerOwes(v)
  {
    NothingFrom(v.queue[v.n]);
  }

  /** After a packet's last slot the cleaner looks at the next packet. */
  lemma NextPacketStep(m: Machine, v: View) returns (v': View)
    requires Good(m, v) && InArrays(m) && m.cl.Walking?
    ensures v.n < |v.queue| && (Clean(m, NextPacket) != m <==> v.j == |v.queue[v.n]|)
    ensures Good(Clean(m, NextPacket), v') && v' == if Clean(m, NextPacket) != m then v.(n := v.n + 1, j := 0) else v
  {
    hide Laid, PendingOk, Square, UnmapsFrom, CleanerOwes, FlattenTo;
    var m' := Clean(m, NextPacket);
    v' := v;
    WalkingAt(m, v);
    if m' != m {
      v' := NextRing(m, m', v);
      WrapStep(m.ntc, Lo(v) - 1, |m.bufs|);
      NextOwes(v, v');
      SenderKept(m, v, m', v');
    }
  }

  lemma NothingFrom(s: seq<Slot>)
    ensures UnmapsFrom(s, |s|) == []
  {
  }

  lemma WrapTwice(base: nat, a: nat, b: nat, count: nat)
    requires base < count && a + b <= count && a < count
    ensures Wrap(Wrap(base, a, count), b, count) == if a + b == count && b > 0 then Wrap(Wrap(base, a, count), b, count) else Wrap(base, a + b, count)
  {
  }

  lemma DropLeft(a: seq<Slot>, b: seq<Slot>, c: seq<Slot>)
    ensures (a + b + c)[|a|..] == b + c
  {
  }

  lemma NoneFlat(q: seq<Packet>)
    ensures FlattenTo(q, 0) == []
  {
  }

  /** next_to_clean moves past what was reclaimed: the same ring, seen from there. */
  lemma StopRing(m: Machine, m': Machine, v: View) returns (v': View)
    requires RingGood(m, v) && v.j == 0 && m' == m.(ntc := Ix(m, Lo(v)), cl := Resting)
    ensures v' == View(v.queue[v.n..], 0, 0, v.pending) && |Flatten(v'.queue)| == |Flatten(v.queue)| - Lo(v)
    ensures RingGood(m', v')
  {
    hide FlattenTo, PendingOk;
    v' := View(v.queue[v.n..], 0, 0, v.pending);
    FlattenDrop(v.queue, v.n, |v.queue|);
    DropLeft(FlattenTo(v.queue, v.n), Flatten(v'.queue), v.pending);
    NoneFlat(v'.queue);
    LaidRebase(m.bufs, m.descs, m.ntc, Cells(v), Lo(v));
    hide Laid;
    if 0 < |v'.queue| { PacketAt(v'.queue, 0); }
  }

  /** The pass ends exactly when no packet can be taken; then next_to_clean leaves what was reclaimed behind. */
  lemma StopStep(m: Machine, v: View) returns (v': View)
    requires Good(m, v) && InArrays(m) && m.cl.Seeking?
    ensures v.n <= |v.queue| && (Clean(m, Stop) != m <==> !(m.cl.budget > 0 && v.n < |v.queue| && Done(v.queue[v.n])))
    ensures Good(Clean(m, Stop), v') && v' == if Clean(m, Stop) != m then View(v.queue[v.n..], 0, 0, v.pending) else v
  {
    hide Laid, PendingOk, Square, UnmapsFrom, Done, FlattenTo, QueueOwes;
    var m' := Clean(m, Stop);
    v' := v;
    if v.n == |v.queue| { NothingWatched(m, v); } else { PacketWatched(m, v); }
    if m' != m {
      v' := StopRing(m, m', v);
      QueueOwesDrop(v.queue, v.n, v.n);
      assert CleanerOwes(v') == CleanerOwes(v);
      StopSender(m, m', v, v');
    }
  }

  lemma StopSender(m: Machine, m': Machine, v: View, v': View)
    requires RingGood(m, v) && RingGood(m', v') && SenderGood(m, v) && v'.pending == v.pending
    requires m'.ntc == Ix(m, Lo(v)) && m'.tx == m.tx && m'.ntu == m.ntu && m'.bufs == m.bufs
    requires |Flatten(v'.queue)| == |Flatten(v.queue)| - Lo(v)
    ensures SenderGood(m', v')
  {
    hide Laid, PendingOk;
    WrapTwice(m.ntc, Lo(v), |Flatten(v'.queue)|, |m.bufs|);
    if |v.pending| > 0 { WrapTwice(m.ntc, Lo(v), |Cells(v')| - 1, |m.bufs|); }
  }

  // ---------------------------------------------------------------- the hardware's step

  /** A slot of the queue that starts a packet is the first of one. */
  lemma {:induction false} StartsPacket(q: seq<Packet>, o: nat, n: nat) returns (k: nat)
    requires n <= |q| && o < |FlattenTo(q, n)| && FlattenTo(q, n)[o].start.Some?
    ensures k < n && o == |FlattenTo(q, k)|
  {
    if o < |FlattenTo(q, n - 1)| {
      k := StartsPacket(q, o, n - 1);
    } else {
      k := n - 1;
    }
  }

  lemma {:induction false} FlattenMonotone(q: seq<Packet>, a: nat, b: nat)
    requires a <= b <= |q|
    ensures |FlattenTo(q, a)| <= |FlattenTo(q, b)| && (a < b ==> |FlattenTo(q, a)| < |FlattenTo(q, b)|)
  {
    if a < b { FlattenMonotone(q, a, b - 1); }
  }

  /** A record that watches a descriptor belongs to a published packet not yet taken, and watches its last slot. */
  lemma WatchedPacket(m: Machine, v: View, f: nat) returns (k: nat)
    requires RingGood(m, v) && f < |m.bufs| && m.bufs[f].nextToWatch.Some?
    ensures k < |v.queue| && (if v.j > 0 then v.n < k else v.n <= k)
    ensures |FlattenTo(v.queue, k + 1)| > 0 && |FlattenTo(v.queue, k + 1)| <= |Flatten(v.queue)|
    ensures m.bufs[f].nextToWatch.value == Ix(m, |FlattenTo(v.queue, k + 1)| - 1)
    ensures Lo(v) < |FlattenTo(v.queue, k + 1)|
  {
    var n := |m.bufs|;
    var o := if f >= m.ntc then f - m.ntc else f + n - m.ntc;
    assert Wrap(m.ntc, o, n) == f;
    assert SlotOk(m.bufs, m.descs, m.ntc, Cells(v), Lo(v), o);
    assert o < |Flatten(v.queue)| by {
      if |Flatten(v.queue)| <= o < |Cells(v)| { Here(v, o - |Flatten(v.queue)|); }
    }
    assert Cells(v)[o] == Flatten(v.queue)[o];
    k := StartsPacket(v.queue, o, |v.queue|);
    if k < v.n { FlattenMonotone(v.queue, k, v.n); }
    PacketCell(v, k, 0);
  }

  /** A write-back to packet k changes the flat ring in one place, behind what is reclaimed. */
  lemma ReportCells(v: View, k: nat, d: TxDesc) returns (v': View)
    requires v.n <= k < |v.queue| && d.dd
    requires 0 < |FlattenTo(v.queue, k + 1)| <= |Flatten(v.queue)|
    ensures v' == v.(queue := v.queue[k := WriteBack(v.queue[k], d)]) && |Flatten(v'.queue)| == |Flatten(v.queue)|
    ensures FlattenTo(v'.queue, v.n) == FlattenTo(v.queue, v.n)
    ensures var e := |FlattenTo(v.queue, k + 1)| - 1; Cells(v') == Cells(v)[e := Cells(v)[e].(desc := d)]
  {
    hide FlattenTo, WriteBack;
    var e := |FlattenTo(v.queue, k + 1)| - 1;
    v' := v.(queue := v.queue[k := WriteBack(v.queue[k], d)]);
    FlattenComplete(v.queue, k, d, |v.queue|);
    assert v.queue == v.queue[..k] + v.queue[k..] && v'.queue == v.queue[..k] + v'.queue[k..];
    FlattenPrefix(v.queue[..k], v.queue[k..], v.n);
    FlattenPrefix(v.queue[..k], v'.queue[k..], v.n);
    assert Cells(v)[e] == Flatten(v.queue)[e];
    UpdateLeft(Flatten(v.queue), v.pending, e, Flatten(v.queue)[e].(desc := d));
  }

  lemma UpdateLeft(a: seq<Slot>, b: seq<Slot>, e: nat, x: Slot)
    requires e < |a|
    ensures a[e := x] + b == (a + b)[e := x]
  {
  }

  lemma ReportRing(m: Machine, m': Machine, v: View, k: nat, d: TxDesc) returns (v': View)
    requires RingGood(m, v) && k < |v.queue| && (if v.j > 0 then v.n < k else v.n <= k) && d.dd
    requires 0 < |FlattenTo(v.queue, k + 1)| <= |Flatten(v.queue)| && Lo(v) < |FlattenTo(v.queue, k + 1)|
    requires m' == m.(descs := m.descs[Ix(m, |FlattenTo(v.queue, k + 1)| - 1) := d])
    ensures v' == v.(queue := v.queue[k := WriteBack(v.queue[k], d)]) && |Flatten(v'.queue)| == |Flatten(v.queue)|
    ensures FlattenTo(v'.queue, v.n) == FlattenTo(v.queue, v.n)
    ensures RingGood(m', v')
  {
    hide FlattenTo, PendingOk, WriteBack;
    var e := |FlattenTo(v.queue, k + 1)| - 1;
    v' := ReportCells(v, k, d);
    LaidAt(m.bufs, m.descs, m.ntc, Cells(v), Lo(v), e);
    LaidUpdate(m.bufs, m.descs, m.ntc, Cells(v), e, Cells(v)[e].(desc := d), m.bufs[Ix(m, e)], Lo(v));
    hide Laid;
    assert m.bufs[Ix(m, e) := m.bufs[Ix(m, e)]] == m.bufs;
    SameLength(v.queue[k], d);
    if v.n < |v'.queue| { PacketAt(v'.queue, v.n); }
  }

  lemma SameLength(p: Packet, d: TxDesc)
    requires d.dd
    ensures |WriteBack(p, d)| == |p|
  {
  }

  lemma ReportStep(m: Machine, v: View, f: nat, d: TxDesc) returns (v': View)
    requires Good(m, v) && InArrays(m)
    ensures Good(Report(m, f, d), v')
  {
    hide Laid, PendingOk, Square, UnmapsFrom;
    var m' := Report(m, f, d);
    v' := v;
    if m' != m {
      var k := WatchedPacket(m, v, f);
      v' := ReportRing(m, m', v, k, d);
      SenderKept(m, v, m', v');
      ReportOwes(v, v', k, d);
    }
  }

  lemma ReportOwes(v: View, v': View, k: nat, d: TxDesc)
    requires v.n <= |v.queue| && (v.j > 0 ==> v.n < |v.queue| && v.j <= |v.queue[v.n]|)
    requires k < |v.queue| && (v.j > 0 ==> v.n < k) && d.dd && v' == v.(queue := v.queue[k := WriteBack(v.queue[k], d)])
    ensures CleanerOwes(v') == CleanerOwes(v)
  {
    QueueOwesComplete(v.queue, k, d, v.n);
    if v.j > 0 { QueueOwesComplete(v.queue, k, d, v.n + 1); }
  }
}
