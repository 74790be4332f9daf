/**
 What the transmit path promises, over every run: the log never frees or unmaps what is not live, and a
 drained ring has given everything back.  And what one frame looks like to the hardware.
 */
module TxConservation {
  import opened Util
  import opened TxSpec

  // ---------------------------------------------------------------- counting in the log

  /** What can be acquired and must be given back: a buffer or a mapping. */
  datatype Key = Buffer(skb: nat) | Dma(m: Mapping)

  function Gain(k: Key): Act { match k case Buffer(s) => Took(s) case Dma(m) => Mapped(m) }
  function Loss(k: Key): Act { match k case Buffer(s) => Freed(s) case Dma(m) => Unmapped(m) }

  predicate IsGain(a: Act) { a.Took? || a.Mapped? }

  function CountTo(log: seq<Act>, n: nat, a: Act): nat
    requires n <= |log|
  {
    if n == 0 then 0 else CountTo(log, n - 1, a) + if log[n - 1] == a then 1 else 0
  }

  function Count(log: seq<Act>, a: Act): nat { CountTo(log, |log|, a) }

  /** How many of `k` are live after the log. */
  function Live(log: seq<Act>, k: Key): int { Count(log, Gain(k)) - Count(log, Loss(k)) }

  lemma {:induction false} CountPrefix(a: seq<Act>, b: seq<Act>, n: nat, x: Act)
    requires n <= |a|
    ensures CountTo(a + b, n, x) == CountTo(a, n, x)
  {
    if n > 0 {
      CountPrefix(a, b, n - 1, x);
    }
  }

  lemma {:induction false} CountAppend(a: seq<Act>, b: seq<Act>, n: nat, x: Act)
    requires n <= |b|
    ensures CountTo(a + b, |a| + n, x) == Count(a, x) + CountTo(b, n, x)
  {
    if n == 0 {
      CountPrefix(a, b, |a|, x);
    } else {
      CountAppend(a, b, n - 1, x);
    }
  }

  lemma LiveAppend(a: seq<Act>, b: seq<Act>, k: Key)
    ensures Live(a + b, k) == Live(a, k) + Live(b, k)
  {
    CountAppend(a, b, |b|, Gain(k));
    CountAppend(a, b, |b|, Loss(k));
  }

  /** At no point has more been given back than acquired. */
  ghost predicate Safe(log: seq<Act>)
  {
    forall n, k :: 0 <= n <= |log| ==> CountTo(log, n, Loss(k)) <= CountTo(log, n, Gain(k))
  }

  lemma {:induction false} NoLosses(g: seq<Act>, n: nat, k: Key)
    requires n <= |g| && forall i :: 0 <= i < |g| ==> IsGain(g[i])
    ensures CountTo(g, n, Loss(k)) == 0
  {
    if n > 0 {
      NoLosses(g, n - 1, k);
    }
  }

  /** Without gains the live count only falls from the n-th act on. */
  lemma {:induction false} OnlyFalls(l: seq<Act>, n: nat, k: Key)
    requires n <= |l| && forall i :: 0 <= i < |l| ==> !IsGain(l[i])
    ensures CountTo(l, n, Gain(k)) == 0 && CountTo(l, n, Loss(k)) <= Count(l, Loss(k))
    decreases |l| - n
  {
    NoGains(l, n, k);
    if n < |l| {
      OnlyFalls(l, n + 1, k);
    }
  }

  lemma {:induction false} NoGains(l: seq<Act>, n: nat, k: Key)
    requires n <= |l| && forall i :: 0 <= i < |l| ==> !IsGain(l[i])
    ensures CountTo(l, n, Gain(k)) == 0
  {
    if n > 0 {
      NoGains(l, n - 1, k);
    }
  }

  /** Acquiring keeps a log safe. */
  lemma SafeGains(log: seq<Act>, g: seq<Act>)
    requires Safe(log) && forall i :: 0 <= i < |g| ==> IsGain(g[i])
    ensures Safe(log + g)
  {
    forall n, k | 0 <= n <= |log + g|
      ensures CountTo(log + g, n, Loss(k)) <= CountTo(log + g, n, Gain(k))
    {
      if n <= |log| {
        CountPrefix(log, g, n, Loss(k));
        CountPrefix(log, g, n, Gain(k));
      } else {
        CountAppend(log, g, n - |log|, Loss(k));
        CountAppend(log, g, n - |log|, Gain(k));
        NoLosses(g, n - |log|, k);
      }
    }
  }

  /** Giving back keeps a log safe as long as the books do not go negative at the end. */
  lemma SafeLosses(log: seq<Act>, l: seq<Act>)
    requires Safe(log) && (forall i :: 0 <= i < |l| ==> !IsGain(l[i]))
    requires forall k :: Live(log, k) + Live(l, k) >= 0
    ensures Safe(log + l)
  {
    forall n, k | 0 <= n <= |log + l|
      ensures CountTo(log + l, n, Loss(k)) <= CountTo(log + l, n, Gain(k))
    {
      if n <= |log| {
        CountPrefix(log, l, n, Loss(k));
        CountPrefix(log, l, n, Gain(k));
      } else {
        CountAppend(log, l, n - |log|, Loss(k));
        CountAppend(log, l, n - |log|, Gain(k));
        OnlyFalls(l, n - |log|, k);
        NoGains(l, |l|, k);
        assert Live(log, k) + Live(l, k) >= 0;
      }
    }
  }

  // ---------------------------------------------------------------- the invariant

  /** Everything still queued, once retired, balances the books; and so far nothing was given back twice. */
  ghost predicate Balanced(s: TxState)
  {
    Safe(s.log) && forall k :: Live(s.log, k) + Live(RetireLog(s.queue, |s.queue|), k) == 0
  }

  ghost predicate Inv(s: TxState, count: nat, xdp: bool)
  {
    Balanced(s) && |Flatten(s.queue)| < count && (xdp && !s.primed ==> s.queue == [])
  }

  lemma {:induction false} UnmapsAreLosses(s: seq<Slot>, n: nat)
    requires n <= |s|
    ensures forall i :: 0 <= i < |UnmapsTo(s, n)| ==> !IsGain(UnmapsTo(s, n)[i])
    ensures forall i :: 0 <= i < |UnwindTo(s, n)| ==> !IsGain(UnwindTo(s, n)[i])
  {
    if n > 0 {
      UnmapsAreLosses(s, n - 1);
    }
  }

  lemma {:induction false} RetiresAreLosses(q: seq<Packet>, n: nat)
    requires n <= |q|
    ensures forall i :: 0 <= i < |RetireLog(q, n)| ==> !IsGain(RetireLog(q, n)[i])
  {
    if n > 0 {
      RetiresAreLosses(q, n - 1);
      UnmapsAreLosses(q[n - 1], |q[n - 1]|);
    }
  }

  lemma LossesOnly(l: seq<Act>, k: Key)
    requires forall i :: 0 <= i < |l| ==> !IsGain(l[i])
    ensures Live(l, k) <= 0
  {
    NoGains(l, |l|, k);
  }

  lemma {:induction false} RetireLogPrefix(q: seq<Packet>, r: seq<Packet>, n: nat)
    requires n <= |q|
    ensures RetireLog(q + r, n) == RetireLog(q, n)
  {
    if n > 0 {
      RetireLogPrefix(q, r, n - 1);
    }
  }

  lemma {:induction false} RetireLogDrop(q: seq<Packet>, n: nat, m: nat)
    requires n <= m <= |q|
    ensures RetireLog(q, m) == RetireLog(q, n) + RetireLog(q[n..], m - n)
  {
    if m > n {
      RetireLogDrop(q, n, m - 1);
      assert q[n..][m - n - 1] == q[m - 1];
    }
  }

  lemma RetireSplits(s: TxState, n: nat, k: Key)
    requires Balanced(s) && n <= |s.queue|
    ensures Live(s.log, k) + Live(RetireLog(s.queue, n), k) >= 0
    ensures Live(s.log + RetireLog(s.queue, n), k) + Live(RetireLog(s.queue[n..], |s.queue| - n), k) == 0
  {
    hide RetireLog, Live;
    RetireLogDrop(s.queue, n, |s.queue|);
    RetiresAreLosses(s.queue[n..], |s.queue| - n);
    SplitLive(s.log, RetireLog(s.queue, n), RetireLog(s.queue[n..], |s.queue| - n), k);
    assert Live(s.log, k) + Live(RetireLog(s.queue, |s.queue|), k) == 0;
  }

  lemma SplitLive(log: seq<Act>, l: seq<Act>, rest: seq<Act>, k: Key)
    requires Live(log, k) + Live(l + rest, k) == 0
    requires forall i :: 0 <= i < |rest| ==> !IsGain(rest[i])
    ensures Live(log, k) + Live(l, k) >= 0
    ensures Live(log + l, k) + Live(rest, k) == 0
  {
    LiveAppend(log, l, k);
    LiveAppend(l, rest, k);
    LossesOnly(rest, k);
  }

  /** Retiring packets, by the cleaner or at teardown, keeps the books. */
  lemma RetireKeepsBalance(s: TxState, n: nat)
    requires Balanced(s) && n <= |s.queue|
    ensures Balanced(s.(queue := s.queue[n..], log := s.log + RetireLog(s.queue, n)))
  {
    hide RetireLog, Live;
    RetiresAreLosses(s.queue, n);
    forall k
      ensures Live(s.log, k) + Live(RetireLog(s.queue, n), k) >= 0
      ensures Live(s.log + RetireLog(s.queue, n), k) + Live(RetireLog(s.queue[n..], |s.queue| - n), k) == 0
    {
      RetireSplits(s, n, k);
    }
    SafeLosses(s.log, RetireLog(s.queue, n));
  }

  /** Acquisitions and matching losses cancel. */
  lemma RoundTripKeepsBalance(s: TxState, g: seq<Act>, l: seq<Act>)
    requires Balanced(s) && (forall i :: 0 <= i < |g| ==> IsGain(g[i])) && (forall i :: 0 <= i < |l| ==> !IsGain(l[i]))
    requires forall k :: Live(g, k) + Live(l, k) == 0
    ensures Balanced(s.(log := s.log + g + l))
  {
    SafeGains(s.log, g);
    RetiresAreLosses(s.queue, |s.queue|);
    forall k
      ensures Live(s.log + g, k) + Live(l, k) >= 0
      ensures Live(s.log + g + l, k) + Live(RetireLog(s.queue, |s.queue|), k) == 0
    {
      LiveAppend(s.log, g, k);
      LiveAppend(s.log + g, l, k);
      LossesOnly(RetireLog(s.queue, |s.queue|), k);
      assert Live(g, k) + Live(l, k) == 0;
      assert Live(s.log, k) + Live(RetireLog(s.queue, |s.queue|), k) == 0;
    }
    SafeLosses(s.log + g, l);
  }

  /** Queueing a packet whose retirement undoes exactly what it acquired. */
  lemma PushKeepsBalance(s: TxState, g: seq<Act>, p: Packet)
    requires Balanced(s) && (forall i :: 0 <= i < |g| ==> IsGain(g[i]))
    requires forall k :: Live(g, k) + Live(PacketLog(p, |p|), k) == 0
    ensures Balanced(s.(queue := s.queue + [p], log := s.log + g))
  {
    SafeGains(s.log, g);
    RetireLogPrefix(s.queue, [p], |s.queue|);
    var q := RetireLog(s.queue, |s.queue|);
    assert RetireLog(s.queue + [p], |s.queue| + 1) == q + PacketLog(p, |p|);
    forall k
      ensures Live(s.log + g, k) + Live(q + PacketLog(p, |p|), k) == 0
    {
      LiveAppend(s.log, g, k);
      LiveAppend(q, PacketLog(p, |p|), k);
      assert Live(g, k) + Live(PacketLog(p, |p|), k) == 0;
      assert Live(s.log, k) + Live(q, k) == 0;
    }
  }

  // ---------------------------------------------------------------- what a frame acquires and gives back

  /** Undoing the mappings of the first n buffers in the order they were made. */
  function UnmapLog(skb: Skb, dma: seq<Option<nat>>, n: nat): seq<Act>
    requires n <= |skb.frags| + 1 && n <= |dma|
    requires forall k :: 0 <= k < n ==> dma[k].Some?
  {
    if n == 0 then [] else UnmapLog(skb, dma, n - 1) + [Unmapped(BufferMapping(skb, dma, n - 1))]
  }

  lemma {:induction false} UnmapsSplit(a: seq<Slot>, b: seq<Slot>, all: seq<Slot>, n: nat, m: nat)
    requires n <= |b| && all == a + b && m == |a| + n
    ensures UnmapsTo(all, m) == UnmapsTo(a, |a|) + UnmapsTo(b, n)
  {
    hide UnmapOf;
    if n == 0 {
      UnmapsPrefix(a, all, m);
    } else {
      UnmapsSplit(a, b, all, n - 1, m - 1);
      assert all[m - 1] == b[n - 1];
    }
  }

  lemma {:induction false} UnmapsPrefix(a: seq<Slot>, all: seq<Slot>, n: nat)
    requires n <= |a| <= |all| && forall j :: 0 <= j < n ==> all[j] == a[j]
    ensures UnmapsTo(all, n) == UnmapsTo(a, n)
  {
    if n > 0 {
      UnmapsPrefix(a, all, n - 1);
    }
  }

  lemma {:induction false} BufferUnmaps(rec: Option<Mapping>, descs: seq<TxDesc>, n: nat)
    requires n <= |descs|
    ensures UnmapsTo(BufferSlots(rec, descs), n) == if n == 0 then [] else UnmapOf(rec)
  {
    if n > 0 {
      BufferUnmaps(rec, descs, n - 1);
      BufferSlotAt(rec, descs, n - 1);
    }
  }

  /** The slots of buffer k undo what its first slot records. */
  lemma FrameUnmaps(skb: Skb, dma: seq<Option<nat>>, paylen: nat, k: nat)
    requires skb.NonEmpty() && k <= |skb.frags| && k < |dma| && dma[k].Some?
    ensures var f := FrameSlots(skb, dma, paylen, k); UnmapsTo(f, |f|) == UnmapOf(RecOf(skb, dma, k))
  {
    var descs := Chunks(dma[k].value, skb.Size(k), if k == 0 then paylen else 0, k == |skb.frags|);
    ChunksShape(dma[k].value, skb.Size(k), if k == 0 then paylen else 0, k == |skb.frags|);
    BufferUnmaps(RecOf(skb, dma, k), descs, |descs|);
  }

  lemma UnmapsOfOne(c: Slot)
    ensures UnmapsTo([c], 1) == UnmapOf(c.rec)
  {
    assert UnmapsTo([c], 1) == UnmapsTo([c], 0) + UnmapOf(c.rec);
  }

  /** The slots of n buffers record exactly their n mappings, head first. */
  lemma {:induction false} PartialUnmaps(skb: Skb, dma: seq<Option<nat>>, paylen: nat, n: nat)
    requires skb.NonEmpty() && 0 < n <= |skb.frags| + 1 && n <= |dma|
    requires forall k :: 0 <= k < n ==> dma[k].Some?
    ensures var p := PartialSlots(skb, dma, paylen, n); UnmapsTo(p, |p|) == UnmapLog(skb, dma, n)
  {
    hide FrameSlots, PartialSlots;
    if n == 1 {
      UnmapsOfOne(Slot(None, Some(BufferMapping(skb, dma, 0)), CONTEXT));
      assert UnmapLog(skb, dma, 1) == UnmapLog(skb, dma, 0) + [Unmapped(BufferMapping(skb, dma, 0))];
    } else {
      PartialUnmaps(skb, dma, paylen, n - 1);
    }
    PartialGrows(skb, dma, paylen, n - 1);
    FrameUnmaps(skb, dma, paylen, n - 1);
    UnmapsSplit(Before(skb, dma, paylen, n - 1), FrameSlots(skb, dma, paylen, n - 1), PartialSlots(skb, dma, paylen, n),
                |FrameSlots(skb, dma, paylen, n - 1)|, |PartialSlots(skb, dma, paylen, n)|);
  }

  lemma {:induction false} MapsCancel(skb: Skb, dma: seq<Option<nat>>, n: nat, k: Key)
    requires n <= |skb.frags| + 1 && n <= |dma|
    requires forall i :: 0 <= i < n ==> dma[i].Some?
    ensures Live(MapLog(skb, dma, n), k) + Live(UnmapLog(skb, dma, n), k) == 0
    ensures forall i :: 0 <= i < |MapLog(skb, dma, n)| ==> IsGain(MapLog(skb, dma, n)[i])
  {
    if n > 0 {
      MapsCancel(skb, dma, n - 1, k);
      var m := BufferMapping(skb, dma, n - 1);
      LiveAppend(MapLog(skb, dma, n - 1), [Mapped(m)], k);
      LiveAppend(UnmapLog(skb, dma, n - 1), [Unmapped(m)], k);
      LiveOne(Mapped(m), k);
      LiveOne(Unmapped(m), k);
    }
  }

  lemma LiveOne(a: Act, k: Key)
    ensures Live([a], k) == if a == Gain(k) then 1 else if a == Loss(k) then -1 else 0
  {
    assert CountTo([a], 1, Gain(k)) == CountTo([a], 0, Gain(k)) + if a == Gain(k) then 1 else 0;
    assert CountTo([a], 1, Loss(k)) == CountTo([a], 0, Loss(k)) + if a == Loss(k) then 1 else 0;
  }

  /** Undoing in reverse order undoes the same mappings. */
  lemma {:induction false} UnwindSame(s: seq<Slot>, n: nat, k: Key)
    requires n <= |s|
    ensures Live(UnwindTo(s, n), k) == Live(UnmapsTo(s, n), k)
  {
    if n > 0 {
      UnwindSame(s, n - 1, k);
      LiveAppend(UnmapOf(s[n - 1].rec), UnwindTo(s, n - 1), k);
      LiveAppend(UnmapsTo(s, n - 1), UnmapOf(s[n - 1].rec), k);
    }
  }
}
