/**
 The interrupt vector allocation registers: four one-byte entries to a word, one for each queue and direction.
 */
module Ivar {
  import opened Bits
  import opened QVectors

  type Regs = seq<Word>

  // ---------------------------------------------------------------- one entry

  /** A vector number with the valid bit, as an entry. */
  function Alloc(v: nat): (e: U8)
  {
    Or(ToBits(v, 8), [false, false, false, false, false, false, false, true])
  }

  /** An entry says: valid, and this vector. */
  predicate Routes(e: U8, v: nat) { e[7] && Value(e[..7]) == v }

  lemma {:induction false} ToBitsPrefix(v: nat, n: nat, m: nat)
    requires m <= n
    ensures ToBits(v, n)[..m] == ToBits(v, m)
  {
    if m > 0 {
      ToBitsPrefix(v / 2, n - 1, m - 1);
      assert ToBits(v, n)[..m] == [v % 2 == 1] + ToBits(v / 2, n - 1)[..m - 1];
    }
  }

  /** Every vector number below 128 can be read back from its entry. */
  lemma AllocRoutes(v: nat)
    requires v < 128
    ensures Routes(Alloc(v), v)
  {
    ToBitsPrefix(v, 8, 7);
    assert Alloc(v)[..7] == ToBits(v, 8)[..7];
    assert Pow2(7) == 128;
    ValueToBits(v, 7);
  }

  /** Where the entry sits in its word; direction 0 is Rx, 1 is Tx. */
  function Index(queue: nat, dir: nat): nat
    requires dir < 2
  {
    16 * (queue % 2) + 8 * dir
  }

  /** Replace one byte of a word by mask and shift. */
  function Merge(word: Word, e: U8, index: nat): Word
  {
    Or(And(word, Not(Shl(Mask(32, 7, 0), index))), Shl(e + seq(24, _ => false), index))
  }

  lemma MergeBit(word: Word, e: U8, index: nat, i: nat)
    requires index <= 24 && i < 32
    ensures Merge(word, e, index)[i] == if index <= i < index + 8 then e[i - index] else word[i]
  {
    assert Shl(Mask(32, 7, 0), index)[i] == (index <= i < index + 8);
    assert Shl(e + seq(24, _ => false), index)[i] == (index <= i < index + 8 && e[i - index]);
  }

  /** ixgbevf_set_ivar for a ring. */
  function SetIvar(regs: Regs, dir: nat, queue: nat, v: nat): (r: Regs)
    requires dir < 2 && queue / 2 < |regs|
  {
    regs[queue / 2 := Merge(regs[queue / 2], Alloc(v), Index(queue, dir))]
  }

  /** What the hardware reads: word k holds Rx 2k in bits 0 to 7, Tx 2k in 8 to 15, Rx 2k+1 in 16 to 23 and
      Tx 2k+1 in 24 to 31. */
  function Entry(regs: Regs, dir: nat, queue: nat): U8
    requires dir < 2 && queue / 2 < |regs|
  {
    var word := regs[queue / 2];
    match (queue % 2, dir)
    case (0, 0) => word[0..8]
    case (0, _) => word[8..16]
    case (_, 0) => word[16..24]
    case (_, _) => word[24..32]
  }

  lemma EntryAt(regs: Regs, dir: nat, queue: nat)
    requires dir < 2 && queue / 2 < |regs|
    ensures Entry(regs, dir, queue) == regs[queue / 2][Index(queue, dir)..Index(queue, dir) + 8]
  {
  }

  /** Setting an entry puts the vector where the hardware reads it, and disturbs no other entry. */
  lemma SetIvarEntry(regs: Regs, dir: nat, queue: nat, v: nat, dir': nat, queue': nat)
    requires dir < 2 && queue / 2 < |regs| && dir' < 2 && queue' / 2 < |regs|
    ensures Entry(SetIvar(regs, dir, queue, v), dir', queue')
         == if dir' == dir && queue' == queue then Alloc(v) else Entry(regs, dir', queue')
  {
    var at, at', e := Index(queue, dir), Index(queue', dir'), Alloc(v);
    assert queue / 2 == queue' / 2 && at == at' ==> queue == queue' && dir == dir';
    assert at == at' || at + 8 <= at' || at' + 8 <= at;
    MergeEntry(regs[queue / 2], e, at, at');
    EntryAt(regs, dir', queue');
    EntryAt(SetIvar(regs, dir, queue, v), dir', queue');
  }

  lemma MergeEntry(word: Word, e: U8, at: nat, at': nat)
    requires at <= 24 && at' <= 24 && (at == at' || at + 8 <= at' || at' + 8 <= at)
    ensures Merge(word, e, at)[at'..at' + 8] == if at == at' then e else word[at'..at' + 8]
  {
    forall i | 0 <= i < 8
      ensures Merge(word, e, at)[at' + i] == if at == at' then e[i] else word[at' + i]
    {
      MergeBit(word, e, at, at' + i);
    }
  }

  // ---------------------------------------------------------------- all vectors

  /** The first n rings of a list. */
  function SetRings(regs: Regs, dir: nat, rings: seq<Ring>, v: nat, n: nat): (r: Regs)
    requires dir < 2 && n <= |rings| && forall i :: 0 <= i < |rings| ==> rings[i].reg / 2 < |regs|
    ensures |r| == |regs|
  {
    if n == 0 then regs else SetIvar(SetRings(regs, dir, rings, v, n - 1), dir, rings[n - 1].reg, v)
  }

  predicate RegsFit(rings: seq<Ring>, size: nat) { forall i :: 0 <= i < |rings| ==> rings[i].reg / 2 < size }

  predicate AllFit(vs: seq<QVector>, size: nat)
  {
    forall v :: 0 <= v < |vs| ==> RegsFit(vs[v].tx, size) && RegsFit(vs[v].rx, size)
  }

  /** The first n vectors: each vector's Rx rings, then its Tx and XDP rings. */
  function SetVectors(regs: Regs, vs: seq<QVector>, n: nat): (r: Regs)
    requires n <= |vs| && AllFit(vs, |regs|)
    ensures |r| == |regs|
  {
    if n == 0 then regs
    else
      var rx := SetRings(SetVectors(regs, vs, n - 1), 0, vs[n - 1].rx, n - 1, |vs[n - 1].rx|);
      SetRings(rx, 1, vs[n - 1].tx, n - 1, |vs[n - 1].tx|)
  }

  /** Rings with consecutive registers fill a block of entries. */
  lemma {:induction false} SetRingsEntry(regs: Regs, dir: nat, rings: seq<Ring>, v: nat, n: nat, base: nat, dir': nat, queue: nat)
    requires dir < 2 && n <= |rings| && RegsFit(rings, |regs|) && dir' < 2 && queue / 2 < |regs|
    requires forall i :: 0 <= i < |rings| ==> rings[i].reg == base + i
    ensures Entry(SetRings(regs, dir, rings, v, n), dir', queue)
         == if dir' == dir && base <= queue < base + n then Alloc(v) else Entry(regs, dir', queue)
  {
    if n > 0 {
      SetRingsEntry(regs, dir, rings, v, n - 1, base, dir', queue);
      SetIvarEntry(SetRings(regs, dir, rings, v, n - 1), dir, rings[n - 1].reg, v, dir', queue);
    }
  }

  lemma {:induction false} TxAllOf(vs: seq<QVector>, n: nat)
    requires n < |vs|
    ensures TxAll(vs[..n + 1]) == TxAll(vs[..n]) + vs[n].tx && RxAll(vs[..n + 1]) == RxAll(vs[..n]) + vs[n].rx
    ensures |TxAll(vs[..n + 1])| <= |TxAll(vs)| && forall k :: 0 <= k < |TxAll(vs[..n + 1])| ==> TxAll(vs)[k] == TxAll(vs[..n + 1])[k]
    ensures |RxAll(vs[..n + 1])| <= |RxAll(vs)| && forall k :: 0 <= k < |RxAll(vs[..n + 1])| ==> RxAll(vs)[k] == RxAll(vs[..n + 1])[k]
    decreases |vs|
  {
    assert vs[..n + 1][..n] == vs[..n];
    if n == |vs| - 1 {
      assert vs[..n + 1] == vs;
    } else {
      TxAllOf(vs[..|vs| - 1], n);
      assert vs[..|vs| - 1][..n + 1] == vs[..n + 1];
    }
  }

  /** The rings of vector n use consecutive registers, after those of the vectors before it. */
  lemma VectorBlock(s: State, n: nat)
    requires Consistent(s) && n < |s.vectors|
    ensures forall i :: 0 <= i < |s.vectors[n].tx| ==> s.vectors[n].tx[i].reg == |TxAll(s.vectors[..n])| + i
    ensures forall i :: 0 <= i < |s.vectors[n].rx| ==> s.vectors[n].rx[i].reg == |RxAll(s.vectors[..n])| + i
  {
    TxAllOf(s.vectors, n);
    forall i | 0 <= i < |s.vectors[n].tx|
      ensures s.vectors[n].tx[i].reg == |TxAll(s.vectors[..n])| + i
    {
      assert TxPlaced(s, TxAll(s.vectors), |TxAll(s.vectors[..n])| + i);
    }
    forall i | 0 <= i < |s.vectors[n].rx|
      ensures s.vectors[n].rx[i].reg == |RxAll(s.vectors[..n])| + i
    {
      assert Found(s.rx, Rx, s.rx, |RxAll(s.vectors[..n])| + i);
    }
  }

  /** The entry of a register after the first n vectors. */
  function Expected(regs: Regs, rings: seq<Ring>, dir: nat, queue: nat): U8
    requires dir < 2 && queue / 2 < |regs|
  {
    if queue < |rings| then Alloc(rings[queue].vector) else Entry(regs, dir, queue)
  }

  lemma {:induction false} SetVectorsEntry(regs: Regs, s: State, n: nat, queue: nat)
    requires Consistent(s) && n <= |s.vectors| && AllFit(s.vectors, |regs|) && queue / 2 < |regs|
    ensures Entry(SetVectors(regs, s.vectors, n), 1, queue) == Expected(regs, TxAll(s.vectors[..n]), 1, queue)
    ensures Entry(SetVectors(regs, s.vectors, n), 0, queue) == Expected(regs, RxAll(s.vectors[..n]), 0, queue)
  {
    hide Consistent, Entry;
    if n > 0 {
      SetVectorsEntry(regs, s, n - 1, queue);
      var v := n - 1;
      TxAllOf(s.vectors, v);
      var before := SetVectors(regs, s.vectors, v);
      var mid := SetRings(before, 0, s.vectors[v].rx, v, |s.vectors[v].rx|);
      BlockEntry(s, v, before, mid, 0, queue);
      BlockEntry(s, v, before, mid, 1, queue);
      VectorOwns(s, v);
    }
  }

  lemma VectorOwns(s: State, v: nat)
    requires Consistent(s) && v < |s.vectors|
    ensures forall i :: 0 <= i < |s.vectors[v].tx| ==> s.vectors[v].tx[i].vector == v
    ensures forall i :: 0 <= i < |s.vectors[v].rx| ==> s.vectors[v].rx[i].vector == v
  {
    forall i | 0 <= i < |s.vectors[v].tx| ensures s.vectors[v].tx[i].vector == v { assert Owned(s, v, i, true); }
    forall i | 0 <= i < |s.vectors[v].rx| ensures s.vectors[v].rx[i].vector == v { assert Owned(s, v, i, false); }
  }

  lemma BlockEntry(s: State, v: nat, before: Regs, mid: Regs, dir: nat, queue: nat)
    requires Consistent(s) && v < |s.vectors| && AllFit(s.vectors, |before|) && dir < 2 && queue / 2 < |before|
    requires mid == SetRings(before, 0, s.vectors[v].rx, v, |s.vectors[v].rx|)
    ensures var tx, rx := |TxAll(s.vectors[..v])|, |RxAll(s.vectors[..v])|;
            Entry(SetRings(mid, 1, s.vectors[v].tx, v, |s.vectors[v].tx|), dir, queue)
            == if (dir == 1 && tx <= queue < tx + |s.vectors[v].tx|) || (dir == 0 && rx <= queue < rx + |s.vectors[v].rx|)
               then Alloc(v) else Entry(before, dir, queue)
  {
    VectorBlock(s, v);
    SetRingsEntry(before, 0, s.vectors[v].rx, v, |s.vectors[v].rx|, |RxAll(s.vectors[..v])|, dir, queue);
    SetRingsEntry(mid, 1, s.vectors[v].tx, v, |s.vectors[v].tx|, |TxAll(s.vectors[..v])|, dir, queue);
  }

  lemma LayoutFits(q: nat, tx: nat, xdp: nat, rx: nat, size: nat)
    requires q >= 1 && tx + xdp <= 2 * size && rx <= 2 * size
    ensures AllFit(Layout(q, tx, xdp, rx).vectors, size)
  {
    LayoutPlacesAll(q, tx, xdp, rx);
    var s := Layout(q, tx, xdp, rx);
    forall v | 0 <= v < |s.vectors|
      ensures RegsFit(s.vectors[v].tx, size) && RegsFit(s.vectors[v].rx, size)
    {
      VectorBlock(s, v);
      TxAllOf(s.vectors, v);
    }
  }

  /** A vector's ring is found at its register among all rings. */
  lemma TxRegister(s: State, v: nat, i: nat)
    requires Consistent(s) && v < |s.vectors| && i < |s.vectors[v].tx|
    ensures var r := s.vectors[v].tx[i]; r.vector == v && r.reg < |TxAll(s.vectors)| && TxAll(s.vectors)[r.reg] == r
  {
    TxListed(s, v, i);
    var k := InTxAll(s.vectors, v, i);
    assert TxPlaced(s, TxAll(s.vectors), k);
  }

  lemma RxRegister(s: State, v: nat, i: nat)
    requires Consistent(s) && v < |s.vectors| && i < |s.vectors[v].rx|
    ensures var r := s.vectors[v].rx[i]; r.vector == v && r.reg < |RxAll(s.vectors)| && RxAll(s.vectors)[r.reg] == r
  {
    RxListed(s, v, i);
    assert Found(s.rx, Rx, s.rx, s.vectors[v].rx[i].queue);
  }

  lemma TxRouted(s: State, regs: Regs, v: nat, i: nat)
    requires Consistent(s) && AllFit(s.vectors, |regs|) && v < |s.vectors| <= 128 && i < |s.vectors[v].tx|
    ensures s.vectors[v].tx[i].reg / 2 < |regs|
    ensures Routes(Entry(SetVectors(regs, s.vectors, |s.vectors|), 1, s.vectors[v].tx[i].reg), v)
  {
    hide Consistent, Entry, Routes, Alloc, SetVectors;
    assert s.vectors[..|s.vectors|] == s.vectors;
    assert RegsFit(s.vectors[v].tx, |regs|);
    AllocRoutes(v);
    TxRegister(s, v, i);
    SetVectorsEntry(regs, s, |s.vectors|, s.vectors[v].tx[i].reg);
  }

  lemma RxRouted(s: State, regs: Regs, v: nat, i: nat)
    requires Consistent(s) && AllFit(s.vectors, |regs|) && v < |s.vectors| <= 128 && i < |s.vectors[v].rx|
    ensures s.vectors[v].rx[i].reg / 2 < |regs|
    ensures Routes(Entry(SetVectors(regs, s.vectors, |s.vectors|), 0, s.vectors[v].rx[i].reg), v)
  {
    hide Consistent, Entry, Routes, Alloc, SetVectors;
    assert s.vectors[..|s.vectors|] == s.vectors;
    assert RegsFit(s.vectors[v].rx, |regs|);
    AllocRoutes(v);
    RxRegister(s, v, i);
    SetVectorsEntry(regs, s, |s.vectors|, s.vectors[v].rx[i].reg);
  }

  /** End to end: once the vectors are allocated and the registers written, the entry of every ring routes to the
      vector that owns the ring. */
  lemma InterruptsReachTheirVectors(q: nat, tx: nat, xdp: nat, rx: nat, regs: Regs, v: nat, i: nat)
    requires 1 <= q <= 128 && tx + xdp <= 2 * |regs| && rx <= 2 * |regs| && v < q
    ensures var s := Layout(q, tx, xdp, rx);
            && |s.vectors| == q && AllFit(s.vectors, |regs|)
            && var r := SetVectors(regs, s.vectors, q);
            && (i < |s.vectors[v].tx| ==> s.vectors[v].tx[i].reg / 2 < |r| && Routes(Entry(r, 1, s.vectors[v].tx[i].reg), v))
            && (i < |s.vectors[v].rx| ==> s.vectors[v].rx[i].reg / 2 < |r| && Routes(Entry(r, 0, s.vectors[v].rx[i].reg), v))
  {
    LayoutPlacesAll(q, tx, xdp, rx);
    LayoutFits(q, tx, xdp, rx, |regs|);
    var s := Layout(q, tx, xdp, rx);
    assert s.vectors[..q] == s.vectors;
    if i < |s.vectors[v].tx| { TxRouted(s, regs, v, i); }
    if i < |s.vectors[v].rx| { RxRouted(s, regs, v, i); }
  }

  /** Entries of registers no ring uses are as before. */
  lemma UnusedEntriesKept(q: nat, tx: nat, xdp: nat, rx: nat, regs: Regs, queue: nat)
    requires q >= 1 && tx + xdp <= 2 * |regs| && rx <= 2 * |regs| && queue / 2 < |regs|
    ensures var s := Layout(q, tx, xdp, rx);
            && AllFit(s.vectors, |regs|)
            && var r := SetVectors(regs, s.vectors, |s.vectors|);
            && (queue >= tx + xdp ==> Entry(r, 1, queue) == Entry(regs, 1, queue))
            && (queue >= rx ==> Entry(r, 0, queue) == Entry(regs, 0, queue))
  {
    LayoutPlacesAll(q, tx, xdp, rx);
    LayoutFits(q, tx, xdp, rx, |regs|);
    var s := Layout(q, tx, xdp, rx);
    assert s.vectors[..q] == s.vectors;
    SetVectorsEntry(regs, s, q, queue);
  }

  // ---------------------------------------------------------------- the registers

  class Hardware {
    const vtivar: array<Word>
    var misc: Word

    constructor (size: nat)
      ensures vtivar.Length == size && fresh(vtivar)
    {
      vtivar := new Word[size](_ => seq(32, _ => false));
      misc := seq(32, _ => false);
    }

    /** ixgbevf_set_ivar for direction 0 or 1. */
    method SetRingIvar(dir: nat, queue: nat, v: nat)
      requires dir < 2 && queue / 2 < vtivar.Length
      modifies vtivar
      ensures vtivar[..] == SetIvar(old(vtivar[..]), dir, queue, v)
    {
      var ivar := vtivar[queue / 2];
      vtivar[queue / 2] := Merge(ivar, Alloc(v), Index(queue, dir));
      assert vtivar[..] == old(vtivar[..])[queue / 2 := vtivar[queue / 2]];
    }

    /** ixgbevf_set_ivar for the other causes. */
    method SetOtherIvar(v: nat)
      modifies this`misc
      ensures misc[..8] == Alloc(v) && misc[8..] == old(misc)[8..]
    {
      var was := misc;
      misc := Merge(was, Alloc(v), 0);
      forall i | 0 <= i < 32 ensures misc[i] == if i < 8 then Alloc(v)[i] else was[i] {
        MergeBit(was, Alloc(v), 0, i);
      }
    }

    method SetRingIvars(dir: nat, rings: seq<Ring>, v: nat)
      requires dir < 2 && RegsFit(rings, vtivar.Length)
      modifies vtivar
      ensures vtivar[..] == SetRings(old(vtivar[..]), dir, rings, v, |rings|)
    {
      for n := 0 to |rings|
        invariant vtivar[..] == SetRings(old(vtivar[..]), dir, rings, v, n)
      {
        SetRingIvar(dir, rings[n].reg, v);
      }
    }

    /** The register writes of ixgbevf_configure_msix. */
    method ConfigureMsix(vectors: seq<QVector>)
      requires AllFit(vectors, vtivar.Length)
      modifies this`misc, vtivar
      ensures vtivar[..] == SetVectors(old(vtivar[..]), vectors, |vectors|)
      ensures misc[..8] == Alloc(|vectors|) && misc[8..] == old(misc)[8..]
    {
      for v := 0 to |vectors|
        invariant vtivar[..] == SetVectors(old(vtivar[..]), vectors, v)
        invariant misc == old(misc)
      {
        assert RegsFit(vectors[v].rx, vtivar.Length) && RegsFit(vectors[v].tx, vtivar.Length);
        SetRingIvars(0, vectors[v].rx, v);
        SetRingIvars(1, vectors[v].tx, v);
      }
      SetOtherIvar(|vectors|);
    }
  }
}
