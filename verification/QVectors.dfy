/**
 Dividing the Rx, Tx and XDP rings among interrupt vectors.
 */
module QVectors {
  import opened Util

  datatype Kind = Rx | Tx | Xdp

  /** A ring: its queue among its kind, its hardware register index, and the vector that owns it. */
  datatype Ring = Ring(kind: Kind, queue: nat, reg: nat, vector: nat)

  /** A vector's rings; Tx and XDP rings share one list. */
  datatype QVector = QVector(tx: seq<Ring>, rx: seq<Ring>)

  /** The vectors allocated so far and the adapter's ring tables, by queue. */
  datatype State = State(vectors: seq<QVector>, tx: seq<Ring>, xdp: seq<Ring>, rx: seq<Ring>)

  const EMPTY: State := State([], [], [], [])

  // ---------------------------------------------------------------- the allocation as a function

  /** DIV_ROUND_UP. */
  function CeilDiv(n: nat, d: nat): (r: nat)
    requires d > 0
    ensures r <= n && (d == 1 ==> r == n) && (0 < n <= d ==> r == 1)
  {
    CeilDivBounds(n, d);
    (n + d - 1) / d
  }

  lemma CeilDivBounds(n: nat, d: nat)
    requires d > 0
    ensures 0 <= (n + d - 1) / d <= n
    ensures 0 < n <= d ==> (n + d - 1) / d == 1
  {
    Divided(n + d - 1, d);
    CeilFrom(n, d, (n + d - 1) / d);
  }

  lemma CeilFrom(n: nat, d: nat, r: int)
    requires d > 0 && r * d <= n + d - 1 < r * d + d
    ensures 0 <= r <= n && (0 < n <= d ==> r == 1)
  {
    if r < 0 { Ordered(d, r + 1, 0); }
    if r > n { Ordered(d, n + 1, r); }
    if r > 1 { Ordered(d, 2, r); }
    OneMore(d, n);
    OneMore(d, r);
  }

  lemma Ordered(d: nat, a: int, b: int)
    requires a <= b
    ensures a * d <= b * d
  {
  }

  lemma OneMore(d: nat, a: int)
    ensures (a + 1) * d == a * d + d
    ensures d > 0 && a >= 0 ==> a * d >= a
  {
    if d > 0 && a >= 0 { Ordered(a, 1, d); }
  }

  /** n rings of one kind with consecutive queues and registers. */
  function MakeRings(kind: Kind, queue: nat, reg: nat, v: nat, n: nat): (r: seq<Ring>)
    ensures |r| == n
    ensures forall i :: 0 <= i < n ==> r[i] == Ring(kind, queue + i, reg + i, v)
  {
    if n == 0 then [] else MakeRings(kind, queue, reg, v, n - 1) + [Ring(kind, queue + n - 1, reg + n - 1, v)]
  }

  /** ixgbevf_alloc_q_vector: the next vector takes the next rings of each kind; XDP registers follow its Tx ones. */
  function AllocVector(s: State, tx: nat, xdp: nat, rx: nat): State
  {
    var v, reg := |s.vectors|, |s.tx| + |s.xdp|;
    var t, x, r := MakeRings(Tx, |s.tx|, reg, v, tx), MakeRings(Xdp, |s.xdp|, reg + tx, v, xdp), MakeRings(Rx, |s.rx|, |s.rx|, v, rx);
    State(s.vectors + [QVector(t + x, r)], s.tx + t, s.xdp + x, s.rx + r)
  }

  /** The main loop of ixgbevf_alloc_q_vectors: each vector takes its share, rounded up, of what is left. */
  function Spread(s: State, q: nat, tx: nat, xdp: nat, rx: nat): State
    decreases q
  {
    if q == 0 then s
    else
      var t, x, r := CeilDiv(tx, q), CeilDiv(xdp, q), CeilDiv(rx, q);
      Spread(AllocVector(s, t, x, r), q - 1, tx - t, xdp - x, rx - r)
  }

  /** With a vector for every ring, the Rx rings come first. */
  function RxFirst(s: State, q: nat, tx: nat, xdp: nat, rx: nat): State
    requires q >= tx + xdp + rx
    decreases rx
  {
    if rx == 0 then Spread(s, q, tx, xdp, 0) else RxFirst(AllocVector(s, 0, 0, CeilDiv(rx, q)), q - 1, tx, xdp, rx - CeilDiv(rx, q))
  }

  function Layout(q: nat, tx: nat, xdp: nat, rx: nat): State
  {
    if q >= tx + xdp + rx then RxFirst(EMPTY, q, tx, xdp, rx) else Spread(EMPTY, q, tx, xdp, rx)
  }

  // ---------------------------------------------------------------- what it promises

  /** All Tx and XDP rings, vector by vector. */
  function TxAll(vs: seq<QVector>): seq<Ring>
  {
    if vs == [] then [] else TxAll(vs[..|vs| - 1]) + vs[|vs| - 1].tx
  }

  function RxAll(vs: seq<QVector>): seq<Ring>
  {
    if vs == [] then [] else RxAll(vs[..|vs| - 1]) + vs[|vs| - 1].rx
  }

  /** The k-th Tx or XDP ring uses register k, and the table of its kind names it at its queue. */
  predicate TxPlaced(s: State, all: seq<Ring>, k: nat)
    requires k < |all|
  {
    var r := all[k];
    r.reg == k && match r.kind
                  case Tx => r.queue < |s.tx| && s.tx[r.queue] == r
                  case Xdp => r.queue < |s.xdp| && s.xdp[r.queue] == r
                  case Rx => false
  }

  /** A table's entry for queue j is found among the vectors' rings at its register. */
  predicate Found(all: seq<Ring>, kind: Kind, table: seq<Ring>, j: nat)
    requires j < |table|
  {
    var r := table[j];
    r.kind == kind && r.queue == j && r.reg < |all| && all[r.reg] == r
  }

  predicate Owned(s: State, v: nat, i: nat, tx: bool)
    requires v < |s.vectors| && i < |if tx then s.vectors[v].tx else s.vectors[v].rx|
  {
    (if tx then s.vectors[v].tx else s.vectors[v].rx)[i].vector == v
  }

  /** Tables and vectors name the same rings: every table entry sits in exactly one place among the vectors, under
      its own register, and every ring of a vector is in its table. */
  ghost predicate Consistent(s: State)
  {
    var all := TxAll(s.vectors);
    && |all| == |s.tx| + |s.xdp|
    && (forall k :: 0 <= k < |all| ==> TxPlaced(s, all, k))
    && (forall j :: 0 <= j < |s.tx| ==> Found(all, Tx, s.tx, j))
    && (forall j :: 0 <= j < |s.xdp| ==> Found(all, Xdp, s.xdp, j))
    && RxAll(s.vectors) == s.rx
    && (forall j :: 0 <= j < |s.rx| ==> Found(s.rx, Rx, s.rx, j) && s.rx[j].reg == j)
    && (forall v, i :: 0 <= v < |s.vectors| && 0 <= i < |s.vectors[v].tx| ==> Owned(s, v, i, true))
    && (forall v, i :: 0 <= v < |s.vectors| && 0 <= i < |s.vectors[v].rx| ==> Owned(s, v, i, false))
  }

  lemma AllGrow(vs: seq<QVector>, qv: QVector)
    ensures TxAll(vs + [qv]) == TxAll(vs) + qv.tx && RxAll(vs + [qv]) == RxAll(vs) + qv.rx
  {
    assert (vs + [qv])[..|vs|] == vs;
  }

  /** The Tx and XDP part of it. */
  lemma AllocPlaces(s: State, tx: nat, xdp: nat, rx: nat, s': State, all: seq<Ring>)
    requires Consistent(s) && s' == AllocVector(s, tx, xdp, rx) && all == TxAll(s.vectors) + s'.vectors[|s.vectors|].tx
    ensures forall k :: 0 <= k < |all| ==> TxPlaced(s', all, k)
    ensures forall j :: 0 <= j < |s'.tx| ==> Found(all, Tx, s'.tx, j)
    ensures forall j :: 0 <= j < |s'.xdp| ==> Found(all, Xdp, s'.xdp, j)
  {
    var was := TxAll(s.vectors);
    forall k | 0 <= k < |all|
      ensures TxPlaced(s', all, k)
    {
      if k < |was| { assert TxPlaced(s, was, k); }
    }
    forall j | 0 <= j < |s'.tx|
      ensures Found(all, Tx, s'.tx, j)
    {
      if j < |s.tx| { assert Found(was, Tx, s.tx, j); }
    }
    forall j | 0 <= j < |s'.xdp|
      ensures Found(all, Xdp, s'.xdp, j)
    {
      if j < |s.xdp| { assert Found(was, Xdp, s.xdp, j); }
    }
  }

  lemma AllocKeepsConsistent(s: State, tx: nat, xdp: nat, rx: nat)
    requires Consistent(s)
    ensures Consistent(AllocVector(s, tx, xdp, rx))
  {
    var s' := AllocVector(s, tx, xdp, rx);
    AllGrow(s.vectors, s'.vectors[|s.vectors|]);
    assert s'.vectors == s.vectors + [s'.vectors[|s.vectors|]];
    AllocPlaces(s, tx, xdp, rx, s', TxAll(s'.vectors));
    hide TxPlaced, TxAll;
    forall j | 0 <= j < |s'.rx|
      ensures Found(s'.rx, Rx, s'.rx, j) && s'.rx[j].reg == j
    {
      if j < |s.rx| { assert Found(s.rx, Rx, s.rx, j); }
    }
    forall v, i | 0 <= v < |s'.vectors| && 0 <= i < |s'.vectors[v].tx|
      ensures Owned(s', v, i, true)
    {
      if v < |s.vectors| { assert Owned(s, v, i, true); }
    }
    forall v, i | 0 <= v < |s'.vectors| && 0 <= i < |s'.vectors[v].rx|
      ensures Owned(s', v, i, false)
    {
      if v < |s.vectors| { assert Owned(s, v, i, false); }
    }
  }

  lemma EmptyIsConsistent()
    ensures Consistent(EMPTY)
  {
  }

  lemma AllocSizes(s: State, tx: nat, xdp: nat, rx: nat)
    ensures var s' := AllocVector(s, tx, xdp, rx);
            && |s'.vectors| == |s.vectors| + 1 && |s'.tx| == |s.tx| + tx && |s'.xdp| == |s.xdp| + xdp && |s'.rx| == |s.rx| + rx
  {
  }

  /** Nothing is left over once the last vector has taken its share. */
  lemma {:induction false} SpreadPlacesAll(s: State, q: nat, tx: nat, xdp: nat, rx: nat)
    requires Consistent(s) && (q == 0 ==> tx == xdp == rx == 0)
    ensures var s' := Spread(s, q, tx, xdp, rx);
            && Consistent(s') && |s'.vectors| == |s.vectors| + q
            && |s'.tx| == |s.tx| + tx && |s'.xdp| == |s.xdp| + xdp && |s'.rx| == |s.rx| + rx
    decreases q
  {
    hide Consistent, CeilDiv;
    if q > 0 {
      var t, x, r := CeilDiv(tx, q), CeilDiv(xdp, q), CeilDiv(rx, q);
      AllocKeepsConsistent(s, t, x, r);
      SpreadPlacesAll(AllocVector(s, t, x, r), q - 1, tx - t, xdp - x, rx - r);
    }
  }

  lemma {:induction false} RxFirstPlacesAll(s: State, q: nat, tx: nat, xdp: nat, rx: nat)
    requires Consistent(s) && q >= tx + xdp + rx
    ensures var s' := RxFirst(s, q, tx, xdp, rx);
            && Consistent(s') && |s'.vectors| == |s.vectors| + q
            && |s'.tx| == |s.tx| + tx && |s'.xdp| == |s.xdp| + xdp && |s'.rx| == |s.rx| + rx
    decreases rx
  {
    hide CeilDiv;
    if rx == 0 {
      SpreadPlacesAll(s, q, tx, xdp, 0);
    } else {
      AllocKeepsConsistent(s, 0, 0, CeilDiv(rx, q));
      RxFirstPlacesAll(AllocVector(s, 0, 0, CeilDiv(rx, q)), q - 1, tx, xdp, rx - CeilDiv(rx, q));
    }
  }

  /** With at least one vector, every ring of every kind gets exactly one vector and its own register. */
  lemma LayoutPlacesAll(q: nat, tx: nat, xdp: nat, rx: nat)
    requires q >= 1
    ensures var s := Layout(q, tx, xdp, rx);
            Consistent(s) && |s.vectors| == q && |s.tx| == tx && |s.xdp| == xdp && |s.rx| == rx
  {
    if q >= tx + xdp + rx {
      RxFirstPlacesAll(EMPTY, q, tx, xdp, rx);
    } else {
      SpreadPlacesAll(EMPTY, q, tx, xdp, rx);
    }
  }

  // ---------------------------------------------------------------- balance

  /** An even share of n rings for the j-th of q vectors: the first n % q vectors get one more than the others. */
  function Share(n: nat, q: nat, j: nat): (r: nat)
    requires q > 0
  {
    Divided(n, q);
    NotNegative(n, q, n / q);
    n / q + if j < n % q then 1 else 0
  }

  lemma NotNegative(n: nat, q: nat, a: int)
    requires q > 0 && n < a * q + q
    ensures a >= 0
  {
    if a < 0 { Ordered(q, a + 1, 0); }
  }

  /** Rounding up is the first vector's even share, and leaves the others theirs. */
  lemma ShareStep(n: nat, q: nat, j: nat)
    requires q > 0
    ensures CeilDiv(n, q) == Share(n, q, 0)
    ensures 0 < j < q ==> Share(n - CeilDiv(n, q), q - 1, j - 1) == Share(n, q, j)
  {
    Divided(n, q);
    NotNegative(n, q, n / q);
    var a: nat, r := n / q, n % q;
    RoundedUp(n, q, a, r);
    if 0 < j < q { LeftOver(n, q, a, r); }
  }

  lemma RoundedUp(n: nat, q: nat, a: nat, r: nat)
    requires q > 0 && n == a * q + r && r < q
    ensures CeilDiv(n, q) == a + if r > 0 then 1 else 0
  {
    OneMore(q, a);
    if r == 0 { DividedUniquely(n + q - 1, q, a, q - 1); } else { DividedUniquely(n + q - 1, q, a + 1, r - 1); }
  }

  lemma LeftOver(n: nat, q: nat, a: nat, r: nat)
    requires q > 1 && n == a * q + r && r < q
    ensures var left := n - a - if r > 0 then 1 else 0; left >= 0 && left / (q - 1) == a && left % (q - 1) == if r > 0 then r - 1 else 0
  {
    var left := n - a - if r > 0 then 1 else 0;
    assert a * q == a * (q - 1) + a;
    DividedUniquely(left, q - 1, a, if r > 0 then r - 1 else 0);
  }

  /** Later vectors leave the earlier ones alone. */
  lemma {:induction false} SpreadExtends(s: State, q: nat, tx: nat, xdp: nat, rx: nat)
    ensures var s' := Spread(s, q, tx, xdp, rx); |s'.vectors| == |s.vectors| + q && s'.vectors[..|s.vectors|] == s.vectors
    decreases q
  {
    hide CeilDiv;
    if q > 0 {
      var s1 := AllocVector(s, CeilDiv(tx, q), CeilDiv(xdp, q), CeilDiv(rx, q));
      SpreadExtends(s1, q - 1, tx - CeilDiv(tx, q), xdp - CeilDiv(xdp, q), rx - CeilDiv(rx, q));
      assert s1.vectors[..|s.vectors|] == s.vectors;
    }
  }

  /** Every vector of the main loop gets its even share of each kind. */
  lemma {:induction false} SpreadShares(s: State, q: nat, tx: nat, xdp: nat, rx: nat, v: nat)
    requires |s.vectors| <= v < |s.vectors| + q
    ensures |Spread(s, q, tx, xdp, rx).vectors| == |s.vectors| + q
    ensures var qv, j := Spread(s, q, tx, xdp, rx).vectors[v], v - |s.vectors|;
            |qv.rx| == Share(rx, q, j) && HasRings(qv, Share(tx, q, j), Share(xdp, q, j))
    decreases q
  {
    hide CeilDiv, Share;
    SpreadExtends(s, q, tx, xdp, rx);
    var t, x, r, j := CeilDiv(tx, q), CeilDiv(xdp, q), CeilDiv(rx, q), v - |s.vectors|;
    ShareStep(tx, q, j);
    ShareStep(xdp, q, j);
    ShareStep(rx, q, j);
    var s1 := AllocVector(s, t, x, r);
    if v == |s.vectors| {
      SpreadExtends(s1, q - 1, tx - t, xdp - x, rx - r);
      assert Spread(s, q, tx, xdp, rx).vectors[v] == s1.vectors[v];
    } else {
      SpreadShares(s1, q - 1, tx - t, xdp - x, rx - r, v);
    }
  }

  /** With fewer vectors than rings, each kind is dealt out evenly: n / q to every vector and one more to the first n % q. */
  lemma LayoutIsFair(q: nat, tx: nat, xdp: nat, rx: nat, v: nat)
    requires 1 <= q < tx + xdp + rx && v < q
    ensures var s := Layout(q, tx, xdp, rx);
            && |s.vectors| == q && |s.vectors[v].rx| == rx / q + (if v < rx % q then 1 else 0)
            && HasRings(s.vectors[v], Share(tx, q, v), Share(xdp, q, v))
            && Share(tx, q, v) == tx / q + (if v < tx % q then 1 else 0) && Share(xdp, q, v) == xdp / q + (if v < xdp % q then 1 else 0)
  {
    SpreadShares(EMPTY, q, tx, xdp, rx, v);
  }

  /** With a vector for each ring, the share is one ring for the first n vectors. */
  lemma RoomyShare(n: nat, q: nat, j: nat)
    requires n <= q && j < q
    ensures Share(n, q, j) == if j < n then 1 else 0
  {
    if n < q { DividedUniquely(n, q, 0, n); } else { DividedUniquely(n, q, 1, 0); }
  }

  lemma {:induction false} RxFirstExtends(s: State, q: nat, tx: nat, xdp: nat, rx: nat)
    requires q >= tx + xdp + rx
    ensures var s' := RxFirst(s, q, tx, xdp, rx); |s'.vectors| == |s.vectors| + q && s'.vectors[..|s.vectors|] == s.vectors
    decreases rx
  {
    hide CeilDiv;
    if rx == 0 {
      SpreadExtends(s, q, tx, xdp, 0);
    } else {
      var s1 := AllocVector(s, 0, 0, 1);
      RxFirstExtends(s1, q - 1, tx, xdp, rx - 1);
      assert s1.vectors[..|s.vectors|] == s.vectors;
    }
  }

  lemma {:induction false} RxFirstShares(s: State, q: nat, tx: nat, xdp: nat, rx: nat, v: nat)
    requires q >= tx + xdp + rx && |s.vectors| <= v < |s.vectors| + q
    ensures |RxFirst(s, q, tx, xdp, rx).vectors| == |s.vectors| + q
    ensures var qv, j := RxFirst(s, q, tx, xdp, rx).vectors[v], v - |s.vectors|;
            if j < rx then |qv.rx| == 1 && qv.tx == []
            else qv.rx == [] && HasRings(qv, if j - rx < tx then 1 else 0, if j - rx < xdp then 1 else 0)
    decreases rx
  {
    hide CeilDiv, Spread, Share;
    if rx == 0 {
      SpreadShares(s, q, tx, xdp, 0, v);
      RoomyShare(tx, q, v - |s.vectors|);
      RoomyShare(xdp, q, v - |s.vectors|);
      RoomyShare(0, q, v - |s.vectors|);
    } else {
      var s1 := AllocVector(s, 0, 0, 1);
      RxFirstExtends(s1, q - 1, tx, xdp, rx - 1);
      if v == |s.vectors| {
        assert RxFirst(s, q, tx, xdp, rx).vectors[v] == s1.vectors[v];
      } else {
        RxFirstShares(s1, q - 1, tx, xdp, rx - 1, v);
      }
    }
  }

  /** With a vector for every ring, each Rx ring has one of the first vectors for itself, and the vectors after them have one
      Tx and one XDP ring each as long as there are any. */
  lemma LayoutIsRoomy(q: nat, tx: nat, xdp: nat, rx: nat, v: nat)
    requires q >= tx + xdp + rx && v < q
    ensures var s := Layout(q, tx, xdp, rx);
            && |s.vectors| == q
            && if v < rx then |s.vectors[v].rx| == 1 && s.vectors[v].tx == []
               else s.vectors[v].rx == [] && HasRings(s.vectors[v], if v - rx < tx then 1 else 0, if v - rx < xdp then 1 else 0)
  {
    RxFirstShares(EMPTY, q, tx, xdp, rx, v);
  }

  /** A vector serves t Tx rings and then x XDP rings. */
  predicate HasRings(qv: QVector, t: nat, x: nat)
  {
    |qv.tx| == t + x && (forall i :: 0 <= i < t ==> qv.tx[i].kind == Tx) && forall i :: t <= i < t + x ==> qv.tx[i].kind == Xdp
  }

  /** A vector's ring appears among all rings ... */
  lemma {:induction false} InTxAll(vs: seq<QVector>, v: nat, i: nat) returns (k: nat)
    requires v < |vs| && i < |vs[v].tx|
    ensures k < |TxAll(vs)| && TxAll(vs)[k] == vs[v].tx[i]
  {
    if v == |vs| - 1 {
      k := |TxAll(vs[..v])| + i;
    } else {
      k := InTxAll(vs[..|vs| - 1], v, i);
    }
  }

  /** ... and every ring among them belongs to a vector. */
  lemma {:induction false} FromTxAll(vs: seq<QVector>, k: nat) returns (v: nat, i: nat)
    requires k < |TxAll(vs)|
    ensures v < |vs| && i < |vs[v].tx| && vs[v].tx[i] == TxAll(vs)[k]
  {
    var before := vs[..|vs| - 1];
    if k < |TxAll(before)| {
      v, i := FromTxAll(before, k);
    } else {
      v, i := |vs| - 1, k - |TxAll(before)|;
    }
  }

  lemma {:induction false} InRxAll(vs: seq<QVector>, v: nat, i: nat) returns (k: nat)
    requires v < |vs| && i < |vs[v].rx|
    ensures k < |RxAll(vs)| && RxAll(vs)[k] == vs[v].rx[i]
  {
    if v == |vs| - 1 {
      k := |RxAll(vs[..v])| + i;
    } else {
      k := InRxAll(vs[..|vs| - 1], v, i);
    }
  }

  lemma {:induction false} FromRxAll(vs: seq<QVector>, k: nat) returns (v: nat, i: nat)
    requires k < |RxAll(vs)|
    ensures v < |vs| && i < |vs[v].rx| && vs[v].rx[i] == RxAll(vs)[k]
  {
    var before := vs[..|vs| - 1];
    if k < |RxAll(before)| {
      v, i := FromRxAll(before, k);
    } else {
      v, i := |vs| - 1, k - |RxAll(before)|;
    }
  }

  /** A ring in a vector's list is the table's entry for its queue, and knows its vector. */
  lemma TxListed(s: State, v: nat, i: nat)
    requires Consistent(s) && v < |s.vectors| && i < |s.vectors[v].tx|
    ensures var r := s.vectors[v].tx[i];
            && r.vector == v && r.kind != Rx
            && (r.kind == Tx ==> r.queue < |s.tx| && s.tx[r.queue] == r)
            && (r.kind == Xdp ==> r.queue < |s.xdp| && s.xdp[r.queue] == r)
  {
    var k := InTxAll(s.vectors, v, i);
    assert TxPlaced(s, TxAll(s.vectors), k) && Owned(s, v, i, true);
  }

  lemma RxListed(s: State, v: nat, i: nat)
    requires Consistent(s) && v < |s.vectors| && i < |s.vectors[v].rx|
    ensures var r := s.vectors[v].rx[i]; r.vector == v && r.kind == Rx && r.queue < |s.rx| && s.rx[r.queue] == r
  {
    var k := InRxAll(s.vectors, v, i);
    assert Found(s.rx, Rx, s.rx, k) && Owned(s, v, i, false);
  }

  /** A table's entry is in the list of the vector it names. */
  lemma TableListed(s: State, kind: Kind, j: nat)
    requires Consistent(s) && j < |if kind == Tx then s.tx else if kind == Xdp then s.xdp else s.rx|
    ensures var r := (if kind == Tx then s.tx else if kind == Xdp then s.xdp else s.rx)[j];
            && r.kind == kind && r.queue == j && r.vector < |s.vectors|
            && r in (if kind == Rx then s.vectors[r.vector].rx else s.vectors[r.vector].tx)
  {
    if kind == Rx {
      assert Found(s.rx, Rx, s.rx, j);
      var v, i := FromRxAll(s.vectors, j);
      assert Owned(s, v, i, false);
    } else {
      var table := if kind == Tx then s.tx else s.xdp;
      assert Found(TxAll(s.vectors), kind, table, j);
      var v, i := FromTxAll(s.vectors, table[j].reg);
      assert Owned(s, v, i, true);
    }
  }

  // ---------------------------------------------------------------- the adapter

  /** A pointer table holds exactly these entries, in order, then NULL. */
  ghost predicate Filled<T>(table: seq<Option<T>>, entries: seq<T>)
  {
    |entries| <= |table| && forall j :: 0 <= j < |table| ==> table[j] == if j < |entries| then Some(entries[j]) else None
  }

  lemma FilledGrows<T>(table: seq<Option<T>>, entries: seq<T>, e: T)
    requires Filled(table, entries) && |entries| < |table|
    ensures Filled(table[|entries| := Some(e)], entries + [e])
  {
  }

  class Adapter {
    var numTx: nat
    var numXdp: nat
    var numRx: nat
    var numVectors: nat
    const qVector: array<Option<QVector>>
    const txRing: array<Option<Ring>>
    const xdpRing: array<Option<Ring>>
    const rxRing: array<Option<Ring>>

    /** The tables hold the rings and vectors of `s`. */
    ghost predicate Shows(s: State)
      reads qVector, txRing, xdpRing, rxRing
    {
      Filled(qVector[..], s.vectors) && Filled(txRing[..], s.tx) && Filled(xdpRing[..], s.xdp) && Filled(rxRing[..], s.rx)
    }

    ghost predicate Separate()
    {
      txRing != xdpRing && txRing != rxRing && xdpRing != rxRing
    }

    constructor (q: nat, tx: nat, xdp: nat, rx: nat)
      ensures Separate() && Shows(EMPTY) && fresh(qVector) && fresh(txRing) && fresh(xdpRing) && fresh(rxRing)
      ensures numVectors == qVector.Length == q && numTx == txRing.Length == tx
      ensures numXdp == xdpRing.Length == xdp && numRx == rxRing.Length == rx
    {
      numVectors, numTx, numXdp, numRx := q, tx, xdp, rx;
      qVector := new Option<QVector>[q](_ => None);
      txRing, xdpRing, rxRing := new Option<Ring>[tx](_ => None), new Option<Ring>[xdp](_ => None), new Option<Ring>[rx](_ => None);
    }

    /** One of the three loops of ixgbevf_alloc_q_vector. */
    method AddRings(table: array<Option<Ring>>, ghost before: seq<Ring>, kind: Kind, n: nat, queue: nat, reg: nat, v: nat)
      returns (rings: seq<Ring>)
      requires Filled(table[..], before) && queue == |before| && queue + n <= table.Length
      modifies table
      ensures rings == MakeRings(kind, queue, reg, v, n)
      ensures Filled(table[..], before + rings)
    {
      rings := [];
      assert before + [] == before;
      for i := 0 to n
        invariant rings == MakeRings(kind, queue, reg, v, i)
        invariant Filled(table[..], before + rings)
      {
        var ring := Ring(kind, queue + i, reg + i, v);
        FilledGrows(table[..], before + rings, ring);
        ghost var now := table[..];
        table[queue + i] := Some(ring);
        assert table[..] == now[queue + i := Some(ring)];
        assert before + (rings + [ring]) == before + rings + [ring];
        rings := rings + [ring];
      }
    }

    /** ixgbevf_alloc_q_vector; without memory it changes nothing. */
    method AllocQVector(ghost s: State, memory: bool, v: nat, tx: nat, txIdx: nat, xdp: nat, xdpIdx: nat, rx: nat, rxIdx: nat)
      returns (ok: bool)
      requires Separate() && Shows(s) && v == |s.vectors| < qVector.Length
      requires txIdx == |s.tx| && xdpIdx == |s.xdp| && rxIdx == |s.rx|
      requires txIdx + tx <= txRing.Length && xdpIdx + xdp <= xdpRing.Length && rxIdx + rx <= rxRing.Length
      modifies qVector, txRing, xdpRing, rxRing
      ensures ok == memory
      ensures Shows(if ok then AllocVector(s, tx, xdp, rx) else s)
    {
      if !memory { return false; }
      var t := AddRings(txRing, s.tx, Tx, tx, txIdx, txIdx + xdpIdx, v);
      var x := AddRings(xdpRing, s.xdp, Xdp, xdp, xdpIdx, txIdx + xdpIdx + tx, v);
      var r := AddRings(rxRing, s.rx, Rx, rx, rxIdx, rxIdx, v);
      ghost var was := qVector[..];
      FilledGrows(was, s.vectors, QVector(t + x, r));
      qVector[v] := Some(QVector(t + x, r));
      assert qVector[..] == was[v := Some(QVector(t + x, r))];
      return true;
    }

    /** While freeing vector v: its rings in `gone` have left the table, those of earlier vectors are still there. */
    static ghost predicate Partly(table: seq<Option<Ring>>, entries: seq<Ring>, v: int, gone: seq<Ring>)
    {
      && |entries| <= |table|
      && forall j :: 0 <= j < |table| ==>
           table[j] == if j < |entries| && entries[j].vector <= v && entries[j] !in gone then Some(entries[j]) else None
    }

    /** ixgbevf_free_q_vector's walk over one ring list. */
    method ClearRings(ghost s: State, v: nat, list: seq<Ring>, ghost rx: bool)
      requires Separate() && Consistent(s) && v < |s.vectors| && list == if rx then s.vectors[v].rx else s.vectors[v].tx
      requires if rx then Partly(rxRing[..], s.rx, v, []) else Partly(txRing[..], s.tx, v, []) && Partly(xdpRing[..], s.xdp, v, [])
      modifies txRing, xdpRing, rxRing
      ensures if rx then Partly(rxRing[..], s.rx, v, list) && txRing[..] == old(txRing[..]) && xdpRing[..] == old(xdpRing[..])
              else Partly(txRing[..], s.tx, v, list) && Partly(xdpRing[..], s.xdp, v, list) && rxRing[..] == old(rxRing[..])
    {
      for i := 0 to |list|
        invariant if rx then Partly(rxRing[..], s.rx, v, list[..i]) && txRing[..] == old(txRing[..]) && xdpRing[..] == old(xdpRing[..])
                  else Partly(txRing[..], s.tx, v, list[..i]) && Partly(xdpRing[..], s.xdp, v, list[..i]) && rxRing[..] == old(rxRing[..])
      {
        if rx { RxListed(s, v, i); } else { TxListed(s, v, i); }
        ClearRing(s, v, list[i], list[..i], rx);
        assert list[..i + 1] == list[..i] + [list[i]];
      }
      assert list[..|list|] == list;
    }

    /** One ring leaves its table. */
    method ClearRing(ghost s: State, ghost v: nat, r: Ring, ghost gone: seq<Ring>, ghost rx: bool)
      requires Separate() && Consistent(s)
      requires if rx then Partly(rxRing[..], s.rx, v, gone) else Partly(txRing[..], s.tx, v, gone) && Partly(xdpRing[..], s.xdp, v, gone)
      requires rx <==> r.kind == Rx
      requires r.kind == Rx ==> r.queue < |s.rx| && s.rx[r.queue] == r
      requires r.kind == Tx ==> r.queue < |s.tx| && s.tx[r.queue] == r
      requires r.kind == Xdp ==> r.queue < |s.xdp| && s.xdp[r.queue] == r
      modifies txRing, xdpRing, rxRing
      ensures if rx then Partly(rxRing[..], s.rx, v, gone + [r]) && txRing[..] == old(txRing[..]) && xdpRing[..] == old(xdpRing[..])
              else Partly(txRing[..], s.tx, v, gone + [r]) && Partly(xdpRing[..], s.xdp, v, gone + [r]) && rxRing[..] == old(rxRing[..])
    {
      match r.kind {
        case Rx =>
          PartlyClears(rxRing[..], s.rx, v, gone, r, s, Rx);
          rxRing[r.queue] := None;
          assert rxRing[..] == old(rxRing[..])[r.queue := None];
        case Tx =>
          PartlyClears(txRing[..], s.tx, v, gone, r, s, Tx);
          PartlyKeeps(xdpRing[..], s.xdp, v, gone, r, s, Xdp);
          txRing[r.queue] := None;
          assert txRing[..] == old(txRing[..])[r.queue := None];
        case Xdp =>
          PartlyClears(xdpRing[..], s.xdp, v, gone, r, s, Xdp);
          PartlyKeeps(txRing[..], s.tx, v, gone, r, s, Tx);
          xdpRing[r.queue] := None;
          assert xdpRing[..] == old(xdpRing[..])[r.queue := None];
      }
    }

    static lemma PartlyClears(table: seq<Option<Ring>>, entries: seq<Ring>, v: int, gone: seq<Ring>, r: Ring, s: State, kind: Kind)
      requires Consistent(s) && entries == (if kind == Tx then s.tx else if kind == Xdp then s.xdp else s.rx)
      requires Partly(table, entries, v, gone) && r.queue < |entries| && entries[r.queue] == r
      ensures Partly(table[r.queue := None], entries, v, gone + [r])
    {
      forall j | 0 <= j < |entries|
        ensures entries[j] == r <==> j == r.queue
      {
        TableListed(s, kind, j);
      }
    }

    static lemma PartlyKeeps(table: seq<Option<Ring>>, entries: seq<Ring>, v: int, gone: seq<Ring>, r: Ring, s: State, kind: Kind)
      requires Consistent(s) && entries == (if kind == Tx then s.tx else if kind == Xdp then s.xdp else s.rx)
      requires Partly(table, entries, v, gone) && r.kind != kind
      ensures Partly(table, entries, v, gone + [r])
    {
      forall j | 0 <= j < |entries|
        ensures entries[j] != r
      {
        TableListed(s, kind, j);
      }
    }

    /** All of vector v's rings are gone: what is left belongs to the vectors before it. */
    static lemma PartlyNext(table: seq<Option<Ring>>, entries: seq<Ring>, v: nat, list: seq<Ring>, s: State, kind: Kind)
      requires Consistent(s) && entries == (if kind == Tx then s.tx else if kind == Xdp then s.xdp else s.rx)
      requires v < |s.vectors| && list == (if kind == Rx then s.vectors[v].rx else s.vectors[v].tx) && Partly(table, entries, v, list)
      ensures Partly(table, entries, v - 1, [])
    {
      forall j | 0 <= j < |entries|
        ensures entries[j].vector <= v && entries[j] !in list <==> entries[j].vector <= v - 1
      {
        TableListed(s, kind, j);
        if entries[j] in list {
          var i :| 0 <= i < |list| && list[i] == entries[j];
          if kind == Rx { RxListed(s, v, i); } else { TxListed(s, v, i); }
        }
      }
    }

    /** Only the vectors up to v, and their rings, are left. */
    ghost predicate Left(s: State, v: int)
      reads qVector, txRing, xdpRing, rxRing
    {
      && -1 <= v < |s.vectors| && Filled(qVector[..], s.vectors[..v + 1])
      && Partly(txRing[..], s.tx, v, []) && Partly(xdpRing[..], s.xdp, v, []) && Partly(rxRing[..], s.rx, v, [])
    }

    /** ixgbevf_free_q_vector for the last vector left. */
    method FreeQVector(ghost s: State, v: nat)
      requires Separate() && Consistent(s) && Left(s, v)
      modifies qVector, txRing, xdpRing, rxRing
      ensures Left(s, v - 1)
    {
      var qv := qVector[v].value;
      assert qv == s.vectors[v];
      ClearRings(s, v, qv.tx, false);
      ClearRings(s, v, qv.rx, true);
      PartlyNext(txRing[..], s.tx, v, qv.tx, s, Tx);
      PartlyNext(xdpRing[..], s.xdp, v, qv.tx, s, Xdp);
      PartlyNext(rxRing[..], s.rx, v, qv.rx, s, Rx);
      ghost var was := qVector[..];
      qVector[v] := None;
      assert qVector[..] == was[v := None];
    }

    /** The error path of ixgbevf_alloc_q_vectors: everything allocated is freed, newest first. */
    method FreeAll(ghost s: State, count: nat)
      requires Separate() && Consistent(s) && Shows(s) && count == |s.vectors|
      modifies this, qVector, txRing, xdpRing, rxRing
      ensures Shows(EMPTY) && numTx == numXdp == numRx == numVectors == 0
    {
      numTx, numXdp, numRx, numVectors := 0, 0, 0, 0;
      var v: int := count - 1;
      StartLeft(s);
      while v >= 0
        invariant -1 <= v < count && Left(s, v)
        invariant numTx == numXdp == numRx == numVectors == 0
      {
        FreeQVector(s, v);
        v := v - 1;
      }
    }

    lemma StartLeft(s: State)
      requires Consistent(s) && Shows(s)
      ensures Left(s, |s.vectors| - 1)
    {
      assert s.vectors[..|s.vectors|] == s.vectors;
      forall j | 0 <= j < |s.tx| ensures s.tx[j].vector < |s.vectors| { TableListed(s, Tx, j); }
      forall j | 0 <= j < |s.xdp| ensures s.xdp[j].vector < |s.vectors| { TableListed(s, Xdp, j); }
      forall j | 0 <= j < |s.rx| ensures s.rx[j].vector < |s.vectors| { TableListed(s, Rx, j); }
    }

    /** The loop of ixgbevf_alloc_q_vectors that hands out Rx rings while vectors are plentiful. */
    method AllocRxFirst(memory: seq<bool>) returns (ok: bool, q: nat, rxLeft: nat, v: nat, ghost s: State)
      requires Separate() && Shows(EMPTY) && numVectors >= numTx + numXdp + numRx
      requires numVectors <= qVector.Length && numRx <= rxRing.Length && |memory| == numVectors
      modifies qVector, txRing, xdpRing, rxRing
      ensures Shows(s) && Consistent(s) && v == |s.vectors| && s.tx == [] && s.xdp == [] && |s.rx| + rxLeft == numRx && v + q == numVectors
      ensures ok ==> rxLeft == 0 && Layout(numVectors, numTx, numXdp, numRx) == Spread(s, q, numTx, numXdp, 0)
      ensures ok ==> forall i :: 0 <= i < v ==> memory[i]
      ensures !ok ==> v < |memory| && !memory[v]
    {
      hide Consistent, Filled, Spread, AllocVector, CeilDiv;
      ok, q, rxLeft, v, s := true, numVectors, numRx, 0, EMPTY;
      ghost var goal := Layout(numVectors, numTx, numXdp, numRx);
      EmptyIsConsistent();
      while rxLeft > 0
        invariant Shows(s) && Consistent(s) && v == |s.vectors| && |s.tx| == |s.xdp| == 0 && |s.rx| + rxLeft == numRx && v + q == numVectors
        invariant q >= numTx + numXdp + rxLeft
        invariant RxFirst(s, q, numTx, numXdp, rxLeft) == goal
        invariant forall i :: 0 <= i < v ==> memory[i]
        decreases rxLeft
      {
        var n := CeilDiv(rxLeft, q);
        ok := AllocQVector(s, memory[v], v, 0, 0, 0, 0, n, numRx - rxLeft);
        if !ok { return; }
        AllocKeepsConsistent(s, 0, 0, n);
        AllocSizes(s, 0, 0, n);
        s := AllocVector(s, 0, 0, n);
        rxLeft, v, q := rxLeft - n, v + 1, q - 1;
      }
    }

    /** The main loop: the remaining rings over the remaining vectors. */
    method AllocShares(memory: seq<bool>, ghost s0: State, q0: nat, rx0: nat, v0: nat) returns (ok: bool, v: nat, ghost s: State)
      requires Separate() && Shows(s0) && Consistent(s0) && v0 == |s0.vectors| && s0.tx == [] && s0.xdp == []
      requires |s0.rx| + rx0 == numRx && v0 + q0 == numVectors <= qVector.Length && |memory| == numVectors
      requires numTx <= txRing.Length && numXdp <= xdpRing.Length && numRx <= rxRing.Length
      modifies qVector, txRing, xdpRing, rxRing
      ensures Shows(s) && Consistent(s) && v == |s.vectors|
      ensures ok ==> s == Spread(s0, q0, numTx, numXdp, rx0) && forall i :: v0 <= i < numVectors ==> memory[i]
      ensures !ok ==> v < |memory| && !memory[v]
    {
      var q, tx, xdp, rx := q0, numTx, numXdp, rx0;
      ok, v, s := true, v0, s0;
      ghost var goal := Spread(s0, q0, numTx, numXdp, rx0);
      hide Consistent, Filled, AllocVector, CeilDiv;
      while q > 0
        invariant Shows(s) && Consistent(s) && v == |s.vectors| && v + q == numVectors
        invariant |s.tx| + tx == numTx && |s.xdp| + xdp == numXdp && |s.rx| + rx == numRx
        invariant Spread(s, q, tx, xdp, rx) == goal
        invariant v0 <= v && forall i :: v0 <= i < v ==> memory[i]
        decreases q
      {
        var t, x, r := CeilDiv(tx, q), CeilDiv(xdp, q), CeilDiv(rx, q);
        ok := AllocQVector(s, memory[v], v, t, numTx - tx, x, numXdp - xdp, r, numRx - rx);
        if !ok { return; }
        AllocKeepsConsistent(s, t, x, r);
        AllocSizes(s, t, x, r);
        s := AllocVector(s, t, x, r);
        tx, xdp, rx, v, q := tx - t, xdp - x, rx - r, v + 1, q - 1;
      }
    }

    /** ixgbevf_alloc_q_vectors: all or nothing.  `memory` says which allocations succeed. */
    method AllocQVectors(memory: seq<bool>) returns (ok: bool)
      requires Separate() && Shows(EMPTY) && |memory| == numVectors <= qVector.Length
      requires numTx <= txRing.Length && numXdp <= xdpRing.Length && numRx <= rxRing.Length
      modifies this, qVector, txRing, xdpRing, rxRing
      ensures ok <==> forall i :: 0 <= i < old(numVectors) ==> memory[i]
      ensures ok ==> Shows(Layout(numVectors, numTx, numXdp, numRx))
      ensures ok ==> numVectors == old(numVectors) && numTx == old(numTx) && numXdp == old(numXdp) && numRx == old(numRx)
      ensures !ok ==> Shows(EMPTY) && numTx == numXdp == numRx == numVectors == 0
    {
      ok := true;
      var q, rx, v := numVectors, numRx, 0;
      ghost var s := EMPTY;
      if q >= numTx + numXdp + numRx {
        ok, q, rx, v, s := AllocRxFirst(memory);
      }
      if ok {
        ok, v, s := AllocShares(memory, s, q, rx, v);
      }
      if !ok { FreeAll(s, v); }
    }
  }
}
