/**
 Adaptive interrupt throttling: a latency class per ring container, and exponential smoothing of the rate
 towards the class's target.
 */
module Itr {
  import opened Util

  const ITR_100K: nat := 40
  const ITR_20K: nat := 200
  const ITR_12K: nat := 336

  datatype Latency = Lowest | Low | Bulk
  {
    function Rank(): nat { match this case Lowest => 0 case Low => 1 case Bulk => 2 }
    function Target(): nat { match this case Lowest => ITR_100K case Low => ITR_20K case Bulk => ITR_12K }
  }

  datatype Container = Container(bytes: nat, packets: nat, latency: Latency)

  // ---------------------------------------------------------------- smoothing

  predicate InRange(x: nat) { ITR_100K <= x <= ITR_12K }

  /** One smoothing step from rate x towards target t. */
  function Smooth(t: nat, x: nat): nat
    requires 9 * t + x > 0
  {
    Products(t, x);
    10 * t * x / (9 * t + x)
  }

  lemma Products(t: nat, x: nat)
    requires 9 * t + x > 0
    ensures 10 * t * x >= 0 && 10 * t * x / (9 * t + x) >= 0
  {
    NonNegative(10 * t, x);
    Ratio(10 * t * x, 9 * t + x);
  }

  lemma NonNegative(a: nat, b: nat)
    ensures a * b >= 0
  {
  }

  lemma Ratio(n: nat, d: nat)
    requires d > 0
    ensures n / d >= 0
  {
  }

  lemma Ordered(d: nat, a: nat, b: nat)
    requires a <= b
    ensures a * d <= b * d
  {
  }

  /** Comparing a quotient without dividing. */
  lemma AtLeast(n: nat, d: nat, y: nat)
    requires d > 0
    ensures n / d >= y <==> y * d <= n
  {
    Divided(n, d);
    var q := n / d;
    if q >= y { Ordered(d, y, q); } else { Ordered(d, q + 1, y); }
  }

  lemma Times(a: nat, t: nat, x: nat)
    ensures a * (9 * t + x) == 9 * (a * t) + a * x
  {
  }

  lemma OneMore(a: nat, d: nat)
    ensures (a + 1) * d == a * d + d
  {
  }

  /** Comparing the next rate with y, without dividing. */
  lemma Compare(t: nat, x: nat, y: nat)
    requires 9 * t + x > 0
    ensures Smooth(t, x) >= y <==> 9 * (y * t) + y * x <= 10 * (t * x)
  {
    var n, d := 10 * t * x, 9 * t + x;
    AtLeast(n, d, y);
    Times(y, t, x);
    Tenfold(t, x);
  }

  lemma Tenfold(t: nat, x: nat)
    ensures 10 * t * x == 10 * (t * x)
  {
  }

  lemma Swapped(a: nat, b: nat)
    ensures a * b == b * a
  {
  }

  lemma FallsTo(t: nat, x: nat)
    requires 0 < t <= x
    ensures t <= Smooth(t, x) <= x && (t < x ==> Smooth(t, x) < x)
  {
    hide Smooth;
    Compare(t, x, t);
    Ordered(t, t, x);
    Swapped(t, x);
    if t < x {
      Compare(t, x, x);
      Ordered(x, t + 1, x);
      OneMore(t, x);
    } else {
      Compare(t, x, x + 1);
      OneMore(x, x);
    }
  }

  lemma RisesTo(t: nat, x: nat)
    requires 0 < x <= t
    ensures x <= Smooth(t, x) <= t && (x < t ==> Smooth(t, x) < t)
  {
    hide Smooth;
    Compare(t, x, x);
    Ordered(x, x, t);
    Swapped(t, x);
    if x < t {
      Compare(t, x, t);
      Ordered(t, x + 1, t);
      OneMore(x, t);
    } else {
      FallsTo(t, x);
    }
  }

  /** A step never leaves the interval between rate and target; towards a lower target it always moves, and it
      never gets to a higher one. */
  lemma SmoothNeverOvershoots(t: nat, x: nat)
    requires t > 0 && x > 0
    ensures t <= x ==> t <= Smooth(t, x) <= x
    ensures t < x ==> Smooth(t, x) < x
    ensures x <= t ==> x <= Smooth(t, x) <= t
    ensures x < t ==> Smooth(t, x) < t
  {
    hide Smooth;
    if t <= x { FallsTo(t, x); }
    if x <= t { RisesTo(t, x); }
  }

  /** Towards a higher target the rate moves exactly when the gap is wide enough; otherwise it stalls for good. */
  lemma RisesExactlyWhen(t: nat, x: nat)
    requires 0 < x < t
    ensures Smooth(t, x) > x <==> x * (t - x) >= 9 * t + x
  {
    hide Smooth;
    Compare(t, x, x + 1);
    OneMore(x, t);
    OneMore(x, x);
    Swapped(t, x);
    Minus(x, t, x);
  }

  lemma Minus(a: nat, b: nat, c: nat)
    requires c <= b
    ensures a * (b - c) == a * b - a * c
  {
  }

  /** A higher rate now is no lower rate next. */
  lemma SmoothMonotone(t: nat, x: nat, y: nat)
    requires 0 < x <= y && t > 0
    ensures Smooth(t, x) <= Smooth(t, y)
  {
    var q, m := Smooth(t, x), y - x;
    AtLeast(10 * t * x, 9 * t + x, q);
    Bounded(t, x);
    Ordered(m, q, 10 * t);
    Plus(q, 9 * t + x, m);
    Plus(10 * t, x, m);
    assert 9 * t + y == 9 * t + x + m;
    assert q * (9 * t + y) <= 10 * t * y;
    AtLeast(10 * t * y, 9 * t + y, q);
  }

  lemma Plus(a: nat, b: nat, c: nat)
    ensures a * (b + c) == a * b + a * c
  {
  }

  lemma Bounded(t: nat, x: nat)
    requires t > 0 && x > 0
    ensures Smooth(t, x) <= 10 * t
  {
    SmoothNeverOvershoots(t, x);
    if x > t {
      var n, d := 10 * t * x, 9 * t + x;
      AtLeast(n, d, 10 * t + 1);
      OneMore(10 * t, d);
      Plus(10 * t, 9 * t, x);
    }
  }

  /** n smoothing steps towards the same target. */
  function SmoothTimes(t: nat, x: nat, n: nat): (r: nat)
    requires t > 0 && x > 0
    ensures r > 0
  {
    if n == 0 then x
    else
      var before := SmoothTimes(t, x, n - 1);
      SmoothNeverOvershoots(t, before);
      Smooth(t, before)
  }

  /** A lower target is reached, exactly, within as many steps as it is away. */
  lemma {:induction false} ReachesLowerTarget(t: nat, x: nat, n: nat)
    requires 0 < t <= x
    ensures t <= SmoothTimes(t, x, n) && SmoothTimes(t, x, n) <= if n <= x - t then x - n else t
  {
    if n > 0 {
      ReachesLowerTarget(t, x, n - 1);
      SmoothNeverOvershoots(t, SmoothTimes(t, x, n - 1));
    }
  }

  lemma {:induction false} NeverArrives(t: nat, x: nat, n: nat)
    requires 0 < x < t
    ensures x <= SmoothTimes(t, x, n) < t
  {
    if n > 0 {
      NeverArrives(t, x, n - 1);
      SmoothNeverOvershoots(t, SmoothTimes(t, x, n - 1));
    }
  }

  /** A target is ever reached if and only if the rate starts at it or above. */
  lemma ReachedExactly(t: nat, x: nat)
    requires t > 0 && x > 0
    ensures (exists n: nat :: SmoothTimes(t, x, n) == t) <==> x >= t
  {
    if x >= t {
      ReachesLowerTarget(t, x, x - t);
      assert SmoothTimes(t, x, x - t) == t;
    } else {
      forall n: nat
        ensures SmoothTimes(t, x, n) != t
      {
        NeverArrives(t, x, n);
      }
    }
  }

  /** The rates that stand still under a target: the target, and those below it whose gap is too narrow. */
  predicate Rests(t: nat, x: nat) { x == t || (x < t && x * (t - x) < 9 * t + x) }

  lemma RestsExactly(t: nat, x: nat)
    requires t > 0 && x > 0
    ensures Smooth(t, x) == x <==> Rests(t, x)
  {
    SmoothNeverOvershoots(t, x);
    if x < t { RisesExactlyWhen(t, x); }
  }

  /** From below, the rate settles within as many steps as it is away, at a rate that rests short of the target. */
  lemma {:induction false} SettlesBelow(t: nat, x: nat, n: nat)
    requires 0 < x < t && n >= t - x
    ensures SmoothTimes(t, x, n) == SmoothTimes(t, x, t - x) < t && Rests(t, SmoothTimes(t, x, n))
  {
    if n == t - x {
      NeverArrives(t, x, n);
      StillOrHigher(t, x, n);
    } else {
      SettlesBelow(t, x, n - 1);
      RestsExactly(t, SmoothTimes(t, x, n - 1));
    }
  }

  /** After n steps from below the rate rests or has risen by n. */
  lemma {:induction false} StillOrHigher(t: nat, x: nat, n: nat)
    requires 0 < x < t
    ensures Rests(t, SmoothTimes(t, x, n)) || SmoothTimes(t, x, n) >= x + n
  {
    if n > 0 {
      StillOrHigher(t, x, n - 1);
      var before := SmoothTimes(t, x, n - 1);
      NeverArrives(t, x, n - 1);
      RestsExactly(t, before);
      SmoothNeverOvershoots(t, before);
    }
  }

  /** For the bulk target in particular: a rate of at most 326 stays there for ever. */
  lemma {:induction false} BulkSettlesAt326(x: nat, n: nat)
    requires 0 < x <= 326
    ensures x <= SmoothTimes(ITR_12K, x, n) <= 326
  {
    if n > 0 {
      var before := SmoothTimes(ITR_12K, x, n - 1);
      BulkSettlesAt326(x, n - 1);
      SmoothNeverOvershoots(ITR_12K, before);
      SmoothMonotone(ITR_12K, before, 326);
      assert Smooth(ITR_12K, 326) == 326;
    }
  }

  // ---------------------------------------------------------------- the driver

  /** ixgbevf_update_itr's classification by bytes per microsecond. */
  function Classify(c: Container, itr: nat): Container
    requires itr / 4 > 0
  {
    if c.packets == 0 then c
    else
      var rate := c.bytes / (itr / 4);
      var latency := match c.latency
        case Lowest => if rate > 10 then Low else Lowest
        case Low => if rate > 20 then Bulk else if rate <= 10 then Lowest else Low
        case Bulk => if rate <= 20 then Low else Bulk;
      Container(0, 0, latency)
  }

  function Higher(a: Latency, b: Latency): Latency { if a.Rank() > b.Rank() then a else b }

  /** The rate after ixgbevf_set_itr. */
  function NextItr(itr: nat, tx: Container, rx: Container): (r: nat)
    requires InRange(itr)
    ensures InRange(r)
  {
    var t := Higher(Classify(rx, itr).latency, Classify(tx, itr).latency).Target();
    SmoothNeverOvershoots(t, itr);
    if t != itr then Smooth(t, itr) else itr
  }

  /** The class by bytes per microsecond: only a rate of at most 10 makes a container the fastest, only one above 20
      the slowest, and neither at once from the other end; without packets nothing changes. */
  lemma ClassifyByRate(c: Container, itr: nat)
    requires itr / 4 > 0
    ensures var c' := Classify(c, itr);
            && (c.packets == 0 ==> c' == c)
            && (c.packets > 0 ==> c'.bytes == 0 && c'.packets == 0
                                  && (c'.latency == Lowest <==> c.bytes / (itr / 4) <= 10 && c.latency != Bulk)
                                  && (c'.latency == Bulk <==> c.bytes / (itr / 4) > 20 && c.latency != Lowest))
  {
  }

  /** Whatever the class was, two interrupts at a steady rate settle it. */
  lemma SteadyRateSettles(c: Container, itr: nat, bytes: nat, packets: nat, itr': nat, bytes': nat, packets': nat)
    requires itr / 4 > 0 && itr' / 4 > 0 && packets > 0 && packets' > 0
    requires var x, y := bytes / (itr / 4), bytes' / (itr' / 4); (x <= 10 && y <= 10) || (10 < x <= 20 && 10 < y <= 20) || (x > 20 && y > 20)
    ensures var once := Classify(c.(bytes := bytes, packets := packets), itr);
            Classify(once.(bytes := bytes', packets := packets'), itr').latency
            == if bytes / (itr / 4) <= 10 then Lowest else if bytes / (itr / 4) <= 20 then Low else Bulk
  {
    var once := Classify(c.(bytes := bytes, packets := packets), itr);
    ClassifyByRate(c.(bytes := bytes, packets := packets), itr);
    ClassifyByRate(once.(bytes := bytes', packets := packets'), itr');
  }

  /** The rate moves towards the slower container's target: 336 if either is slowest, else 200 if either is in the
      middle, else 40. */
  lemma TargetOfSlower(itr: nat, tx: Container, rx: Container)
    requires InRange(itr)
    ensures var (a, b) := (Classify(tx, itr).latency, Classify(rx, itr).latency);
            var t := if a == Bulk || b == Bulk then 336 else if a == Low || b == Low then 200 else 40;
            NextItr(itr, tx, rx) == if itr == t then itr else 10 * t * itr / (9 * t + itr)
  {
    hide Classify;
  }

  class Vector {
    var itr: nat
    var tx: Container
    var rx: Container

    /** ixgbevf_set_itr, with ixgbevf_update_itr for both containers; the divisor is never zero. */
    method SetItr()
      requires InRange(itr)
      modifies this
      ensures InRange(itr) && itr / 4 >= 10
      ensures itr == NextItr(old(itr), old(tx), old(rx))
      ensures tx == Classify(old(tx), old(itr)) && rx == Classify(old(rx), old(itr))
    {
      ghost var r := NextItr(itr, tx, rx);
      tx := Classify(tx, itr);
      rx := Classify(rx, itr);
      var newItr := Higher(rx.latency, tx.latency).Target();
      if newItr != itr {
        itr := 10 * newItr * itr / (9 * newItr + itr);
      }
    }
  }

  /** The traffic one interrupt finds in the two containers. */
  datatype Load = Load(txBytes: nat, txPackets: nat, rxBytes: nat, rxPackets: nat)

  datatype Rates = Rates(itr: nat, tx: Container, rx: Container)

  ghost function After(s: Rates, loads: seq<Load>): Rates
    requires InRange(s.itr)
    ensures InRange(After(s, loads).itr)
  {
    if loads == [] then s
    else
      var p, l := After(s, loads[..|loads| - 1]), loads[|loads| - 1];
      var tx := p.tx.(bytes := p.tx.bytes + l.txBytes, packets := p.tx.packets + l.txPackets);
      var rx := p.rx.(bytes := p.rx.bytes + l.rxBytes, packets := p.rx.packets + l.rxPackets);
      Rates(NextItr(p.itr, tx, rx), Classify(tx, p.itr), Classify(rx, p.itr))
  }

  /** From either adaptive default, over every run: the rate stays between its extremes and the divisor above zero. */
  lemma RatesStayInRange(start: nat, tx: Container, rx: Container, loads: seq<Load>)
    requires start == ITR_20K || start == ITR_12K
    ensures var r := After(Rates(start, tx, rx), loads).itr; 40 <= r <= 336 && r / 4 >= 10
  {
    assert InRange(After(Rates(start, tx, rx), loads).itr);
  }

  /** Over every run, a rate that has once left the slowest setting never returns to it. */
  lemma {:induction false} NeverBackAtSlowest(s: Rates, loads: seq<Load>)
    requires InRange(s.itr) && s.itr < ITR_12K
    ensures After(s, loads).itr < ITR_12K
  {
    if loads != [] {
      NeverBackAtSlowest(s, loads[..|loads| - 1]);
      var x := After(s, loads[..|loads| - 1]).itr;
      forall t | t == ITR_100K || t == ITR_20K || t == ITR_12K
        ensures t != x ==> Smooth(t, x) < ITR_12K
      {
        SmoothNeverOvershoots(t, x);
      }
    }
  }
}
