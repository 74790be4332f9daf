/**
 Extending a hardware counter of 32 or 36 bits, which wraps, to a counter that does not.
 */
module Counters {
  import opened Util

  /** The extended counter and the register value last seen. */
  datatype Counter = Counter(last: nat, counter: nat)

  /** UPDATE_VF_COUNTER_32bit and UPDATE_VF_COUNTER_36bit for a register of `wrap` values. */
  function Update(c: Counter, wrap: nat, current: nat): Counter
    requires wrap > 0
  {
    var counter := if current < c.last then c.counter + wrap else c.counter;
    Counter(current, counter / wrap * wrap + current)
  }

  class VfCounter {
    var last: nat
    var counter: nat

    method Update32(reg: nat)
      requires reg < 0x1_0000_0000
      modifies this
      ensures Counter(last, counter) == Update(Counter(old(last), old(counter)), 0x1_0000_0000, reg)
    {
      if reg < last { counter := counter + 0x1_0000_0000; }
      last := reg;
      counter := counter - counter % 0x1_0000_0000;
      counter := counter + reg;
    }

    method Update36(lsb: nat, msb: nat)
      requires lsb < 0x1_0000_0000 && msb < 16
      modifies this
      ensures Counter(last, counter) == Update(Counter(old(last), old(counter)), 0x10_0000_0000, msb * 0x1_0000_0000 + lsb)
    {
      var current := msb * 0x1_0000_0000 + lsb;
      if current < last { counter := counter + 0x10_0000_0000; }
      last := current;
      counter := counter - counter % 0x10_0000_0000;
      counter := counter + current;
    }
  }

  // ---------------------------------------------------------------- an epoch

  function Total(gaps: seq<nat>): nat
  {
    if gaps == [] then 0 else Total(gaps[..|gaps| - 1]) + gaps[|gaps| - 1]
  }

  /** The whole wraps in x, in events. */
  function Whole(x: nat, wrap: nat): nat
    requires wrap > 0
  {
    x / wrap * wrap
  }

  /** Events in whole wraps that go by unseen between two reads. */
  function Lost(gaps: seq<nat>, wrap: nat): nat
    requires wrap > 0
  {
    if gaps == [] then 0 else Lost(gaps[..|gaps| - 1], wrap) + Whole(gaps[|gaps| - 1], wrap)
  }

  /** The counter after reads with these many events before each; it started at zero when `start` events had happened. */
  function After(start: nat, gaps: seq<nat>, wrap: nat): Counter
    requires wrap > 0
  {
    if gaps == [] then Counter(start % wrap, 0)
    else Update(After(start, gaps[..|gaps| - 1], wrap), wrap, (start + Total(gaps)) % wrap)
  }

  lemma WholeIs(x: nat, wrap: nat, k: nat, r: nat)
    requires wrap > 0 && x == k * wrap + r && r < wrap
    ensures Whole(x, wrap) == k * wrap && x % wrap == r
  {
    DividedUniquely(x, wrap, k, r);
  }

  lemma OneMore(k: nat, wrap: nat)
    ensures (k + 1) * wrap == k * wrap + wrap
  {
  }

  lemma Together(j: nat, k: nat, wrap: nat)
    ensures (j + k) * wrap == j * wrap + k * wrap
  {
  }

  lemma WholeFacts(x: nat, wrap: nat)
    requires wrap > 0
    ensures Whole(x, wrap) + x % wrap == x && 0 <= x % wrap < wrap
    ensures Whole(x, wrap) == 0 <==> x < wrap
    ensures Whole(x + wrap, wrap) == Whole(x, wrap) + wrap
  {
    Divided(x, wrap);
    OneMore(x / wrap, wrap);
    WholeIs(x + wrap, wrap, x / wrap + 1, x % wrap);
    NoneOrMore(x / wrap, wrap);
  }

  lemma NoneOrMore(k: nat, wrap: nat)
    requires wrap > 0
    ensures k * wrap == 0 || k * wrap >= wrap
  {
    if k > 0 { assert (k - 1) * wrap >= 0; }
  }

  lemma WholePlus(x: nat, wrap: nat, r: nat)
    requires wrap > 0 && r < wrap
    ensures Whole(Whole(x, wrap) + r, wrap) == Whole(x, wrap)
  {
    WholeIs(Whole(x, wrap) + r, wrap, x / wrap, r);
  }

  /** The register advances by what is left of the gap after whole wraps. */
  lemma RegisterAdvance(t: nat, gap: nat, wrap: nat)
    requires wrap > 0
    ensures var was, now := t % wrap, (t + gap) % wrap;
            now - was + (if now < was then wrap else 0) == gap - Whole(gap, wrap)
  {
    Divided(t, wrap);
    Divided(gap, wrap);
    Together(t / wrap, gap / wrap, wrap);
    OneMore(t / wrap + gap / wrap, wrap);
    var r := t % wrap + gap % wrap;
    if r < wrap {
      WholeIs(t + gap, wrap, t / wrap + gap / wrap, r);
    } else {
      WholeIs(t + gap, wrap, t / wrap + gap / wrap + 1, r - wrap);
    }
  }

  /** One read adds what the register has advanced. */
  lemma UpdateAdds(c: Counter, wrap: nat, current: nat)
    requires wrap > 0 && current < wrap
    ensures var c' := Update(c, wrap, current);
            && c'.counter == Whole(c.counter, wrap) + current + (if current < c.last then wrap else 0)
            && Whole(c'.counter, wrap) == c'.counter - current
  {
    WholeFacts(c.counter, wrap);
    WholePlus(if current < c.last then c.counter + wrap else c.counter, wrap, current);
  }

  /** The high part and the last register value together have counted every event but whole wraps unseen. */
  lemma {:induction false} HighAndLow(start: nat, gaps: seq<nat>, wrap: nat)
    requires wrap > 0
    ensures var c := After(start, gaps, wrap);
            && c.last == (start + Total(gaps)) % wrap
            && Whole(c.counter, wrap) + c.last - start % wrap == Total(gaps) - Lost(gaps, wrap)
            && (gaps != [] ==> c.counter == Whole(c.counter, wrap) + c.last)
  {
    hide Whole;
    if gaps == [] {
      WholeFacts(0, wrap);
    } else {
      var before, gap := gaps[..|gaps| - 1], gaps[|gaps| - 1];
      var t := start + Total(before);
      HighAndLow(start, before, wrap);
      RegisterAdvance(t, gap, wrap);
      WholeFacts(t + gap, wrap);
      UpdateAdds(After(start, before, wrap), wrap, (t + gap) % wrap);
    }
  }

  /** After any reads of an epoch: counter - base is the number of events, less the wraps that went by unseen. */
  lemma CounterIsEvents(start: nat, gaps: seq<nat>, wrap: nat)
    requires wrap > 0 && gaps != []
    ensures After(start, gaps, wrap).counter - start % wrap == Total(gaps) - Lost(gaps, wrap)
  {
    hide Whole;
    HighAndLow(start, gaps, wrap);
  }

  /** So the count is exact if and only if no gap between two reads reaches a whole wrap. */
  lemma ExactWhenReadOftenEnough(start: nat, gaps: seq<nat>, wrap: nat)
    requires wrap > 0 && gaps != []
    ensures After(start, gaps, wrap).counter - start % wrap == Total(gaps) <==> forall i :: 0 <= i < |gaps| ==> gaps[i] < wrap
  {
    hide Whole;
    CounterIsEvents(start, gaps, wrap);
    LostNothing(gaps, wrap);
  }

  lemma {:induction false} LostNothing(gaps: seq<nat>, wrap: nat)
    requires wrap > 0
    ensures Lost(gaps, wrap) == 0 <==> forall i :: 0 <= i < |gaps| ==> gaps[i] < wrap
  {
    hide Whole;
    if gaps != [] {
      LostNothing(gaps[..|gaps| - 1], wrap);
      WholeFacts(gaps[|gaps| - 1], wrap);
    }
  }
}
