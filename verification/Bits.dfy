/**
 Bytes and words as sequences of bits, least significant first, so that masks, shifts and bit reversal mean
 what they mean in C; and the numbers they stand for.
 */
module Bits {

  type U8 = s: seq<bool> | |s| == 8 witness [false, false, false, false, false, false, false, false]
  type Word = s: seq<bool> | |s| == 32 witness seq(32, _ => false)
  type U64 = s: seq<bool> | |s| == 64 witness seq(64, _ => false)

  function And(a: seq<bool>, b: seq<bool>): (r: seq<bool>)
    requires |a| == |b|
    ensures |r| == |a| && forall i :: 0 <= i < |r| ==> r[i] == (a[i] && b[i])
  {
    seq(|a|, i requires 0 <= i < |a| => a[i] && b[i])
  }

  function Or(a: seq<bool>, b: seq<bool>): (r: seq<bool>)
    requires |a| == |b|
    ensures |r| == |a| && forall i :: 0 <= i < |r| ==> r[i] == (a[i] || b[i])
  {
    seq(|a|, i requires 0 <= i < |a| => a[i] || b[i])
  }

  function Not(a: seq<bool>): (r: seq<bool>)
    ensures |r| == |a| && forall i :: 0 <= i < |r| ==> r[i] == !a[i]
  {
    seq(|a|, i requires 0 <= i < |a| => !a[i])
  }

  function Shl(a: seq<bool>, n: nat): (r: seq<bool>)
    ensures |r| == |a| && forall i :: 0 <= i < |r| ==> r[i] == (i >= n && a[i - n])
  {
    seq(|a|, i requires 0 <= i < |a| => i >= n && a[i - n])
  }

  function Shr(a: seq<bool>, n: nat): (r: seq<bool>)
    ensures |r| == |a| && forall i :: 0 <= i < |r| ==> r[i] == (i + n < |a| && a[i + n])
  {
    seq(|a|, i requires 0 <= i < |a| => i + n < |a| && a[i + n])
  }

  /** GENMASK(hi, lo) in `width` bits. */
  function Mask(width: nat, hi: nat, lo: nat): (r: seq<bool>)
    ensures |r| == width && forall i :: 0 <= i < |r| ==> r[i] == (lo <= i <= hi)
  {
    seq(width, i => lo <= i <= hi)
  }

  /** bitrev8. */
  function Reverse(a: U8): (r: U8)
    ensures forall i :: 0 <= i < 8 ==> r[i] == a[7 - i]
  {
    [a[7], a[6], a[5], a[4], a[3], a[2], a[1], a[0]]
  }

  // ---------------------------------------------------------------- as numbers

  function Pow2(n: nat): (r: nat)
    ensures r > 0
  {
    if n == 0 then 1 else 2 * Pow2(n - 1)
  }

  /** The number a bit string stands for. */
  function Value(bits: seq<bool>): nat
  {
    if bits == [] then 0 else (if bits[0] then 1 else 0) + 2 * Value(bits[1..])
  }

  lemma {:induction false} LowValue(bits: seq<bool>, low: seq<bool>, width: nat) returns (k: nat)
    requires |low| == |bits| && width <= |bits| && forall i :: 0 <= i < |bits| ==> low[i] == (i < width && bits[i])
    ensures Value(bits) == Value(low) + Pow2(width) * k
    ensures Value(low) < Pow2(width)
  {
    if width == 0 {
      Zeros(low);
      k := Value(bits);
    } else {
      k := LowValue(bits[1..], low[1..], width - 1);
      Doubled(Pow2(width - 1), k);
    }
  }

  lemma Doubled(p: nat, k: nat)
    ensures 2 * (p * k) == (2 * p) * k
  {
  }

  lemma {:induction false} Zeros(bits: seq<bool>)
    requires forall i :: 0 <= i < |bits| ==> !bits[i]
    ensures Value(bits) == 0
  {
    if bits != [] {
      Zeros(bits[1..]);
    }
  }

  lemma {:induction false} BitAtLeast(bits: seq<bool>, i: nat)
    requires i < |bits| && bits[i]
    ensures Value(bits) >= Pow2(i)
  {
    if i > 0 {
      BitAtLeast(bits[1..], i - 1);
    }
  }

  lemma {:induction false} Pow2Grows(a: nat, b: nat)
    requires a <= b
    ensures Pow2(a) <= Pow2(b)
  {
    if a < b {
      Pow2Grows(a, b - 1);
    }
  }

  /** The low `n` bits of a number. */
  function ToBits(v: nat, n: nat): (r: seq<bool>)
    ensures |r| == n
  {
    if n == 0 then [] else [v % 2 == 1] + ToBits(v / 2, n - 1)
  }

  lemma {:induction false} ValueToBits(v: nat, n: nat)
    requires v < Pow2(n)
    ensures Value(ToBits(v, n)) == v
  {
    if n > 0 {
      ValueToBits(v / 2, n - 1);
      assert ToBits(v, n)[1..] == ToBits(v / 2, n - 1);
    }
  }
}
