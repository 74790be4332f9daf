/** Shared vocabulary: an optional value and sums over sequences. */
module Util {

  datatype Option<+T> = None | Some(value: T)

  /** Sum of a sequence of naturals. */
  function Sum(s: seq<nat>): nat
  {
    if s == [] then 0 else s[0] + Sum(s[1..])
  }

  lemma Regroup<T>(a: seq<T>, b: seq<T>, c: seq<T>)
    ensures (a + b) + c == a + (b + c)
  {
  }

  /** Replacing the first element after `a`. */
  lemma Replace<T>(a: seq<T>, x: T, y: T, b: seq<T>)
    ensures (a + [x] + b)[|a|] == x
    ensures (a + [x] + b)[|a| := y] == a + [y] + b
  {
  }

  /** Truncation to an unsigned 32-bit integer. */
  function U32(x: int): (r: nat)
    ensures r < 0x1_0000_0000
    ensures 0 <= x < 0x1_0000_0000 ==> r == x
  {
    x % 0x1_0000_0000
  }

  lemma AddInU32(a: int, b: int)
    ensures U32(U32(a) + b) == U32(a + b)
  {
  }

  /** Truncation to an unsigned 16-bit integer. */
  function U16(x: nat): (r: nat)
    ensures r < 0x1_0000
    ensures x < 0x1_0000 ==> r == x
  {
    x % 0x1_0000
  }

  lemma AddInU16(a: nat, b: nat)
    ensures U16(U16(a) + b) == U16(a + b)
  {
  }

  /** The slot `o` places after `base` in a ring of `count` slots. */
  function Wrap(base: nat, o: nat, count: nat): (r: nat)
    requires base < count && o <= count
    ensures r < count
  {
    if base + o < count then base + o else base + o - count
  }

  lemma WrapStep(base: nat, o: nat, count: nat)
    requires base < count && o < count
    ensures Wrap(Wrap(base, o, count), 1, count) == Wrap(base, o + 1, count)
  {
  }

  lemma WrapInjective(base: nat, o: nat, o': nat, count: nat)
    requires base < count && o < count && o' < count
    ensures Wrap(base, o, count) == Wrap(base, o', count) <==> o == o'
  {
  }

  /** ixgbevf_desc_unused: from `used` slots after next_to_clean, all but one of the others are free. */
  function DescUnused(nextToClean: nat, nextToUse: nat, count: nat): (free: nat)
    requires nextToClean < count && nextToUse < count
    ensures free < count && nextToUse == Wrap(nextToClean, count - 1 - free, count)
  {
    (if nextToClean > nextToUse then 0 else count) + nextToClean - nextToUse - 1
  }

  /** One slot on, for an index kept as a 32-bit number biased by -count: it wraps when the bias is used up. */
  function Advance(biased: nat, at: nat, count: nat): (r: (nat, nat))
    requires 0 < count <= 0xFFFF && at < count && biased == at + 0x1_0000_0000 - count
    ensures r.1 == Wrap(at, 1, count) && r.0 == r.1 + 0x1_0000_0000 - count
  {
    var i := U32(biased + 1);
    if i == 0 then (U32(i - count), 0) else (i, at + 1)
  }

  /** What Dafny's integer division means, ... */
  lemma Divided(x: nat, m: nat)
    requires m > 0
    ensures x == (x / m) * m + x % m && x % m < m
  {
  }

  /** ... and that nothing else means it. */
  lemma DividedUniquely(x: nat, m: nat, k: nat, r: nat)
    requires m > 0 && x == k * m + r && r < m
    ensures x / m == k && x % m == r
  {
    var d := x / m;
    Divided(x, m);
    assert d < k ==> (d + 1) * m <= k * m;
    assert d > k ==> (k + 1) * m <= d * m;
  }
}
