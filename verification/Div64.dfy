/**
 64 by 32 bit division by shift and subtract, as used where the kernel has no do_div.
 */
module Div64 {
  import opened Util
  import opened Bits

  const TWO63: nat := 0x8000_0000_0000_0000
  const TWO64: nat := 0x1_0000_0000_0000_0000

  lemma Distribute(base: nat, a: nat, b: nat)
    ensures (a + b) * base == a * base + base * b
    ensures base * (2 * b) == 2 * (base * b)
  {
  }

  /** The first reduction: whole multiples of base in the high word. */
  lemma HighWord(n: nat, base: nat)
    requires base > 0 && n < TWO64
    ensures var h := n / 0x1_0000_0000 / base;
            && h * base <= n / 0x1_0000_0000 < 0x1_0000_0000
            && n == (h * 0x1_0000_0000) * base + (n - (h * base) * 0x1_0000_0000)
            && 0 <= n - (h * base) * 0x1_0000_0000
  {
    var high := n / 0x1_0000_0000;
    var h := high / base;
    Divided(high, base);
    Swap(h, base);
  }

  lemma Swap(h: nat, base: nat)
    ensures (h * 0x1_0000_0000) * base == (h * base) * 0x1_0000_0000
  {
  }

  /** The divisor is the base doubled k times, and so is the digit worth. */
  ghost predicate Scaled(base: nat, b: nat, d: nat, k: nat)
  {
    b == base * d && d == Pow2(k) && 0 < b < TWO64 && d <= b
  }

  lemma ScaledUp(base: nat, b: nat, d: nat, k: nat)
    requires Scaled(base, b, d, k) && b < TWO63
    ensures Scaled(base, b + b, d + d, k + 1)
  {
    Distribute(base, 0, d);
  }

  lemma ScaledDown(base: nat, b: nat, d: nat, k: nat)
    requires Scaled(base, b, d, k) && k > 0
    ensures Scaled(base, b / 2, d / 2, k - 1) && b == 2 * (b / 2) && d / 2 > 0
  {
    Distribute(base, 0, Pow2(k - 1));
  }

  /** The first loop of _kc__div64_32: double until the divisor reaches the remainder or the top bit. */
  method ScaleUp(rem: nat, base: nat) returns (b: nat, d: nat, ghost k: nat)
    requires 0 < base < 0x1_0000_0000 && rem < TWO64
    ensures Scaled(base, b, d, k) && rem < 2 * b
  {
    b, d, k := base, 1, 0;
    while b < TWO63 && b < rem
      invariant Scaled(base, b, d, k)
      decreases TWO64 - b
    {
      ScaledUp(base, b, d, k);
      b, d, k := b + b, d + d, k + 1;
    }
  }

  /** One round of the second loop: take a digit if it fits, and halve. */
  method Digit(ghost n: nat, base: nat, res: nat, rem: nat, b: nat, d: nat, ghost k: nat) returns (res': nat, rem': nat)
    requires n == res * base + rem && Scaled(base, b, d, k) && rem < 2 * b
    ensures n == res' * base + rem' && rem' < b
  {
    res', rem' := res, rem;
    if rem >= b {
      Distribute(base, res, d);
      rem', res' := rem - b, res + d;
    }
  }

  /** The second loop: subtract and halve until the digit is used up. */
  method ScaleDown(ghost n: nat, base: nat, res0: nat, rem0: nat, b0: nat, d0: nat, ghost k0: nat) returns (res: nat, rem: nat)
    requires n == res0 * base + rem0 && Scaled(base, b0, d0, k0) && rem0 < 2 * b0
    ensures n == res * base + rem && rem < base
  {
    res, rem := res0, rem0;
    var b: nat, d: nat := b0, d0;
    ghost var k: nat := k0;
    while d > 0
      invariant n == res * base + rem
      invariant d > 0 ==> Scaled(base, b, d, k) && rem < 2 * b
      invariant d == 0 ==> rem < base
      decreases d
    {
      res, rem := Digit(n, base, res, rem, b, d, k);
      if k > 0 { ScaledDown(base, b, d, k); }
      b, d := b / 2, d / 2;
      k := if k > 0 then k - 1 else 0;
    }
  }

  /** _kc__div64_32: quotient and remainder, with no intermediate result beyond 64 bits. */
  method DivRem(n: nat, base: nat) returns (res: nat, rem: nat)
    requires n < TWO64 && 0 < base < 0x1_0000_0000
    ensures n == res * base + rem && rem < base
    ensures res == n / base && rem == n % base
  {
    rem, res := n, 0;
    var high := n / 0x1_0000_0000;
    if high >= base {
      HighWord(n, base);
      high := high / base;
      res := high * 0x1_0000_0000;
      rem := rem - (high * base) * 0x1_0000_0000;
    }
    var b, d; ghost var k;
    b, d, k := ScaleUp(rem, base);
    res, rem := ScaleDown(n, base, res, rem, b, d, k);
    DividedUniquely(n, base, res, rem);
  }
}
