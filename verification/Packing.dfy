/**
 Packing up to 64 bits anywhere into a byte buffer, under eight layouts, and reading them back.
 */
module Packing {
  import opened Util
  import opened Bits

  // ---------------------------------------------------------------- addresses

  datatype Quirks = Quirks(msbRight: bool, littleEndian: bool, lsw32First: bool)

  /** Truncation to size_t. */
  function Size(x: int): (r: nat)
    ensures r < 0x1_0000_0000_0000_0000
    ensures 0 <= x < 0x1_0000_0000_0000_0000 ==> r == x
    ensures -0x1_0000_0000_0000_0000 <= x < 0 ==> r == x + 0x1_0000_0000_0000_0000
    ensures 0x1_0000_0000_0000_0000 <= x < 0x2_0000_0000_0000_0000 ==> r == x - 0x1_0000_0000_0000_0000
  {
    x % 0x1_0000_0000_0000_0000
  }

  /** calculate_box_addr: where logical byte `box` of a `len` byte number is stored. */
  function BoxAddr(box: nat, len: nat, q: Quirks): nat
    requires box < len <= 0x1000_0000
  {
    var group := box / 4;
    var offsetOfGroup := if q.lsw32First then Size(group * 4) else Size(len - (group + 1) * 4);
    var left := Size(len - offsetOfGroup);
    var groupSize := if 4 < left then 4 else left;
    var offsetInGroup := if q.littleEndian then Size(box - group * 4) else Size(groupSize - (box - group * 4) - 1);
    Size(offsetOfGroup + offsetInGroup)
  }

  /** The layouts whose byte addresses stay inside the buffer. */
  predicate Addressable(len: nat, q: Quirks)
  {
    len <= 0x1000_0000 && (q.lsw32First || !q.littleEndian || len % 4 == 0)
  }

  /** Without quirks the most significant byte comes first. */
  lemma BoxAddrBigEndian(box: nat, len: nat, msbRight: bool)
    requires box < len <= 0x1000_0000
    ensures BoxAddr(box, len, Quirks(msbRight, false, false)) == len - 1 - box
  {
  }

  /** The other addressable layouts, with no wrap-around left: byte `in` of group `g`. */
  lemma BoxAddrIs(g: nat, in4: nat, len: nat, q: Quirks)
    requires in4 < 4 && 4 * g + in4 < len && Addressable(len, q) && (q.lsw32First || q.littleEndian)
    ensures BoxAddr(4 * g + in4, len, q)
         == if !q.lsw32First then len - 4 * (g + 1) + in4
            else if q.littleEndian then 4 * g + in4
            else if len - 4 * g < 4 then len - 1 - in4 else 4 * g + 3 - in4
  {
  }

  /** The address is in the buffer, and the address of the address is the byte again. */
  ghost predicate Returns(box: nat, len: nat, q: Quirks)
    requires box < len <= 0x1000_0000
  {
    BoxAddr(box, len, q) < len && BoxAddr(BoxAddr(box, len, q), len, q) == box
  }

  lemma ReturnsMsw(g: nat, in4: nat, groups: nat, box: nat, len: nat, q: Quirks)
    requires in4 < 4 && g < groups && 4 * groups <= 0x1000_0000 && q.littleEndian && !q.lsw32First
    requires box == 4 * g + in4 && len == 4 * groups
    ensures Returns(box, len, q)
  {
    hide BoxAddr;
    BoxAddrIs(g, in4, 4 * groups, q);
    BoxAddrIs(groups - 1 - g, in4, 4 * groups, q);
  }

  lemma ReturnsLittleEndian(g: nat, in4: nat, box: nat, len: nat, q: Quirks)
    requires in4 < 4 && box == 4 * g + in4 < len <= 0x1000_0000 && q.lsw32First && q.littleEndian
    ensures Returns(box, len, q)
  {
    hide BoxAddr;
    BoxAddrIs(g, in4, len, q);
  }

  /** Bytes swap places within their group, which may be short. */
  lemma ReturnsLsw(g: nat, in4: nat, box: nat, len: nat, q: Quirks)
    requires in4 < 4 && box == 4 * g + in4 < len <= 0x1000_0000 && q.lsw32First && !q.littleEndian
    ensures Returns(box, len, q)
  {
    hide BoxAddr;
    BoxAddrIs(g, in4, len, q);
    var back := if len - 4 * g < 4 then len - 1 - in4 - 4 * g else 3 - in4;
    assert BoxAddr(box, len, q) == 4 * g + back;
    BoxAddrIs(g, back, len, q);
  }

  lemma ReturnsBigEndian(box: nat, len: nat, q: Quirks)
    requires box < len <= 0x1000_0000 && !q.littleEndian && !q.lsw32First
    ensures Returns(box, len, q)
  {
    hide BoxAddr;
    BoxAddrBigEndian(box, len, q.msbRight);
    BoxAddrBigEndian(len - 1 - box, len, q.msbRight);
  }

  /** In an addressable layout the address map is its own inverse. */
  lemma BoxAddrInvolution(box: nat, len: nat, q: Quirks)
    requires box < len && Addressable(len, q)
    ensures Returns(box, len, q)
  {
    var g, in4 := box / 4, box % 4;
    if q.lsw32First {
      if q.littleEndian { ReturnsLittleEndian(g, in4, box, len, q); } else { ReturnsLsw(g, in4, box, len, q); }
    } else if q.littleEndian {
      ReturnsMsw(g, in4, len / 4, box, len, q);
    } else {
      ReturnsBigEndian(box, len, q);
    }
  }

  lemma BoxAddrInjective(a: nat, b: nat, len: nat, q: Quirks)
    requires a < len && b < len && Addressable(len, q)
    ensures BoxAddr(a, len, q) == BoxAddr(b, len, q) <==> a == b
  {
    BoxAddrInvolution(a, len, q);
    BoxAddrInvolution(b, len, q);
  }

  /** A bijection on the buffer's bytes, by an explicit inverse. */
  ghost predicate Bijective(len: nat, q: Quirks)
    requires len <= 0x1000_0000
  {
    forall box :: 0 <= box < len ==> Returns(box, len, q)
  }

  /** Little-endian groups, most significant first, in a length that is no multiple of 4: the first byte of the
      short group falls outside the buffer.  Every other layout is a bijection. */
  lemma AddressableExactly(len: nat, q: Quirks)
    requires len <= 0x1000_0000
    ensures Bijective(len, q) <==> Addressable(len, q)
  {
    if Addressable(len, q) {
      forall box | 0 <= box < len
        ensures Returns(box, len, q)
      {
        BoxAddrInvolution(box, len, q);
      }
    } else {
      var box := len / 4 * 4;
      assert BoxAddr(box, len, q) >= len && !Returns(box, len, q);
    }
  }

  // ---------------------------------------------------------------- logical bits

  /** Bit j of logical byte `box`, wherever the layout keeps it. */
  function Bit(buf: seq<U8>, q: Quirks, box: nat, j: nat): bool
    requires box < |buf| && Addressable(|buf|, q) && j < 8
  {
    BoxAddrInvolution(box, |buf|, q);
    buf[BoxAddr(box, |buf|, q)][if q.msbRight then 7 - j else j]
  }

  /** Logical bit n of the buffer, seen as one long number. */
  function Logical(buf: seq<U8>, q: Quirks, n: nat): bool
    requires n < 8 * |buf| && Addressable(|buf|, q)
  {
    Bit(buf, q, n / 8, n % 8)
  }

  /** The field: up to 64 logical bits, startbit down to endbit, inside the buffer. */
  predicate Field(len: nat, startbit: nat, endbit: nat)
  {
    endbit <= startbit < 8 * len && startbit - endbit < 64
  }

  /** What one byte of the field gets: bits hi down to lo, from `uval` starting at bit `from`. */
  function PackByte(byte: U8, uval: U64, hi: nat, lo: nat, from: nat, msbRight: bool): U8
    requires lo <= hi < 8 && from + (hi - lo) < 64
  {
    var projected := Shl(Shr(And(uval, Mask(64, from + (hi - lo), from)), from), lo)[..8];
    var mask := Mask(8, hi, lo);
    if msbRight then Or(And(byte, Not(Reverse(mask))), Reverse(projected))
    else Or(And(byte, Not(mask)), projected)
  }

  lemma PackByteBit(byte: U8, uval: U64, hi: nat, lo: nat, from: nat, msbRight: bool, j: nat)
    requires lo <= hi < 8 && from + (hi - lo) < 64 && j < 8
    ensures var p := if msbRight then 7 - j else j;
            PackByte(byte, uval, hi, lo, from, msbRight)[p] == if lo <= j <= hi then uval[from + (j - lo)] else byte[p]
  {
    var mask := Mask(8, hi, lo);
    var projected := Shl(Shr(And(uval, Mask(64, from + (hi - lo), from)), from), lo)[..8];
    assert mask[j] == (lo <= j <= hi);
    assert projected[j] == (lo <= j <= hi && uval[from + (j - lo)]);
    if msbRight {
      assert Reverse(mask)[7 - j] == mask[j] && Reverse(projected)[7 - j] == projected[j];
    }
  }

  /** What one byte of the field contributes to the value. */
  function UnpackByte(byte: U8, uval: U64, hi: nat, lo: nat, from: nat, msbRight: bool): U64
    requires lo <= hi < 8 && from + (hi - lo) < 64
  {
    var masked := And(if msbRight then Reverse(byte) else byte, Mask(8, hi, lo));
    var pval := Shl(Shr(masked + seq(56, _ => false), lo), from);
    Or(And(uval, Not(Mask(64, from + (hi - lo), from))), pval)
  }

  lemma UnpackByteBit(byte: U8, uval: U64, hi: nat, lo: nat, from: nat, msbRight: bool, i: nat)
    requires lo <= hi < 8 && from + (hi - lo) < 64 && i < 64
    ensures UnpackByte(byte, uval, hi, lo, from, msbRight)[i]
         == if from <= i <= from + (hi - lo) then byte[if msbRight then 7 - (i - from + lo) else i - from + lo] else uval[i]
  {
  }

  // ---------------------------------------------------------------- one byte of the field

  function Hi(startbit: nat, box: nat): nat { if box == startbit / 8 then startbit % 8 else 7 }

  function Lo(endbit: nat, box: nat): nat { if box == endbit / 8 then endbit % 8 else 0 }

  /** Where byte `box` of the field meets the value. */
  lemma BoxLimits(len: nat, startbit: nat, endbit: nat, box: nat)
    requires Field(len, startbit, endbit) && endbit / 8 <= box <= startbit / 8
    ensures box < len && Lo(endbit, box) <= Hi(startbit, box) < 8
    ensures 0 <= 8 * box + Lo(endbit, box) - endbit && 8 * box + Hi(startbit, box) - endbit < 64
    ensures forall j :: 0 <= j < 8 ==> (Lo(endbit, box) <= j <= Hi(startbit, box) <==> InField(startbit, endbit, box, j))
  {
  }

  predicate InField(startbit: nat, endbit: nat, box: nat, j: nat) { endbit <= 8 * box + j <= startbit }

  /** Bit j of byte `box` after the bytes from `lowest` up have been packed. */
  predicate PackedBit(was: seq<U8>, now: seq<U8>, uval: U64, startbit: nat, endbit: nat, q: Quirks, lowest: int, box: nat, j: nat)
    requires |now| == |was| && Addressable(|was|, q) && Field(|was|, startbit, endbit) && box < |was| && j < 8
  {
    var n := 8 * box + j;
    Bit(now, q, box, j) == if lowest <= box && InField(startbit, endbit, box, j) then uval[n - endbit] else Bit(was, q, box, j)
  }

  ghost predicate PackedFrom(was: seq<U8>, now: seq<U8>, uval: U64, startbit: nat, endbit: nat, q: Quirks, lowest: int)
  {
    && |now| == |was| && Addressable(|was|, q) && Field(|was|, startbit, endbit)
    && forall box, j :: 0 <= box < |was| && 0 <= j < 8 ==> PackedBit(was, now, uval, startbit, endbit, q, lowest, box, j)
  }

  /** Packing one more byte. */
  lemma PackedStep(was: seq<U8>, now: seq<U8>, uval: U64, startbit: nat, endbit: nat, q: Quirks, box: nat)
    requires PackedFrom(was, now, uval, startbit, endbit, q, box + 1) && endbit / 8 <= box <= startbit / 8
    ensures box < |now| && BoxAddr(box, |now|, q) < |now| && Lo(endbit, box) <= Hi(startbit, box) < 8
    ensures 0 <= 8 * box + Lo(endbit, box) - endbit && 8 * box + Hi(startbit, box) - endbit < 64
    ensures var at := BoxAddr(box, |now|, q);
            var byte := PackByte(now[at], uval, Hi(startbit, box), Lo(endbit, box), 8 * box + Lo(endbit, box) - endbit, q.msbRight);
            PackedFrom(was, now[at := byte], uval, startbit, endbit, q, box)
  {
    hide BoxAddr, Hi, Lo;
    BoxLimits(|was|, startbit, endbit, box);
    BoxAddrInvolution(box, |now|, q);
    var hi, lo, at := Hi(startbit, box), Lo(endbit, box), BoxAddr(box, |now|, q);
    var now' := now[at := PackByte(now[at], uval, hi, lo, 8 * box + lo - endbit, q.msbRight)];
    forall b, j | 0 <= b < |was| && 0 <= j < 8
      ensures PackedBit(was, now', uval, startbit, endbit, q, box, b, j)
    {
      assert PackedBit(was, now, uval, startbit, endbit, q, box + 1, b, j);
      assert b == box ==> (lo <= j <= hi <==> InField(startbit, endbit, box, j));
      ByteBit(now, uval, hi, lo, 8 * box + lo - endbit, q, box, b, j);
    }
  }

  /** Overwriting one byte changes the bits of its logical byte only. */
  lemma ByteBit(now: seq<U8>, uval: U64, hi: nat, lo: nat, from: nat, q: Quirks, box: nat, b: nat, j: nat)
    requires Addressable(|now|, q) && box < |now| && b < |now| && lo <= hi < 8 && from + (hi - lo) < 64 && j < 8
    ensures BoxAddr(box, |now|, q) < |now|
    ensures var at := BoxAddr(box, |now|, q);
            Bit(now[at := PackByte(now[at], uval, hi, lo, from, q.msbRight)], q, b, j)
            == if b == box && lo <= j <= hi then uval[from + (j - lo)] else Bit(now, q, b, j)
  {
    hide BoxAddr;
    BoxAddrInvolution(box, |now|, q);
    BoxAddrInvolution(b, |now|, q);
    BoxAddrInjective(b, box, |now|, q);
    PackByteBit(now[BoxAddr(box, |now|, q)], uval, hi, lo, from, q.msbRight, j);
  }

  // ---------------------------------------------------------------- pack and unpack

  datatype Status = Success | Einval | Erange

  /** The buffer after packing: the field holds the value, every other logical bit is untouched. */
  ghost predicate Packed(was: seq<U8>, now: seq<U8>, uval: U64, startbit: nat, endbit: nat, q: Quirks)
  {
    && |now| == |was| && Addressable(|was|, q) && Field(|was|, startbit, endbit)
    && forall n :: 0 <= n < 8 * |was| ==>
         Logical(now, q, n) == if endbit <= n <= startbit then uval[n - endbit] else Logical(was, q, n)
  }

  /** The value read: the field's bits, then zeros. */
  ghost predicate Unpacked(buf: seq<U8>, uval: U64, startbit: nat, endbit: nat, q: Quirks)
  {
    && Addressable(|buf|, q) && Field(|buf|, startbit, endbit)
    && forall i :: 0 <= i < 64 ==> uval[i] == (endbit + i <= startbit && Logical(buf, q, endbit + i))
  }

  lemma PackedAll(was: seq<U8>, now: seq<U8>, uval: U64, startbit: nat, endbit: nat, q: Quirks)
    requires PackedFrom(was, now, uval, startbit, endbit, q, endbit / 8)
    ensures Packed(was, now, uval, startbit, endbit, q)
  {
    forall n | 0 <= n < 8 * |was|
      ensures Logical(now, q, n) == if endbit <= n <= startbit then uval[n - endbit] else Logical(was, q, n)
    {
      assert PackedBit(was, now, uval, startbit, endbit, q, endbit / 8, n / 8, n % 8);
      assert n == 8 * (n / 8) + n % 8;
    }
  }

  /** __pack. */
  method PackBits(buf: array<U8>, uval: U64, startbit: nat, endbit: nat, q: Quirks)
    requires Addressable(buf.Length, q) && Field(buf.Length, startbit, endbit)
    modifies buf
    ensures Packed(old(buf[..]), buf[..], uval, startbit, endbit, q)
  {
    hide BoxAddr, Hi, Lo;
    var box: int := startbit / 8;
    while box >= endbit / 8
      invariant endbit / 8 - 1 <= box <= startbit / 8
      invariant PackedFrom(old(buf[..]), buf[..], uval, startbit, endbit, q, box + 1)
    {
      PackedStep(old(buf[..]), buf[..], uval, startbit, endbit, q, box);
      var hi, lo := Hi(startbit, box), Lo(endbit, box);
      var at := BoxAddr(box, buf.Length, q);
      ghost var mid := buf[..];
      buf[at] := PackByte(buf[at], uval, hi, lo, 8 * box + lo - endbit, q.msbRight);
      assert buf[..] == mid[at := buf[at]];
      box := box - 1;
    }
    PackedAll(old(buf[..]), buf[..], uval, startbit, endbit, q);
  }

  /** pack. */
  method Pack(buf: array<U8>, uval: U64, startbit: nat, endbit: nat, q: Quirks) returns (status: Status)
    requires Addressable(buf.Length, q)
    modifies buf
    ensures status == if startbit < endbit || startbit >= 8 * buf.Length then Einval
                      else if startbit - endbit >= 64 then Erange else Success
    ensures if status.Success? then Packed(old(buf[..]), buf[..], uval, startbit, endbit, q) else buf[..] == old(buf[..])
  {
    if startbit < endbit || startbit >= 8 * buf.Length { return Einval; }
    if startbit - endbit >= 64 { return Erange; }
    PackBits(buf, uval, startbit, endbit, q);
    return Success;
  }

  predicate UnpackedBit(buf: seq<U8>, uval: U64, startbit: nat, endbit: nat, q: Quirks, lowest: int, i: nat)
    requires Addressable(|buf|, q) && Field(|buf|, startbit, endbit) && i < 64
  {
    uval[i] == (8 * lowest <= endbit + i <= startbit && Logical(buf, q, endbit + i))
  }

  ghost predicate UnpackedFrom(buf: seq<U8>, uval: U64, startbit: nat, endbit: nat, q: Quirks, lowest: int)
  {
    && Addressable(|buf|, q) && Field(|buf|, startbit, endbit)
    && forall i :: 0 <= i < 64 ==> UnpackedBit(buf, uval, startbit, endbit, q, lowest, i)
  }

  /** Unpacking one more byte. */
  lemma UnpackedStep(buf: seq<U8>, uval: U64, startbit: nat, endbit: nat, q: Quirks, box: nat)
    requires UnpackedFrom(buf, uval, startbit, endbit, q, box + 1) && endbit / 8 <= box <= startbit / 8
    ensures box < |buf| && BoxAddr(box, |buf|, q) < |buf| && Lo(endbit, box) <= Hi(startbit, box) < 8
    ensures 0 <= 8 * box + Lo(endbit, box) - endbit && 8 * box + Hi(startbit, box) - endbit < 64
    ensures UnpackedFrom(buf, UnpackByte(buf[BoxAddr(box, |buf|, q)], uval, Hi(startbit, box), Lo(endbit, box),
                                         8 * box + Lo(endbit, box) - endbit, q.msbRight), startbit, endbit, q, box)
  {
    hide BoxAddr, Hi, Lo;
    BoxLimits(|buf|, startbit, endbit, box);
    BoxAddrInvolution(box, |buf|, q);
    var hi, lo, byte := Hi(startbit, box), Lo(endbit, box), buf[BoxAddr(box, |buf|, q)];
    var from := 8 * box + lo - endbit;
    var uval' := UnpackByte(byte, uval, hi, lo, from, q.msbRight);
    forall i | 0 <= i < 64
      ensures UnpackedBit(buf, uval', startbit, endbit, q, box, i)
    {
      assert UnpackedBit(buf, uval, startbit, endbit, q, box + 1, i);
      UnpackByteBit(byte, uval, hi, lo, from, q.msbRight, i);
      var j := endbit + i - 8 * box;
      assert 0 <= j < 8 ==> (InField(startbit, endbit, box, j) <==> endbit + i <= startbit);
      if from <= i <= from + (hi - lo) {
        assert (endbit + i) / 8 == box && (endbit + i) % 8 == i - from + lo;
      }
    }
  }

  lemma UnpackedAll(buf: seq<U8>, uval: U64, startbit: nat, endbit: nat, q: Quirks)
    requires UnpackedFrom(buf, uval, startbit, endbit, q, endbit / 8)
    ensures Unpacked(buf, uval, startbit, endbit, q)
  {
    forall i | 0 <= i < 64
      ensures uval[i] == (endbit + i <= startbit && Logical(buf, q, endbit + i))
    {
      assert UnpackedBit(buf, uval, startbit, endbit, q, endbit / 8, i);
    }
  }

  /** __unpack. */
  method UnpackBits(buf: array<U8>, startbit: nat, endbit: nat, q: Quirks) returns (uval: U64)
    requires Addressable(buf.Length, q) && Field(buf.Length, startbit, endbit)
    ensures Unpacked(buf[..], uval, startbit, endbit, q)
  {
    hide BoxAddr, Hi, Lo, Logical, UnpackByte;
    uval := seq(64, _ => false);
    var box: int := startbit / 8;
    while box >= endbit / 8
      invariant endbit / 8 - 1 <= box <= startbit / 8
      invariant UnpackedFrom(buf[..], uval, startbit, endbit, q, box + 1)
    {
      UnpackedStep(buf[..], uval, startbit, endbit, q, box);
      var hi, lo := Hi(startbit, box), Lo(endbit, box);
      var at := BoxAddr(box, buf.Length, q);
      uval := UnpackByte(buf[at], uval, hi, lo, 8 * box + lo - endbit, q.msbRight);
      box := box - 1;
    }
    UnpackedAll(buf[..], uval, startbit, endbit, q);
  }

  /** unpack; the value is there only on success. */
  method Unpack(buf: array<U8>, startbit: nat, endbit: nat, q: Quirks) returns (status: Status, uval: U64)
    requires Addressable(buf.Length, q)
    ensures status == if startbit < endbit || startbit >= 8 * buf.Length then Einval
                      else if startbit - endbit >= 64 then Erange else Success
    ensures status.Success? ==> Unpacked(buf[..], uval, startbit, endbit, q)
  {
    uval := seq(64, _ => false);
    if startbit < endbit || startbit >= 8 * buf.Length { return Einval, uval; }
    if startbit - endbit + 1 > 64 { return Erange, uval; }
    uval := UnpackBits(buf, startbit, endbit, q);
    return Success, uval;
  }

  // ---------------------------------------------------------------- round trip

  /** The low `width` bits of a word. */
  function Low(uval: U64, width: nat): (r: U64)
    ensures forall i :: 0 <= i < 64 ==> r[i] == (i < width && uval[i])
  {
    if width == 0 then seq(64, _ => false) else And(uval, Mask(64, width - 1, 0))
  }

  /** Unpacking what was packed gives the value back, cut to the field's width. */
  lemma RoundTrip(was: seq<U8>, now: seq<U8>, uval: U64, got: U64, startbit: nat, endbit: nat, q: Quirks)
    requires Packed(was, now, uval, startbit, endbit, q) && Unpacked(now, got, startbit, endbit, q)
    ensures got == Low(uval, startbit - endbit + 1)
  {
    hide Logical;
    forall i | 0 <= i < 64
      ensures got[i] == (i < startbit - endbit + 1 && uval[i])
    {
      if endbit + i <= startbit {
        assert Logical(now, q, endbit + i) == uval[i];
      }
    }
  }

  /** A field that shares no bit with the one packed reads the same before and after. */
  lemma OtherFieldsUntouched(was: seq<U8>, now: seq<U8>, uval: U64, startbit: nat, endbit: nat, start2: nat, end2: nat,
                             before: U64, after: U64, q: Quirks)
    requires Packed(was, now, uval, startbit, endbit, q)
    requires Unpacked(was, before, start2, end2, q) && Unpacked(now, after, start2, end2, q)
    requires start2 < endbit || startbit < end2
    ensures after == before
  {
    hide Logical;
    forall i | 0 <= i < 64
      ensures after[i] == before[i]
    {
      if end2 + i <= start2 {
        assert Logical(now, q, end2 + i) == Logical(was, q, end2 + i);
      }
    }
  }

  /** Together the logical bits are the whole buffer: packing determines every byte. */
  lemma PackedIsUnique(was: seq<U8>, now1: seq<U8>, now2: seq<U8>, uval: U64, startbit: nat, endbit: nat, q: Quirks)
    requires Packed(was, now1, uval, startbit, endbit, q) && Packed(was, now2, uval, startbit, endbit, q)
    ensures now1 == now2
  {
    hide BoxAddr;
    forall a | 0 <= a < |was|
      ensures now1[a] == now2[a]
    {
      BoxAddrInvolution(a, |was|, q);
      var box := BoxAddr(a, |was|, q);
      BoxAddrInvolution(box, |was|, q);
      forall p | 0 <= p < 8
        ensures now1[a][p] == now2[a][p]
      {
        var n := 8 * box + if q.msbRight then 7 - p else p;
        assert Logical(now1, q, n) == Logical(now2, q, n);
      }
    }
  }

  /** As a number, the low bits of a word are the word modulo two to their count. */
  lemma LowModulo(uval: U64, width: nat)
    requires width <= 64
    ensures Value(Low(uval, width)) == Value(uval) % Pow2(width)
  {
    var k := LowValue(uval, Low(uval, width), width);
    hide Low, Value, Pow2;
    Swapped(Pow2(width), k);
    DividedUniquely(Value(uval), Pow2(width), k, Value(Low(uval, width)));
  }

  lemma Swapped(a: nat, b: nat)
    ensures a * b == b * a
  {
  }

  /** As numbers: a packed value comes back modulo two to the width of its field. */
  lemma RoundTripModulo(was: seq<U8>, now: seq<U8>, uval: U64, got: U64, startbit: nat, endbit: nat, q: Quirks)
    requires Packed(was, now, uval, startbit, endbit, q) && Unpacked(now, got, startbit, endbit, q)
    ensures Value(got) == Value(uval) % Pow2(startbit - endbit + 1)
  {
    hide BoxAddr, Bit, Logical, Addressable, Value, Pow2, Low;
    RoundTrip(was, now, uval, got, startbit, endbit, q);
    LowModulo(uval, startbit - endbit + 1);
  }
}
