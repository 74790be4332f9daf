/**
 Tables of packed fields: what the compile-time checks of neighbouring entries promise about the whole table,
 and packing a structure into a buffer and back.
 */
module PackedFields {
  import opened Bits
  import opened Packing

  /** One table entry: the field's bits in the buffer, and its member's place in the structure. */
  datatype Entry = Entry(startbit: nat, endbit: nat, offset: nat, size: nat)
  {
    function Width(): int { startbit - endbit + 1 }
    predicate Covers(n: nat) { endbit <= n <= startbit }
  }

  // ---------------------------------------------------------------- the compile-time checks

  /** CHECK_PACKED_FIELD without the overlap part. */
  predicate EntryOk(e: Entry)
  {
    && e.startbit >= e.endbit
    && (e.size == 1 || e.size == 2 || e.size == 4 || e.size == 8)
    && e.startbit - e.endbit < 8 * e.size
  }

  /** CHECK_PACKED_FIELD_OVERLAP for entries i - 1 and i; the order of the first two sets the direction. */
  predicate NeighboursOk(t: seq<Entry>, i: nat)
    requires 0 < i < |t|
  {
    var f1, f2 := t[i - 1], t[i];
    var ascending := t[0].startbit < t[1].startbit;
    && !(ascending && f1.startbit >= f2.startbit)
    && !(!ascending && f1.startbit <= f2.startbit)
    && !((if f1.endbit > f2.endbit then f1.endbit else f2.endbit) <= (if f1.startbit < f2.startbit then f1.startbit else f2.startbit))
  }

  /** CHECK_PACKED_FIELDS and CHECK_PACKED_FIELDS_SIZE: each entry, each neighbouring pair, and the two ends. */
  predicate Checked(t: seq<Entry>, len: nat)
  {
    && |t| > 0
    && (forall i :: 0 <= i < |t| ==> EntryOk(t[i]))
    && (forall i :: 0 < i < |t| ==> NeighboursOk(t, i))
    && t[0].startbit < 8 * len && t[|t| - 1].startbit < 8 * len
  }

  predicate Disjoint(a: Entry, b: Entry) { a.startbit < b.endbit || b.startbit < a.endbit }

  /** What the checks stand for: every entry in range, any two disjoint, and the table sorted one way or the other. */
  predicate Sound(t: seq<Entry>, len: nat)
  {
    && |t| > 0
    && (forall i :: 0 <= i < |t| ==> EntryOk(t[i]) && t[i].startbit < 8 * len)
    && (forall i, j :: 0 <= i < j < |t| ==> Disjoint(t[i], t[j]))
    && ((forall i, j :: 0 <= i < j < |t| ==> t[i].startbit < t[j].startbit)
        || (forall i, j :: 0 <= i < j < |t| ==> t[i].startbit > t[j].startbit))
  }

  lemma {:induction false} AscendingFrom(t: seq<Entry>, len: nat, i: nat, j: nat)
    requires Checked(t, len) && i < j < |t| && t[0].startbit < t[1].startbit
    ensures t[i].startbit < t[j].endbit <= t[j].startbit
  {
    assert NeighboursOk(t, j) && EntryOk(t[j]) && EntryOk(t[j - 1]);
    if i < j - 1 {
      AscendingFrom(t, len, i, j - 1);
    }
  }

  lemma {:induction false} DescendingFrom(t: seq<Entry>, len: nat, i: nat, j: nat)
    requires Checked(t, len) && i < j < |t| && t[0].startbit >= t[1].startbit
    ensures t[j].startbit < t[i].endbit <= t[i].startbit
  {
    assert NeighboursOk(t, j) && EntryOk(t[i]) && EntryOk(t[j]) && EntryOk(t[j - 1]);
    if i < j - 1 {
      DescendingFrom(t, len, i, j - 1);
    }
  }

  lemma CheckedIsSound(t: seq<Entry>, len: nat)
    requires Checked(t, len)
    ensures Sound(t, len)
  {
    if |t| > 1 && t[0].startbit < t[1].startbit {
      forall i, j | 0 <= i < j < |t|
        ensures Disjoint(t[i], t[j]) && t[i].startbit < t[j].startbit
      {
        AscendingFrom(t, len, i, j);
      }
    } else {
      forall i, j | 0 <= i < j < |t|
        ensures Disjoint(t[i], t[j]) && t[i].startbit > t[j].startbit
      {
        DescendingFrom(t, len, i, j);
      }
    }
  }

  /** Checking neighbours is checking the table. */
  lemma CheckedExactly(t: seq<Entry>, len: nat)
    ensures Checked(t, len) <==> Sound(t, len)
  {
    if Checked(t, len) {
      CheckedIsSound(t, len);
    } else if Sound(t, len) {
      forall i | 0 < i < |t|
        ensures NeighboursOk(t, i)
      {
        assert Disjoint(t[i - 1], t[i]) && EntryOk(t[i - 1]) && EntryOk(t[i]);
        assert t[0].startbit < t[1].startbit <==> t[i - 1].startbit < t[i].startbit;
      }
    }
  }

  // ---------------------------------------------------------------- the structure

  /** The bytes of a member: one, two or four, and eight for any other size. */
  function Bytes(size: nat): (n: nat) { if size == 1 || size == 2 || size == 4 then size else 8 }

  predicate InStruct(mem: seq<U8>, e: Entry) { e.offset + Bytes(e.size) <= |mem| }

  /** ustruct_field_to_u64, on a little-endian machine. */
  function Load(mem: seq<U8>, e: Entry): (v: U64)
    requires InStruct(mem, e)
    ensures forall i :: 0 <= i < 64 ==> v[i] == (i < 8 * Bytes(e.size) && mem[e.offset + i / 8][i % 8])
  {
    seq(64, i requires 0 <= i < 64 => i < 8 * Bytes(e.size) && mem[e.offset + i / 8][i % 8])
  }

  /** u64_to_ustruct_field, on a little-endian machine. */
  method Store(mem: array<U8>, e: Entry, v: U64)
    requires InStruct(mem[..], e)
    modifies mem
    ensures forall i :: 0 <= i < 64 ==> Load(mem[..], e)[i] == (i < 8 * Bytes(e.size) && v[i])
    ensures forall a :: 0 <= a < mem.Length && !(e.offset <= a < e.offset + Bytes(e.size)) ==> mem[a] == old(mem[a])
  {
    var b := 0;
    while b < Bytes(e.size)
      invariant 0 <= b <= Bytes(e.size)
      invariant forall c :: 0 <= c < b ==> mem[e.offset + c] == v[8 * c..8 * c + 8]
      invariant forall a :: 0 <= a < mem.Length && !(e.offset <= a < e.offset + b) ==> mem[a] == old(mem[a])
    {
      mem[e.offset + b] := v[8 * b..8 * b + 8];
      b := b + 1;
    }
    forall i | 0 <= i < 64
      ensures Load(mem[..], e)[i] == (i < 8 * Bytes(e.size) && v[i])
    {
      if i < 8 * Bytes(e.size) {
        assert mem[e.offset + i / 8] == v[8 * (i / 8)..8 * (i / 8) + 8];
      }
    }
  }

  // ---------------------------------------------------------------- pack_fields

  ghost predicate Usable(t: seq<Entry>, len: nat, mem: seq<U8>, q: Quirks)
  {
    Addressable(len, q) && Checked(t, len) && forall i :: 0 <= i < |t| ==> InStruct(mem, t[i])
  }

  /** The buffer shows `v` in the bits of entry e. */
  ghost predicate Shows(buf: seq<U8>, q: Quirks, e: Entry, v: U64)
    requires Addressable(|buf|, q) && Field(|buf|, e.startbit, e.endbit)
  {
    forall n :: e.endbit <= n <= e.startbit ==> Logical(buf, q, n) == v[n - e.endbit]
  }

  lemma EntryIsField(t: seq<Entry>, len: nat, i: nat)
    requires Checked(t, len) && i < |t|
    ensures Field(len, t[i].startbit, t[i].endbit) && t[i].Width() <= 8 * Bytes(t[i].size)
  {
    CheckedIsSound(t, len);
    assert EntryOk(t[i]);
  }

  ghost predicate Shown(now: seq<U8>, mem: seq<U8>, t: seq<Entry>, q: Quirks, i: nat)
    requires i < |t|
  {
    Addressable(|now|, q) && Field(|now|, t[i].startbit, t[i].endbit) && InStruct(mem, t[i]) && Shows(now, q, t[i], Load(mem, t[i]))
  }

  ghost predicate Untouched(was: seq<U8>, now: seq<U8>, t: seq<Entry>, q: Quirks, k: nat, n: nat)
    requires |now| == |was| && Addressable(|was|, q) && n < 8 * |was| && k <= |t|
  {
    (forall i :: 0 <= i < k ==> !t[i].Covers(n)) ==> Logical(now, q, n) == Logical(was, q, n)
  }

  /** The first k entries are packed: each shows its member's value, and no bit outside them has changed. */
  ghost predicate FieldsPacked(was: seq<U8>, now: seq<U8>, mem: seq<U8>, t: seq<Entry>, q: Quirks, k: nat)
  {
    && |now| == |was| && Addressable(|was|, q) && k <= |t|
    && (forall i :: 0 <= i < k ==> Shown(now, mem, t, q, i))
    && (forall n :: 0 <= n < 8 * |was| ==> Untouched(was, now, t, q, k, n))
  }

  /** An entry packed before is not disturbed by a later one. */
  lemma StillShown(now: seq<U8>, now': seq<U8>, mem: seq<U8>, t: seq<Entry>, q: Quirks, i: nat, k: nat, v: U64)
    requires i < |t| && k < |t| && Disjoint(t[i], t[k]) && Shown(now, mem, t, q, i)
    requires Packed(now, now', v, t[k].startbit, t[k].endbit, q)
    ensures Shown(now', mem, t, q, i)
  {
    hide Logical;
  }

  lemma PackOneMore(was: seq<U8>, now: seq<U8>, now': seq<U8>, mem: seq<U8>, t: seq<Entry>, q: Quirks, k: nat)
    requires Usable(t, |was|, mem, q) && k < |t| && FieldsPacked(was, now, mem, t, q, k)
    requires Packed(now, now', Load(mem, t[k]), t[k].startbit, t[k].endbit, q)
    ensures FieldsPacked(was, now', mem, t, q, k + 1)
  {
    hide Logical, Load, BoxAddr;
    CheckedIsSound(t, |was|);
    var next := k + 1;
    forall i | 0 <= i < next
      ensures Shown(now', mem, t, q, i)
    {
      if i < k {
        assert Disjoint(t[i], t[k]);
        StillShown(now, now', mem, t, q, i, k, Load(mem, t[k]));
      } else {
        EntryIsField(t, |was|, k);
      }
    }
    forall n | 0 <= n < 8 * |was|
      ensures Untouched(was, now', t, q, next, n)
    {
      StillUntouched(was, now, now', t, q, k, n, Load(mem, t[k]));
    }
  }

  lemma StillUntouched(was: seq<U8>, now: seq<U8>, now': seq<U8>, t: seq<Entry>, q: Quirks, k: nat, n: nat, v: U64)
    requires |now| == |was| && Addressable(|was|, q) && n < 8 * |was| && k < |t| && Untouched(was, now, t, q, k, n)
    requires Packed(now, now', v, t[k].startbit, t[k].endbit, q)
    ensures Untouched(was, now', t, q, k + 1, n)
  {
    hide Logical;
    if forall i :: 0 <= i < k + 1 ==> !t[i].Covers(n) {
      assert !t[k].Covers(n);
    }
  }

  /** pack_fields_u8 and pack_fields_u16, for a table that passed its checks. */
  method PackFields(buf: array<U8>, mem: array<U8>, t: seq<Entry>, q: Quirks)
    requires buf != mem && Usable(t, buf.Length, mem[..], q)
    modifies buf
    ensures FieldsPacked(old(buf[..]), buf[..], mem[..], t, q, |t|)
  {
    for k := 0 to |t|
      invariant FieldsPacked(old(buf[..]), buf[..], mem[..], t, q, k)
    {
      EntryIsField(t, buf.Length, k);
      ghost var now := buf[..];
      PackBits(buf, Load(mem[..], t[k]), t[k].startbit, t[k].endbit, q);
      PackOneMore(old(buf[..]), now, buf[..], mem[..], t, q, k);
    }
  }

  // ---------------------------------------------------------------- unpack_fields

  predicate Inside(e: Entry, a: nat) { e.offset <= a < e.offset + Bytes(e.size) }

  /** Members of a structure do not share bytes. */
  predicate Apart(a: Entry, b: Entry) { a.offset + Bytes(a.size) <= b.offset || b.offset + Bytes(b.size) <= a.offset }

  ghost predicate Got(buf: seq<U8>, mem: seq<U8>, t: seq<Entry>, q: Quirks, i: nat)
    requires i < |t|
  {
    InStruct(mem, t[i]) && Unpacked(buf, Load(mem, t[i]), t[i].startbit, t[i].endbit, q)
  }

  /** The first k members hold what the buffer shows; no byte outside them has changed. */
  ghost predicate FieldsUnpacked(buf: seq<U8>, was: seq<U8>, now: seq<U8>, t: seq<Entry>, q: Quirks, k: nat)
  {
    && |now| == |was| && k <= |t|
    && (forall i :: 0 <= i < k ==> Got(buf, now, t, q, i))
    && (forall a :: 0 <= a < |was| ==> (forall i :: 0 <= i < k ==> !Inside(t[i], a)) ==> now[a] == was[a])
  }

  lemma SameBytes(m1: seq<U8>, m2: seq<U8>, e: Entry)
    requires InStruct(m1, e) && InStruct(m2, e) && forall a :: e.offset <= a < e.offset + Bytes(e.size) ==> m1[a] == m2[a]
    ensures Load(m1, e) == Load(m2, e)
  {
    forall i | 0 <= i < 64 ensures Load(m1, e)[i] == Load(m2, e)[i] {
      if i < 8 * Bytes(e.size) { assert m1[e.offset + i / 8] == m2[e.offset + i / 8]; }
    }
  }

  lemma UnpackOneMore(buf: seq<U8>, was: seq<U8>, now: seq<U8>, now': seq<U8>, t: seq<Entry>, q: Quirks, k: nat, v: U64)
    requires Usable(t, |buf|, was, q) && k < |t| && FieldsUnpacked(buf, was, now, t, q, k) && |now'| == |was|
    requires forall i :: 0 <= i < k ==> Apart(t[i], t[k])
    requires Unpacked(buf, v, t[k].startbit, t[k].endbit, q)
    requires InStruct(now', t[k]) && forall i :: 0 <= i < 64 ==> Load(now', t[k])[i] == (i < 8 * Bytes(t[k].size) && v[i])
    requires forall a :: 0 <= a < |was| && !Inside(t[k], a) ==> now'[a] == now[a]
    ensures FieldsUnpacked(buf, was, now', t, q, k + 1)
  {
    EntryIsField(t, |buf|, k);
    assert Load(now', t[k]) == v;
    forall i | 0 <= i < k + 1
      ensures Got(buf, now', t, q, i)
    {
      if i < k {
        assert Got(buf, now, t, q, i) && Apart(t[i], t[k]);
        assert forall a :: t[i].offset <= a < t[i].offset + Bytes(t[i].size) ==> !Inside(t[k], a);
        SameBytes(now, now', t[i]);
      }
    }
    forall a | 0 <= a < |was| && forall i :: 0 <= i < k + 1 ==> !Inside(t[i], a)
      ensures now'[a] == was[a]
    {
      assert !Inside(t[k], a);
    }
  }

  /** unpack_fields_u8 and unpack_fields_u16, for a table that passed its checks. */
  method UnpackFields(buf: array<U8>, mem: array<U8>, t: seq<Entry>, q: Quirks)
    requires buf != mem && Usable(t, buf.Length, mem[..], q) && forall i, j :: 0 <= i < j < |t| ==> Apart(t[i], t[j])
    modifies mem
    ensures FieldsUnpacked(buf[..], old(mem[..]), mem[..], t, q, |t|)
  {
    for k := 0 to |t|
      invariant FieldsUnpacked(buf[..], old(mem[..]), mem[..], t, q, k)
    {
      EntryIsField(t, buf.Length, k);
      ghost var now := mem[..];
      var v := UnpackBits(buf, t[k].startbit, t[k].endbit, q);
      Store(mem, t[k], v);
      UnpackOneMore(buf[..], old(mem[..]), now, mem[..], t, q, k, v);
    }
  }

  /** Packing a structure and unpacking it into another restores every member, cut to its field's width. */
  lemma FieldsRoundTrip(was: seq<U8>, buf: seq<U8>, mem: seq<U8>, mem0: seq<U8>, mem1: seq<U8>, t: seq<Entry>, q: Quirks, i: nat)
    requires Usable(t, |was|, mem, q) && i < |t|
    requires FieldsPacked(was, buf, mem, t, q, |t|) && FieldsUnpacked(buf, mem0, mem1, t, q, |t|)
    ensures InStruct(mem1, t[i]) && t[i].Width() > 0
    ensures Load(mem1, t[i]) == Low(Load(mem, t[i]), t[i].Width())
    ensures Value(Load(mem, t[i])) < Pow2(t[i].Width()) ==> Load(mem1, t[i]) == Load(mem, t[i])
  {
    hide Logical, Value, Pow2, Load;
    EntryIsField(t, |was|, i);
    assert Shown(buf, mem, t, q, i) && Got(buf, mem1, t, q, i);
    var v, got, w := Load(mem, t[i]), Load(mem1, t[i]), t[i].Width();
    forall j | 0 <= j < 64
      ensures got[j] == (j < w && v[j])
    {
      if j < w { assert Logical(buf, q, t[i].endbit + j) == v[t[i].endbit + j - t[i].endbit]; }
    }
    if Value(v) < Pow2(w) { FitsMeansLow(v, w); }
  }

  /** A value below two to the width has no bit beyond it. */
  lemma FitsMeansLow(v: U64, width: nat)
    requires width <= 64 && Value(v) < Pow2(width)
    ensures Low(v, width) == v
  {
    forall i | width <= i < 64
      ensures !v[i]
    {
      if v[i] {
        BitAtLeast(v, i);
        Pow2Grows(width, i);
        assert false;
      }
    }
  }
}
