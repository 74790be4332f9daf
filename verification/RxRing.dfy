/**
 The receive ring as the driver keeps it: two arrays and three wrapping indices.  Every method is proved to
 perform the step of RxSpec or RxPolls that bears its name.
 */
module RxRings {
  import opened Util
  import opened RxSpec
  import opened RxPolls

  datatype RxBuffer = RxBuffer(page: Option<nat>, half: bool, bias: nat)

  /** The address software posts, which a write-back erases, and the length hardware writes. */
  datatype RxDesc = RxDesc(addr: Option<Ref>, length: nat)

  const ZEROED := RxBuffer(None, false, 0)

  // ---------------------------------------------------------------- representation

  /** Slot o after `base`: the ring holds its buffer or it is empty, hardware sees it, or it is next_to_use. */
  ghost predicate SlotOk(bufs: seq<RxBuffer>, descs: seq<RxDesc>, base: nat, held: seq<Buf>, posted: nat, lo: nat, o: nat)
    requires base < |bufs| == |descs| && posted <= |held| <= |bufs| && o < |bufs|
  {
    var i := Wrap(base, o, |bufs|);
    && (if lo <= o < |held| then bufs[i] == RxBuffer(Some(held[o].page), held[o].half, held[o].bias) else bufs[i].page == None)
    && (lo <= o < posted ==> descs[i].length == held[o].len && (held[o].len == 0 ==> descs[i].addr == Some(held[o].Half())))
    && (o == posted ==> descs[i].length == 0)
  }

  ghost predicate Laid(bufs: seq<RxBuffer>, descs: seq<RxDesc>, base: nat, held: seq<Buf>, posted: nat, lo: nat)
  {
    && base < |bufs| == |descs| && posted <= |held| <= |bufs|
    && forall o :: 0 <= o < |bufs| ==> SlotOk(bufs, descs, base, held, posted, lo, o)
  }

  lemma LaidAt(bufs: seq<RxBuffer>, descs: seq<RxDesc>, base: nat, held: seq<Buf>, posted: nat, o: nat)
    requires Laid(bufs, descs, base, held, posted, 0) && o < |held|
    ensures bufs[Wrap(base, o, |bufs|)] == RxBuffer(Some(held[o].page), held[o].half, held[o].bias)
    ensures o < posted ==> descs[Wrap(base, o, |bufs|)].length == held[o].len
    ensures o < posted && held[o].len == 0 ==> descs[Wrap(base, o, |bufs|)].addr == Some(held[o].Half())
  {
    assert SlotOk(bufs, descs, base, held, posted, 0, o);
  }

  lemma LaidEnd(bufs: seq<RxBuffer>, descs: seq<RxDesc>, base: nat, held: seq<Buf>, posted: nat)
    requires Laid(bufs, descs, base, held, posted, 0) && |held| < |bufs|
    ensures descs[Wrap(base, posted, |bufs|)].length == 0
    ensures bufs[Wrap(base, |held|, |bufs|)].page == None
  {
    assert SlotOk(bufs, descs, base, held, posted, 0, posted);
    assert SlotOk(bufs, descs, base, held, posted, 0, |held|);
  }

  /** A buffer record changes together with what is said about it. */
  lemma LaidBuffer(bufs: seq<RxBuffer>, descs: seq<RxDesc>, base: nat, held: seq<Buf>, posted: nat, o: nat, b: Buf)
    requires Laid(bufs, descs, base, held, posted, 0) && o < |held| && b.len == held[o].len != 0
    ensures Laid(bufs[Wrap(base, o, |bufs|) := RxBuffer(Some(b.page), b.half, b.bias)], descs, base, held[o := b], posted, 0)
  {
    var bufs', held' := bufs[Wrap(base, o, |bufs|) := RxBuffer(Some(b.page), b.half, b.bias)], held[o := b];
    forall k | 0 <= k < |bufs'|
      ensures SlotOk(bufs', descs, base, held', posted, 0, k)
    {
      assert SlotOk(bufs, descs, base, held, posted, 0, k);
      WrapInjective(base, k, o, |bufs|);
    }
  }

  /** Hardware completes a posted descriptor: a length appears and the address is gone. */
  lemma LaidComplete(bufs: seq<RxBuffer>, descs: seq<RxDesc>, base: nat, held: seq<Buf>, posted: nat, o: nat, len: nat)
    requires Laid(bufs, descs, base, held, posted, 0) && o < posted && len != 0
    ensures Laid(bufs, descs[Wrap(base, o, |bufs|) := RxDesc(None, len)], base, held[o := held[o].(len := len)], posted, 0)
  {
    var descs', held' := descs[Wrap(base, o, |bufs|) := RxDesc(None, len)], held[o := held[o].(len := len)];
    forall k | 0 <= k < |bufs|
      ensures SlotOk(bufs, descs', base, held', posted, 0, k)
    {
      assert SlotOk(bufs, descs, base, held, posted, 0, k);
      WrapInjective(base, k, o, |bufs|);
    }
  }

  /** An empty slot receives a buffer. */
  lemma LaidAppend(bufs: seq<RxBuffer>, descs: seq<RxDesc>, base: nat, held: seq<Buf>, posted: nat, b: Buf)
    requires Laid(bufs, descs, base, held, posted, 0) && |held| < |bufs|
    ensures Laid(bufs[Wrap(base, |held|, |bufs|) := RxBuffer(Some(b.page), b.half, b.bias)], descs, base, held + [b], posted, 0)
  {
    var bufs', held' := bufs[Wrap(base, |held|, |bufs|) := RxBuffer(Some(b.page), b.half, b.bias)], held + [b];
    forall k | 0 <= k < |bufs'|
      ensures SlotOk(bufs', descs, base, held', posted, 0, k)
    {
      assert SlotOk(bufs, descs, base, held, posted, 0, k);
      WrapInjective(base, k, |held|, |bufs|);
    }
  }

  /** Posting the buffer at next_to_use: its address goes in, and the next descriptor's length is cleared. */
  lemma LaidPost(bufs: seq<RxBuffer>, descs: seq<RxDesc>, base: nat, held: seq<Buf>, posted: nat)
    requires Laid(bufs, descs, base, held, posted, 0) && posted < |held| < |bufs| && held[posted].len == 0
    ensures var i, j := Wrap(base, posted, |bufs|), Wrap(base, posted + 1, |bufs|);
            var mid := descs[i := descs[i].(addr := Some(held[posted].Half()))];
            Laid(bufs, mid[j := mid[j].(length := 0)], base, held, posted + 1, 0)
  {
    var i, j := Wrap(base, posted, |bufs|), Wrap(base, posted + 1, |bufs|);
    var mid := descs[i := descs[i].(addr := Some(held[posted].Half()))];
    var descs', next := mid[j := mid[j].(length := 0)], posted + 1;
    forall k | 0 <= k < |bufs|
      ensures SlotOk(bufs, descs', base, held, next, 0, k)
    {
      assert SlotOk(bufs, descs, base, held, posted, 0, k);
      WrapInjective(base, k, posted, |bufs|);
      WrapInjective(base, k, posted + 1, |bufs|);
    }
  }

  /** The slot at next_to_clean is emptied. */
  lemma LaidEmpty(bufs: seq<RxBuffer>, descs: seq<RxDesc>, base: nat, held: seq<Buf>, posted: nat)
    requires Laid(bufs, descs, base, held, posted, 0) && posted > 0
    ensures Laid(bufs[base := bufs[base].(page := None)], descs, base, held, posted, 1)
  {
    var bufs' := bufs[base := bufs[base].(page := None)];
    forall k | 0 <= k < |bufs'|
      ensures SlotOk(bufs', descs, base, held, posted, 1, k)
    {
      assert SlotOk(bufs, descs, base, held, posted, 0, k);
      WrapInjective(base, k, 0, |bufs|);
    }
  }

  /** next_to_clean moves past an emptied slot. */
  lemma LaidNext(bufs: seq<RxBuffer>, descs: seq<RxDesc>, base: nat, held: seq<Buf>, posted: nat)
    requires Laid(bufs, descs, base, held, posted, 1) && 0 < posted < |bufs|
    ensures Laid(bufs, descs, Wrap(base, 1, |bufs|), held[1..], posted - 1, 0)
  {
    var n, base', rest, left := |bufs|, Wrap(base, 1, |bufs|), held[1..], posted - 1;
    forall k | 0 <= k < n
      ensures SlotOk(bufs, descs, base', rest, left, 0, k)
    {
      var k' := if k + 1 < n then k + 1 else 0;
      assert Wrap(base', k, n) == Wrap(base, k', n);
      assert SlotOk(bufs, descs, base, held, posted, 1, k');
    }
  }

  class RxRing {
    const count: nat
    const restock: nat
    const buf: array<RxBuffer>
    const desc: array<RxDesc>
    var nextToClean: nat
    var nextToUse: nat
    var nextToAlloc: nat

    // The rest of the kernel: page reference counts, and the references held outside the driver.
    var refs: map<nat, nat>
    var outs: map<Ref, nat>
    var pinned: Option<Ref>
    ghost var st: RxState

    ghost predicate Shape()
      reads this
    {
      && 3 <= count <= 0xFFFF && buf.Length == count && desc.Length == count && 1 <= restock <= USHRT_MAX
      && st.refs == refs && st.outs == outs && st.pinned == pinned && Inv(st, count)
    }

    /** The arrays are right, whatever next_to_use and next_to_alloc say. */
    ghost predicate Core()
      reads this, buf, desc
    {
      Shape() && nextToClean < count && Laid(buf[..], desc[..], nextToClean, st.held, st.posted, 0)
    }

    ghost predicate Valid()
      reads this, buf, desc
    {
      Core() && nextToUse == Wrap(nextToClean, st.posted, count) && nextToAlloc == Wrap(nextToClean, |st.held|, count)
    }

    /** After clean_rx_ring: nothing is held, the arrays are stale. */
    ghost predicate Down()
      reads this
    {
      Shape() && st.held == [] && st.posted == 0 && st.phase.Ready? && nextToClean == nextToUse == nextToAlloc == 0
    }

    /** The length sentinel: next_to_use and every posted, uncompleted descriptor read 0, and the latter carry the
        address of a half nobody outside the driver references. */
    lemma PostedDescriptors(o: nat)
      requires Valid() && o < st.posted && st.held[o].len == 0
      ensures desc[nextToUse].length == 0
      ensures desc[Wrap(nextToClean, o, count)].length == 0
      ensures desc[Wrap(nextToClean, o, count)].addr == Some(st.held[o].Half()) && At(outs, st.held[o].Half()) == 0
    {
      LaidAt(buf[..], desc[..], nextToClean, st.held, st.posted, o);
      LaidEnd(buf[..], desc[..], nextToClean, st.held, st.posted);
      assert Counted(st, o);
    }

    /** Exactly the slots from next_to_clean up to next_to_alloc hold a page. */
    lemma SlotsHoldingPages(o: nat)
      requires Valid() && o < count
      ensures buf[Wrap(nextToClean, o, count)].page.Some? <==> o < |st.held|
    {
      assert SlotOk(buf[..], desc[..], nextToClean, st.held, st.posted, 0, o);
    }

    // -------------------------------------------------------------- the environment

    /** The stack drops or duplicates a reference. */
    method StackStep(r: Ref, dup: bool)
      requires Valid()
      modifies this`refs, this`outs, this`st
      ensures Valid() && st == EnvStep(old(st), if dup then Dup(r) else Free(r))
    {
      EnvKeepsInv(st, count, if dup then Dup(r) else Free(r));
      st := EnvStep(st, if dup then Dup(r) else Free(r));
      var visible := At(outs, r) - if pinned == Some(r) then 1 else 0;
      if visible > 0 && (dup || At(refs, r.page) > 0) {
        outs := outs[r := if dup then At(outs, r) + 1 else At(outs, r) - 1];
        refs := refs[r.page := if dup then At(refs, r.page) + 1 else At(refs, r.page) - 1];
      }
    }

    /** Hardware completes the k-th posted descriptor. */
    method HardwareStep(k: nat, len: nat)
      requires Valid()
      modifies this`st, desc
      ensures Valid() && st == EnvStep(old(st), Completes(k, len))
    {
      EnvKeepsInv(st, count, Completes(k, len));
      if k < count - 1 - DescUnused(nextToClean, nextToUse, count) {
        var i := if nextToClean + k < count then nextToClean + k else nextToClean + k - count;
        LaidAt(buf[..], desc[..], nextToClean, st.held, st.posted, k);
        if desc[i].length == 0 && len != 0 {
          LaidComplete(buf[..], desc[..], nextToClean, st.held, st.posted, k, len);
          desc[i] := RxDesc(None, len);
          assert desc[..] == old(desc[..])[i := RxDesc(None, len)];
        }
        assert len == 0 && st.held[k].len == 0 ==> st.held[k := st.held[k].(len := 0)] == st.held;
      }
      st := EnvStep(st, Completes(k, len));
    }

    method Outside(es: seq<Env>)
      requires Valid()
      modifies this`refs, this`outs, this`st, desc
      ensures Valid() && st == Envs(old(st), es)
    {
      for n := 0 to |es|
        invariant Valid() && st == Envs(old(st), es[..n])
      {
        assert es[..n + 1][..n] == es[..n];
        match es[n] {
          case Free(r) => StackStep(r, false);
          case Dup(r) => StackStep(r, true);
          case Completes(k, len) => HardwareStep(k, len);
        }
      }
      assert es[..|es|] == es;
    }

    // -------------------------------------------------------------- filling

    /** ixgbevf_alloc_mapped_page for the slot at next_to_use: keep the recycled page or take a new one. */
    method AllocMappedPage(at: nat, page: Option<nat>) returns (ok: bool)
      requires Core() && st.phase.Ready? && st.posted < count - 1 && at == Wrap(nextToClean, st.posted, count)
      modifies this`refs, this`st, buf
      ensures Core()
      ensures ok == FillOne(old(st), page).1
      ensures ok ==> st.(posted := st.posted + 1) == FillOne(old(st), page).0 && st.posted == old(st.posted) < |st.held|
      ensures !ok ==> st == old(st)
    {
      ghost var s0 := st;
      if st.posted < |st.held| {
        LaidAt(buf[..], desc[..], nextToClean, st.held, st.posted, st.posted);
      } else {
        LaidEnd(buf[..], desc[..], nextToClean, st.held, st.posted);
      }
      if buf[at].page.Some? { return true; }
      if page.None? || At(refs, page.value) != 0 { return false; }
      assert st.posted == |st.held|;
      NewPageKeepsInv(st, count, page.value);
      LaidAppend(buf[..], desc[..], nextToClean, st.held, st.posted, Buf(page.value, false, 1, 0));
      refs := refs[page.value := 1];
      buf[at] := RxBuffer(page, false, 1);
      assert buf[..] == old(buf[..])[at := RxBuffer(page, false, 1)];
      st := st.(held := st.held + [Buf(page.value, false, 1, 0)], refs := refs);
      return true;
    }

    /** One round of ixgbevf_alloc_rx_buffers. */
    method FillRound(at: nat, page: Option<nat>) returns (ok: bool)
      requires Core() && st.phase.Ready? && st.posted < count - 1 && at == Wrap(nextToClean, st.posted, count)
      modifies this`refs, this`st, buf, desc
      ensures Core()
      ensures (st, ok) == FillOne(old(st), page)
    {
      ok := AllocMappedPage(at, page);
      if ok { PostAt(at); }
    }

    method PostAt(at: nat)
      requires Core() && st.phase.Ready? && st.posted < |st.held| && at == Wrap(nextToClean, st.posted, count)
      modifies this`st, desc
      ensures Core()
      ensures st == old(st).(posted := old(st.posted) + 1)
    {
      LaidAt(buf[..], desc[..], nextToClean, st.held, st.posted, st.posted);
      assert Counted(st, st.posted);
      LaidPost(buf[..], desc[..], nextToClean, st.held, st.posted);
      PostKeepsInv(st, count);
      WrapStep(nextToClean, st.posted, count);
      var next := if at + 1 == count then 0 else at + 1;
      desc[at] := desc[at].(addr := Some(Ref(buf[at].page.value, buf[at].half)));
      ghost var mid := desc[..];
      assert mid == old(desc[..])[at := desc[at]];
      desc[next] := desc[next].(length := 0);
      assert desc[..] == mid[next := desc[next]];
      st := st.(posted := st.posted + 1);
    }

    /** ixgbevf_alloc_rx_buffers; `pages` is what the page allocator offers, round by round. */
    method AllocRxBuffers(cleaned: nat, pages: seq<Option<nat>>)
      requires Valid() && st.phase.Ready? && Budgeted(st, count, cleaned)
      modifies this`nextToUse, this`nextToAlloc, this`refs, this`st, buf, desc
      ensures Valid()
      ensures st == FillFrom(old(st), pages, 0, cleaned)
      ensures st.posted == |st.held|
    {
      if cleaned == 0 { return; }
      var i := FillLoop(cleaned, pages);
      PublishFill(U32(i + count), old(st));
    }

    /** The loop of ixgbevf_alloc_rx_buffers, until the slots are filled or a page cannot be had. */
    method FillLoop(cleaned: nat, pages: seq<Option<nat>>) returns (i: nat)
      requires Core() && st.phase.Ready? && Budgeted(st, count, cleaned) && nextToUse == Wrap(nextToClean, st.posted, count)
      modifies this`refs, this`st, buf, desc
      ensures Core()
      ensures i == Wrap(nextToClean, st.posted, count) + 0x1_0000_0000 - count
      ensures st == FillFrom(old(st), pages, 0, cleaned) && st.posted == |st.held|
      ensures st.posted == old(st).posted ==> st == old(st)
    {
      var at, k, ok := nextToUse, 0, true;
      i := U32(nextToUse - count);
      while k < cleaned && ok
        invariant Core() && st.phase.Ready? && k <= cleaned && st.posted == old(st.posted) + k
        invariant at == Wrap(nextToClean, st.posted, count) && i == at + 0x1_0000_0000 - count
        invariant ok ==> Budgeted(st, count, cleaned - k) && FillFrom(st, pages, k, cleaned) == FillFrom(old(st), pages, 0, cleaned)
        invariant !ok ==> st.posted == |st.held| && st == FillFrom(old(st), pages, 0, cleaned)
        invariant k == 0 ==> st == old(st)
        decreases cleaned - k, ok
      {
        FillOneKeepsInv(st, count, Offer(pages, k));
        WrapStep(nextToClean, st.posted, count);
        ok := FillRound(at, if k < |pages| then pages[k] else None);
        if ok {
          var step := Advance(i, at, count);
          i, at, k := step.0, step.1, k + 1;
        }
      }
    }

    /** The end of ixgbevf_alloc_rx_buffers: both indices move, if anything was posted. */
    method PublishFill(i: nat, ghost s0: RxState)
      requires Core() && i == Wrap(nextToClean, st.posted, count) && st.posted == |st.held|
      requires s0.posted < count && |s0.held| < count && nextToUse == Wrap(nextToClean, s0.posted, count) && nextToAlloc == Wrap(nextToClean, |s0.held|, count)
      requires s0.posted == st.posted ==> st == s0
      modifies this`nextToUse, this`nextToAlloc
      ensures Valid()
    {
      WrapInjective(nextToClean, st.posted, s0.posted, count);
      if nextToUse != i {
        nextToUse, nextToAlloc := i, i;
      }
    }

    // -------------------------------------------------------------- one buffer

    /** Overwrite the record at next_to_clean. */
    method SetFront(b: RxBuffer, ghost h: Buf)
      requires Core() && st.posted > 0 && h.len == st.held[0].len != 0 && b == RxBuffer(Some(h.page), h.half, h.bias)
      modifies buf
      ensures Laid(buf[..], desc[..], nextToClean, st.held[0 := h], st.posted, 0)
    {
      LaidBuffer(buf[..], desc[..], nextToClean, st.held, st.posted, 0, h);
      buf[nextToClean] := b;
      assert buf[..] == old(buf[..])[nextToClean := b];
    }

    /** The length at next_to_clean: zero unless hardware completed that very slot. */
    method PeekLength() returns (size: nat)
      requires Valid()
      ensures size != 0 <==> Arrived(st)
      ensures Arrived(st) ==> size == st.held[0].len
    {
      if st.posted > 0 {
        LaidAt(buf[..], desc[..], nextToClean, st.held, st.posted, 0);
      } else {
        LaidEnd(buf[..], desc[..], nextToClean, st.held, st.posted);
      }
      size := desc[nextToClean].length;
    }

    /** ixgbevf_get_rx_buffer. */
    method GetRxBuffer()
      requires Valid() && st.phase.Ready? && Arrived(st)
      modifies this`st, buf
      ensures Valid()
      ensures st.held != [] && old(st).held[0].bias > 0 && st == Get(old(st))
    {
      GetKeepsInv(st, count);
      LaidAt(buf[..], desc[..], nextToClean, st.held, st.posted, 0);
      var b := buf[nextToClean];
      SetFront(b.(bias := b.bias - 1), Get(st).held[0]);
      st := Get(st);
    }

    /** The stack or the XDP ring keeps the reference; the other half comes next. */
    method FlipBuffer()
      requires Valid() && st.phase.InHand? && st.held != []
      modifies this`st, this`outs, this`pinned, buf
      ensures Valid()
      ensures st == Take(old(st))
    {
      TakeKeepsInv(st, count);
      LaidAt(buf[..], desc[..], nextToClean, st.held, st.posted, 0);
      var b := buf[nextToClean];
      var r := Ref(b.page.value, b.half);
      SetFront(b.(half := !b.half), Take(st).held[0]);
      outs, pinned := outs[r := At(outs, r) + 1], Some(r);
      st := Take(st);
    }

    /** pagecnt_bias++. */
    method KeepBuffer(again: bool)
      requires Valid() && st.phase.InHand? && st.held != []
      modifies this`st, buf
      ensures Valid()
      ensures st == PutBack(old(st), again)
    {
      PutBackKeepsInv(st, count, again);
      LaidAt(buf[..], desc[..], nextToClean, st.held, st.posted, 0);
      var b := buf[nextToClean];
      SetFront(b.(bias := b.bias + 1), PutBack(st, again).held[0]);
      st := PutBack(st, again);
    }

    /** The buffer's reference goes out with the half just filled, or back into the bias. */
    method AcceptBuffer(r: Round)
      requires Valid() && Polling(st, count) && Arrived(st)
      modifies this`refs, this`outs, this`pinned, this`st, buf, desc
      ensures Valid()
      ensures st == Accept(old(st), count, r)
      ensures var b := old(buf[nextToClean]);
              b.page.Some? && b.bias > 0
              && if r.outcome.Used?
                 then buf[nextToClean] == b.(half := !b.half, bias := b.bias - 1) && pinned == Some(Ref(b.page.value, b.half))
                 else buf[nextToClean] == b && pinned == None
    {
      ghost var s := st;
      FrontRecord();
      AcceptOutcome(s, count, r);
      AcceptSteps(r);
      FrontRecord();
    }

    /** The record at next_to_clean is the first buffer held. */
    ghost method FrontRecord()
      requires Valid() && st.posted > 0
      ensures st.held != [] && buf[nextToClean] == RxBuffer(Some(st.held[0].page), st.held[0].half, st.held[0].bias)
    {
      LaidAt(buf[..], desc[..], nextToClean, st.held, st.posted, 0);
    }

    method AcceptSteps(r: Round)
      requires Valid() && Polling(st, count) && Arrived(st)
      modifies this`refs, this`outs, this`pinned, this`st, buf, desc
      ensures Valid()
      ensures st == Accept(old(st), count, r)
    {
      GetRxBuffer();
      ghost var g := st;
      EnvsKeepInv(g, count, r.inHand);
      Outside(r.inHand);
      match r.outcome {
        case Used => FlipBuffer();
        case Copied => KeepBuffer(false);
        case NoSkb => KeepBuffer(true);
      }
    }

    /** The test of ixgbevf_can_reuse_rx_page: nobody but us and at most one other holds the page. */
    method OnlyOwner(reserved: bool) returns (reuse: bool)
      requires Valid() && (st.phase.Given? || st.phase.Kept?)
      modifies this`st
      ensures Valid()
      ensures st == Decide(old(st), reserved) && st.phase == Decided(reuse)
    {
      DecideKeepsInv(st, count, reserved);
      LaidAt(buf[..], desc[..], nextToClean, st.held, st.posted, 0);
      var b := buf[nextToClean];
      reuse := !reserved && At(refs, b.page.value) - b.bias <= 1;
      st := Decide(st, reserved);
    }

    /** Restock the bias once the pool of references is drained. */
    method RestockBias(reuse: bool)
      requires Valid() && st.phase == Decided(reuse)
      modifies this`refs, this`st, buf
      ensures Valid()
      ensures st.held != [] && st == Restock(old(st), restock)
    {
      RestockKeepsInv(st, count, restock);
      LaidAt(buf[..], desc[..], nextToClean, st.held, st.posted, 0);
      var b := buf[nextToClean];
      if reuse && b.bias == 0 {
        SetFront(b.(bias := restock), Restock(st, restock).held[0]);
        refs := refs[b.page.value := At(refs, b.page.value) + restock];
      }
      st := Restock(st, restock);
    }

    /** ixgbevf_can_reuse_rx_page, with the environment between its read and its restock. */
    method CanReuseRxPage(r: Round) returns (reuse: bool)
      requires Valid() && (st.phase.Given? || st.phase.Kept?) && Budgeted(st, count, st.cleaned)
      modifies this`refs, this`outs, this`st, buf, desc
      ensures Valid()
      ensures st == Judge(old(st), count, restock, r) && st.phase == Decided(reuse)
    {
      EnvsKeepInv(st, count, r.given);
      Outside(r.given);
      reuse := OnlyOwner(r.reserved);
      EnvsKeepInv(st, count, r.decided);
      Outside(r.decided);
      RestockKeepsInv(st, count, restock);
      RestockBias(reuse);
    }

    /** The slots once the buffer at next_to_clean has been put away. */
    ghost function Passed(): seq<Buf>
      reads this
      requires st.held != []
    {
      if st.phase == Decided(true) then st.held + [st.held[0].(len := 0)] else st.held
    }

    /** ixgbevf_reuse_rx_page: next_to_alloc is never the slot being cleaned. */
    method ReuseRxPage()
      requires Valid() && st.phase == Decided(true)
      modifies this`nextToAlloc, buf
      ensures st.held != [] && nextToAlloc == Wrap(nextToClean, |st.held| + 1, count)
      ensures Laid(buf[..], desc[..], nextToClean, Passed(), st.posted, 0)
      ensures old(nextToAlloc) != nextToClean
    {
      WrapInjective(nextToClean, |st.held|, 0, count);
      WrapStep(nextToClean, |st.held|, count);
      LaidAt(buf[..], desc[..], nextToClean, st.held, st.posted, 0);
      LaidAppend(buf[..], desc[..], nextToClean, st.held, st.posted, st.held[0].(len := 0));
      var nta := nextToAlloc;
      nextToAlloc := if nta + 1 < count then nta + 1 else 0;
      buf[nta] := buf[nextToClean];
      assert buf[..] == old(buf[..])[nta := buf[nta]];
    }

    /** ixgbevf_put_rx_buffer: recycle the page or give up what the ring still owns of it. */
    method PutRxBuffer(reuse: bool)
      requires Valid() && st.phase == Decided(reuse)
      modifies this`refs, this`nextToAlloc, buf
      ensures st.held != [] && nextToAlloc == Wrap(nextToClean, |Passed()|, count)
      ensures Laid(buf[..], desc[..], nextToClean, Passed(), st.posted, 1)
      ensures refs == Finish(st).refs
    {
      if reuse {
        ReuseRxPage();
      } else {
        LaidAt(buf[..], desc[..], nextToClean, st.held, st.posted, 0);
        assert Counted(st, 0);
        var b := buf[nextToClean];
        refs := refs[b.page.value := At(refs, b.page.value) - b.bias];
      }
      ClearPage(Passed());
    }

    method ClearPage(ghost held: seq<Buf>)
      requires nextToClean < buf.Length && st.posted > 0 && Laid(buf[..], desc[..], nextToClean, held, st.posted, 0)
      modifies buf
      ensures Laid(buf[..], desc[..], nextToClean, held, st.posted, 1)
    {
      LaidEmpty(buf[..], desc[..], nextToClean, held, st.posted);
      buf[nextToClean] := buf[nextToClean].(page := None);
      assert buf[..] == old(buf[..])[nextToClean := buf[nextToClean]];
    }

    /** ixgbevf_is_non_eop's step to the next slot; what the driver was assembling is now the stack's. */
    method NextToClean()
      requires 3 <= count <= 0xFFFF && buf.Length == count && desc.Length == count && 1 <= restock <= USHRT_MAX
      requires Inv(st, count) && st.phase.Decided? && (st.phase.reuse ==> st.held[0].bias >= 1)
      requires nextToClean < count && nextToUse == Wrap(nextToClean, st.posted, count)
      requires nextToAlloc == Wrap(nextToClean, |Passed()|, count)
      requires Laid(buf[..], desc[..], nextToClean, Passed(), st.posted, 1)
      requires refs == Finish(st).refs && outs == st.outs
      modifies this`nextToClean, this`pinned, this`st
      ensures Valid()
      ensures st == Finish(old(st))
    {
      hide SlotOk, Counted, Front;
      FinishKeepsInv(st, count);
      LaidNext(buf[..], desc[..], nextToClean, Passed(), st.posted);
      assert Passed()[1..] == Finish(st).held;
      nextToClean := if nextToClean + 1 < count then nextToClean + 1 else 0;
      pinned := None;
      st := Finish(st);
    }

    // -------------------------------------------------------------- the poll

    /** The top of a round, up to reading the length. */
    method PrepareRound(r: Round, cleaned: nat) returns (size: nat, cleaned': nat)
      requires Valid() && Polling(st, count) && st.cleaned == cleaned
      modifies this`nextToUse, this`nextToAlloc, this`refs, this`outs, this`st, buf, desc
      ensures Valid()
      ensures st == Prepare(old(st), count, r) && st.cleaned == cleaned' && (size != 0 <==> Arrived(st))
    {
      RefillKeepsInv(st, count, r.pages);
      cleaned' := cleaned;
      if cleaned >= RX_BUFFER_WRITE {
        AllocRxBuffers(cleaned, r.pages);
        CleanedIrrelevant(st, count, 0);
        cleaned' := 0;
        st := st.(cleaned := 0);
      }
      EnvsKeepInv(st, count, r.before);
      Outside(r.before);
      size := PeekLength();
    }

    /** From ixgbevf_get_rx_buffer to the next slot. */
    method ProcessBuffer(r: Round) returns (more: bool)
      requires Valid() && Polling(st, count) && Arrived(st)
      modifies this, buf, desc
      ensures Valid()
      ensures (st, more) == Process(old(st), count, restock, r)
    {
      AcceptBuffer(r);
      if r.outcome.NoSkb? { return false; }
      var reuse := CanReuseRxPage(r);
      PutRxBuffer(reuse);
      NextToClean();
      return true;
    }

    /** One round of clean_rx_irq. */
    method CleanRound(r: Round, cleaned: nat) returns (more: bool, cleaned': nat)
      requires Valid() && Polling(st, count) && st.cleaned == cleaned
      modifies this, buf, desc
      ensures Valid() && Polling(st, count) && st.cleaned == cleaned'
      ensures (st, more) == OneRound(old(st), count, restock, r)
    {
      var size;
      size, cleaned' := PrepareRound(r, cleaned);
      if size == 0 { return false, cleaned'; }
      more := ProcessBuffer(r);
      if more { cleaned' := cleaned' + 1; }
    }

    /** ixgbevf_clean_rx_irq, as far as the ring goes. */
    method CleanRxIrq(budget: nat, rounds: seq<Round>)
      requires Valid() && st.phase.Ready?
      modifies this, buf, desc
      ensures Valid()
      ensures st == Rounds(Begin(old(st), count), count, restock, rounds, 0, budget)
    {
      var cleaned := DescUnused(nextToClean, nextToUse, count);
      ghost var s0 := Begin(st, count);
      st := s0;
      CleanRounds(budget, rounds, cleaned);
    }

    /** The loop of clean_rx_irq. */
    method CleanRounds(budget: nat, rounds: seq<Round>, start: nat)
      requires Valid() && Polling(st, count) && st.cleaned == start
      modifies this, buf, desc
      ensures Valid()
      ensures st == Rounds(old(st), count, restock, rounds, 0, budget)
    {
      var k, left, more, cleaned := 0, budget, true, start;
      ghost var goal := Rounds(st, count, restock, rounds, 0, budget);
      while k < |rounds| && left > 0 && more
        invariant k <= |rounds| && Valid() && Polling(st, count) && st.cleaned == cleaned
        invariant more ==> Rounds(st, count, restock, rounds, k, left) == goal
        invariant !more ==> st == goal
        decreases |rounds| - k, more
      {
        more, k, left, cleaned := CleanStep(rounds, k, left, cleaned);
      }
    }

    method CleanStep(rounds: seq<Round>, at: nat, budget: nat, start: nat) returns (more: bool, k: nat, left: nat, cleaned: nat)
      requires Valid() && Polling(st, count) && st.cleaned == start && at < |rounds| && budget > 0
      modifies this, buf, desc
      ensures Valid() && Polling(st, count) && st.cleaned == cleaned
      ensures more ==> k == at + 1 && Rounds(st, count, restock, rounds, k, left) == Rounds(old(st), count, restock, rounds, at, budget)
      ensures !more ==> k == at && st == Rounds(old(st), count, restock, rounds, at, budget)
    {
      RoundsStep(st, count, restock, rounds, at, budget);
      more, cleaned := CleanRound(rounds[at], start);
      k := if more then at + 1 else at;
      left := if more && rounds[at].packet then budget - 1 else budget;
    }

    // -------------------------------------------------------------- teardown and set-up

    /** The loop of ixgbevf_clean_rx_ring, from next_to_clean to next_to_alloc. */
    method DrainPages()
      requires Valid()
      modifies this`refs
      ensures refs == Drain(st).refs
    {
      var i := nextToClean;
      ghost var n := 0;
      while i != nextToAlloc
        invariant n <= |st.held| && i == Wrap(nextToClean, n, count) && refs == DrainTo(st.refs, st.held, n)
        decreases |st.held| - n
      {
        WrapInjective(nextToClean, n, |st.held|, count);
        LaidAt(buf[..], desc[..], nextToClean, st.held, st.posted, n);
        var b := buf[i];
        refs := refs[b.page.value := if At(refs, b.page.value) >= b.bias then At(refs, b.page.value) - b.bias else 0];
        WrapStep(nextToClean, n, count);
        i := i + 1;
        if i == count { i := 0; }
        n := n + 1;
      }
      WrapInjective(nextToClean, n, |st.held|, count);
    }

    /** ixgbevf_clean_rx_ring: every page held is given up once. */
    method CleanRxRing()
      requires Valid() && st.phase.Ready?
      modifies this`nextToClean, this`nextToUse, this`nextToAlloc, this`refs, this`st
      ensures Down()
      ensures st == Drain(old(st))
    {
      DrainKeepsInv(st, count);
      DrainPages();
      nextToAlloc, nextToClean, nextToUse := 0, 0, 0;
      st := Drain(st);
    }

    /** The buffer part of ixgbevf_configure_rx_ring. */
    method Configure(pages: seq<Option<nat>>)
      requires Down()
      modifies this, buf, desc
      ensures Valid()
      ensures st == FillFrom(old(st), pages, 0, count - 1)
    {
      forall i | 0 <= i < count {
        buf[i] := ZEROED;
      }
      desc[0] := desc[0].(length := 0);
      nextToClean, nextToUse, nextToAlloc := 0, 0, 0;
      assert forall i :: 0 <= i < count ==> buf[..][i] == ZEROED;
      assert Laid(buf[..], desc[..], 0, st.held, 0, 0);
      AllocRxBuffers(DescUnused(nextToClean, nextToUse, count), pages);
    }

    constructor (size: nat, amount: nat)
      requires 3 <= size <= 0xFFFF && 1 <= amount <= USHRT_MAX
      ensures Down() && fresh(buf) && fresh(desc) && count == size && restock == amount
      ensures st == RxState([], 0, Ready, None, 0, map[], map[])
    {
      count, restock := size, amount;
      buf, desc := new RxBuffer[size](_ => ZEROED), new RxDesc[size](_ => RxDesc(None, 0));
      nextToClean, nextToUse, nextToAlloc := 0, 0, 0;
      refs, outs, pinned := map[], map[], None;
      st := RxState([], 0, Ready, None, 0, map[], map[]);
    }
  }
}
