/**
 The receive ring seen from outside: the buffers it holds in ring order, the reference count of every page,
 and the references held outside the driver.  The steps of the driver are small enough for the network
 stack and the hardware to act between any two of them.
 */
module RxSpec {
  import opened Util

  const USHRT_MAX: nat := 65535
  const RX_BUFFER_WRITE: nat := 16

  /** One half of a page. */
  datatype Ref = Ref(page: nat, half: bool)

  /** A buffer the ring holds: which half of its page comes next, how many page references the driver still
      owns, and the length hardware reported for it (0 until it completes). */
  datatype Buf = Buf(page: nat, half: bool, bias: nat, len: nat)
  {
    function Half(): Ref { Ref(page, half) }
  }

  /** Where the driver stands with the buffer at next_to_clean. */
  datatype Phase =
    | Ready                 // not looking at it
    | InHand                // ixgbevf_get_rx_buffer has taken one reference out of the bias
    | Given                 // that reference went to the stack or the XDP ring, the buffer was flipped
    | Kept                  // the reference went back into the bias
    | Decided(reuse: bool)  // the reference count was read

  /** `held` lists the slots from next_to_clean to next_to_alloc, the first `posted` of them given to hardware. */
  datatype RxState = RxState(held: seq<Buf>, posted: nat, phase: Phase, pinned: Option<Ref>, cleaned: nat,
                             refs: map<nat, nat>, outs: map<Ref, nat>)

  function At<K>(m: map<K, nat>, k: K): nat { if k in m then m[k] else 0 }

  function Outs(s: RxState, p: nat): nat { At(s.outs, Ref(p, false)) + At(s.outs, Ref(p, true)) }

  function Unused(s: RxState, count: nat): int { count - 1 - s.posted }

  // ---------------------------------------------------------------- the environment

  /** The stack drops or duplicates a reference it can see, or hardware completes a posted buffer. */
  datatype Env = Free(r: Ref) | Dup(r: Ref) | Completes(k: nat, len: nat)

  /** References to `r` the stack can see; the pinned one is still being assembled by the driver. */
  function Visible(s: RxState, r: Ref): int { At(s.outs, r) - if s.pinned == Some(r) then 1 else 0 }

  function EnvStep(s: RxState, e: Env): RxState
  {
    match e
    case Free(r) =>
      if Visible(s, r) > 0 && At(s.refs, r.page) > 0
      then s.(outs := s.outs[r := At(s.outs, r) - 1], refs := s.refs[r.page := At(s.refs, r.page) - 1]) else s
    case Dup(r) =>
      if Visible(s, r) > 0
      then s.(outs := s.outs[r := At(s.outs, r) + 1], refs := s.refs[r.page := At(s.refs, r.page) + 1]) else s
    case Completes(k, len) =>
      if k < s.posted && k < |s.held| && s.held[k].len == 0
      then s.(held := s.held[k := s.held[k].(len := len)]) else s
  }

  function Envs(s: RxState, es: seq<Env>): RxState
  {
    if es == [] then s else EnvStep(Envs(s, es[..|es| - 1]), es[|es| - 1])
  }

  // ---------------------------------------------------------------- the driver

  /** One round of ixgbevf_alloc_rx_buffers: post a recycled buffer, or a new page if the allocator has one. */
  function FillOne(s: RxState, page: Option<nat>): (RxState, bool)
  {
    if s.posted < |s.held| then (s.(posted := s.posted + 1), true)
    else if page.Some? && At(s.refs, page.value) == 0 then
      (s.(held := s.held + [Buf(page.value, false, 1, 0)], posted := s.posted + 1, refs := s.refs[page.value := 1]), true)
    else (s, false)
  }

  function Offer(pages: seq<Option<nat>>, k: nat): Option<nat> { if k < |pages| then pages[k] else None }

  /** ixgbevf_alloc_rx_buffers from round k of n on. */
  function FillFrom(s: RxState, pages: seq<Option<nat>>, k: nat, n: nat): RxState
    requires k <= n
    decreases n - k
  {
    if k == n then s
    else
      var (s', ok) := FillOne(s, Offer(pages, k));
      if ok then FillFrom(s', pages, k + 1, n) else s
  }

  /** What the driver does at the top of a round of clean_rx_irq. */
  function Refill(s: RxState, pages: seq<Option<nat>>): RxState
  {
    if s.cleaned >= RX_BUFFER_WRITE then FillFrom(s, pages, 0, s.cleaned).(cleaned := 0) else s
  }

  /** ixgbevf_get_rx_buffer. */
  function Get(s: RxState): RxState
    requires |s.held| > 0 && s.held[0].bias > 0
  {
    s.(held := s.held[0 := s.held[0].(bias := s.held[0].bias - 1)], phase := InHand)
  }

  /** The reference taken goes out with this half, and the buffer flips to the other half. */
  function Take(s: RxState): RxState
    requires |s.held| > 0
  {
    var r := s.held[0].Half();
    s.(held := s.held[0 := s.held[0].(half := !s.held[0].half)], phase := Given, pinned := Some(r),
       outs := s.outs[r := At(s.outs, r) + 1])
  }

  /** The reference taken goes back: the data was copied, the frame dropped, or (`again`) no skb could be had. */
  function PutBack(s: RxState, again: bool): RxState
    requires |s.held| > 0
  {
    s.(held := s.held[0 := s.held[0].(bias := s.held[0].bias + 1)], phase := if again then Ready else Kept)
  }

  /** ixgbevf_can_reuse_rx_page up to its verdict. */
  function Decide(s: RxState, reserved: bool): RxState
    requires |s.held| > 0
  {
    s.(phase := Decided(!reserved && At(s.refs, s.held[0].page) - s.held[0].bias <= 1))
  }

  /** The rest of ixgbevf_can_reuse_rx_page: restock an exhausted bias. */
  function Restock(s: RxState, amount: nat): RxState
    requires |s.held| > 0
  {
    if s.phase == Decided(true) && s.held[0].bias == 0
    then s.(held := s.held[0 := s.held[0].(bias := amount)],
            refs := s.refs[s.held[0].page := At(s.refs, s.held[0].page) + amount]) else s
  }

  /** Recycle or give up the buffer, and step to the next slot. */
  function Finish(s: RxState): RxState
    requires |s.held| > 0 && s.posted > 0
  {
    var b := s.held[0];
    var s' := s.(held := s.held[1..], posted := s.posted - 1, phase := Ready, pinned := None, cleaned := s.cleaned + 1);
    if s.phase == Decided(true) then s'.(held := s.held[1..] + [b.(len := 0)])
    else s'.(refs := s.refs[b.page := if At(s.refs, b.page) >= b.bias then At(s.refs, b.page) - b.bias else 0])
  }

  /** ixgbevf_clean_rx_ring gives up the first n buffers. */
  function DrainTo(refs: map<nat, nat>, held: seq<Buf>, n: nat): map<nat, nat>
    requires n <= |held|
  {
    if n == 0 then refs
    else
      var m := DrainTo(refs, held, n - 1);
      m[held[n - 1].page := if At(m, held[n - 1].page) >= held[n - 1].bias then At(m, held[n - 1].page) - held[n - 1].bias else 0]
  }

  function Drain(s: RxState): RxState
  {
    s.(held := [], posted := 0, cleaned := 0, refs := DrainTo(s.refs, s.held, |s.held|))
  }

  // ---------------------------------------------------------------- the invariant

  /** Nobody outside the driver holds this half. */
  predicate Exclusive(s: RxState, b: Buf) { At(s.outs, b.Half()) == 0 }

  /** A buffer the driver is not looking at. */
  predicate Settled(s: RxState, b: Buf) { 1 <= b.bias && Exclusive(s, b) }

  /** The buffer at next_to_clean, while the driver looks at it. */
  predicate Front(s: RxState, b: Buf)
  {
    (!s.phase.Ready? ==> b.len != 0) &&
    match s.phase
    case Ready => Settled(s, b) && s.pinned.None?
    case InHand => Exclusive(s, b) && s.pinned.None? && b.bias < USHRT_MAX
    case Given => s.pinned == Some(Ref(b.page, !b.half)) && At(s.outs, s.pinned.value) >= 1
    case Kept => Settled(s, b) && s.pinned.None?
    case Decided(reuse) =>
      && (reuse ==> Exclusive(s, b))
      && (match s.pinned case None => Settled(s, b) case Some(r) => r == Ref(b.page, !b.half) && At(s.outs, r) >= 1)
  }

  /** Page references: the driver's own, those outside, and the one in hand. */
  predicate Counted(s: RxState, i: nat)
    requires i < |s.held|
  {
    var b := s.held[i];
    && b.bias <= USHRT_MAX
    && At(s.refs, b.page) == b.bias + Outs(s, b.page) + (if i == 0 && s.phase.InHand? then 1 else 0)
    && (i > 0 ==> Settled(s, b))
    && (i >= s.posted ==> b.len == 0)
  }

  predicate SamePage(s: RxState, i: nat, p: nat)
    requires i < |s.held|
  {
    s.held[i].page == p
  }

  /** The ring does not hold page p. */
  predicate NotHeld(s: RxState, p: nat) { forall i :: 0 <= i < |s.held| ==> !SamePage(s, i, p) }

  predicate Distinct(s: RxState)
  {
    forall i, j :: 0 <= i < |s.held| && 0 <= j < |s.held| && SamePage(s, i, s.held[j].page) ==> i == j
  }

  ghost predicate Inv(s: RxState, count: nat)
  {
    && s.posted <= |s.held| < count
    && Distinct(s)
    && (forall i :: 0 <= i < |s.held| ==> Counted(s, i))
    && (forall p :: NotHeld(s, p) ==> At(s.refs, p) == Outs(s, p))
    && (!s.phase.Ready? ==> s.posted > 0)
    && (|s.held| > 0 ==> Front(s, s.held[0]))
    && (s.held == [] ==> s.pinned.None?)
  }

  /** What keeps next_to_alloc right when ixgbevf_alloc_rx_buffers resets it. */
  predicate Budgeted(s: RxState, count: nat, n: nat) { |s.held| - s.posted <= n <= Unused(s, count) }

  // ---------------------------------------------------------------- every step keeps it

  /** The same pages in the same slots. */
  predicate PagesKept(s: RxState, s': RxState)
  {
    |s'.held| == |s.held| && forall i :: 0 <= i < |s.held| ==> SamePage(s', i, s.held[i].page)
  }

  lemma PagesKeptNotHeld(s: RxState, s': RxState, p: nat)
    requires PagesKept(s, s') && NotHeld(s', p)
    ensures NotHeld(s, p)
  {
    forall i | 0 <= i < |s.held|
      ensures !SamePage(s, i, p)
    {
      assert SamePage(s', i, s.held[i].page) && !SamePage(s', i, p);
    }
  }

  lemma PagesKeptDistinct(s: RxState, s': RxState)
    requires PagesKept(s, s') && Distinct(s)
    ensures Distinct(s')
  {
    forall i, j | 0 <= i < |s'.held| && 0 <= j < |s'.held| && SamePage(s', i, s'.held[j].page)
      ensures i == j
    {
      assert SamePage(s', i, s.held[i].page) && SamePage(s', j, s.held[j].page);
      assert SamePage(s, i, s.held[j].page);
    }
  }

  /** A step that changes only page p's counts and the buffer that holds it, if any. */
  lemma LocalStep(s: RxState, s': RxState, count: nat, p: nat, at: nat)
    requires Inv(s, count) && PagesKept(s, s') && s'.posted == s.posted
    requires forall i :: 0 <= i < |s.held| && i != at ==> s'.held[i] == s.held[i]
    requires at < |s.held| ==> SamePage(s, at, p) && Counted(s', at)
    requires at >= |s.held| ==> NotHeld(s, p) && s'.phase == s.phase
    requires forall q :: q != p ==> At(s'.refs, q) == At(s.refs, q) && Outs(s', q) == Outs(s, q)
    requires forall q: Ref :: q.page != p ==> At(s'.outs, q) == At(s.outs, q)
    requires at > 0 ==> s'.phase == s.phase && s'.pinned == s.pinned
    requires NotHeld(s, p) ==> At(s'.refs, p) == Outs(s', p)
    requires |s.held| > 0 ==> Front(s', s'.held[0])
    requires s.held == [] ==> s'.pinned.None?
    requires !s'.phase.Ready? ==> s.posted > 0
    ensures Inv(s', count)
  {
    PagesKeptDistinct(s, s');
    forall i | 0 <= i < |s.held|
      ensures Counted(s', i)
    {
      assert Counted(s, i);
      assert i != at && at < |s.held| ==> !SamePage(s, at, s.held[i].page);
      assert at >= |s.held| ==> !SamePage(s, i, p);
    }
    forall q | NotHeld(s', q)
      ensures At(s'.refs, q) == Outs(s', q)
    {
      PagesKeptNotHeld(s, s', q);
    }
  }

  /** Where page p sits, or |held| if nowhere. */
  lemma FindPage(s: RxState, p: nat) returns (at: nat)
    ensures at <= |s.held|
    ensures at < |s.held| ==> SamePage(s, at, p)
    ensures at == |s.held| ==> NotHeld(s, p)
  {
    if NotHeld(s, p) { return |s.held|; }
    var i :| 0 <= i < |s.held| && SamePage(s, i, p);
    return i;
  }

  /** A reference dropped or duplicated is counted in the page and outside alike, ... */
  lemma RefCounted(s: RxState, e: Env, at: nat)
    requires !e.Completes? && at < |s.held| && SamePage(s, at, e.r.page) && Counted(s, at)
    ensures Counted(EnvStep(s, e), at)
  {
    hide Visible;
    OthersKept(s, e);
  }

  lemma OthersKept(s: RxState, e: Env)
    requires !e.Completes?
    ensures forall q: Ref :: q != e.r ==> At(EnvStep(s, e).outs, q) == At(s.outs, q)
    ensures At(s.outs, e.r) == 0 ==> At(EnvStep(s, e).outs, e.r) == 0
  {
  }

  /** ... and is neither the one pinned nor one to the half that comes next. */
  lemma RefFront(s: RxState, e: Env)
    requires !e.Completes? && |s.held| > 0 && Front(s, s.held[0])
    ensures Front(EnvStep(s, e), s.held[0])
  {
    OthersKept(s, e);
  }

  lemma RefKeepsInv(s: RxState, count: nat, e: Env)
    requires Inv(s, count) && !e.Completes?
    ensures Inv(EnvStep(s, e), count)
  {
    hide Front, Counted, Distinct;
    var s' := EnvStep(s, e);
    var at := FindPage(s, e.r.page);
    if at < |s.held| { RefCounted(s, e, at); }
    if |s.held| > 0 { RefFront(s, e); }
    LocalStep(s, s', count, e.r.page, at);
  }

  lemma EnvKeepsInv(s: RxState, count: nat, e: Env)
    requires Inv(s, count)
    ensures Inv(EnvStep(s, e), count)
  {
    match e
    case Free(_) => RefKeepsInv(s, count, e);
    case Dup(_) => RefKeepsInv(s, count, e);
    case Completes(k, len) =>
      if EnvStep(s, e) != s {
        assert Counted(s, k);
        LocalStep(s, EnvStep(s, e), count, s.held[k].page, k);
      }
  }

  lemma {:induction false} EnvsKeepInv(s: RxState, count: nat, es: seq<Env>)
    requires Inv(s, count)
    ensures Inv(Envs(s, es), count)
    ensures var s' := Envs(s, es);
            && PagesKept(s, s') && s'.phase == s.phase && s'.pinned == s.pinned && s'.posted == s.posted && s'.cleaned == s.cleaned
  {
    if es != [] {
      EnvsKeepInv(s, count, es[..|es| - 1]);
      EnvKeepsInv(Envs(s, es[..|es| - 1]), count, es[|es| - 1]);
    }
  }

  /** Get, Take, PutBack, Decide and Restock change only the buffer at next_to_clean. */
  lemma FrontStep(s: RxState, s': RxState, count: nat)
    requires Inv(s, count) && s.posted > 0 && s'.posted == s.posted && PagesKept(s, s')
    requires forall i :: 0 < i < |s.held| ==> s'.held[i] == s.held[i]
    requires Counted(s', 0) && Front(s', s'.held[0])
    requires forall q :: q != s.held[0].page ==> At(s'.refs, q) == At(s.refs, q) && Outs(s', q) == Outs(s, q)
    requires forall q: Ref :: q.page != s.held[0].page ==> At(s'.outs, q) == At(s.outs, q)
    ensures Inv(s', count)
  {
    assert SamePage(s, 0, s.held[0].page);
    LocalStep(s, s', count, s.held[0].page, 0);
  }

  lemma GetKeepsInv(s: RxState, count: nat)
    requires Inv(s, count) && s.phase.Ready? && s.posted > 0 && s.held[0].len != 0
    ensures s.held[0].bias > 0 && Inv(Get(s), count)
  {
    assert Counted(s, 0);
    FrontStep(s, Get(s), count);
  }

  lemma TakeKeepsInv(s: RxState, count: nat)
    requires Inv(s, count) && s.phase.InHand?
    ensures Inv(Take(s), count)
  {
    assert Counted(s, 0);
    FrontStep(s, Take(s), count);
  }

  lemma PutBackKeepsInv(s: RxState, count: nat, again: bool)
    requires Inv(s, count) && s.phase.InHand?
    ensures Inv(PutBack(s, again), count)
  {
    assert Counted(s, 0);
    FrontStep(s, PutBack(s, again), count);
  }

  /** At most one reference outside: then the half that comes next is free. */
  lemma DecideKeepsInv(s: RxState, count: nat, reserved: bool)
    requires Inv(s, count) && (s.phase.Given? || s.phase.Kept?)
    ensures Inv(Decide(s, reserved), count)
  {
    assert Counted(s, 0);
    FrontStep(s, Decide(s, reserved), count);
  }

  lemma RestockKeepsInv(s: RxState, count: nat, amount: nat)
    requires Inv(s, count) && s.phase.Decided? && 1 <= amount <= USHRT_MAX
    ensures Inv(Restock(s, amount), count)
    ensures Restock(s, amount).phase == s.phase
    ensures s.phase == Decided(true) ==> Restock(s, amount).held[0].bias >= 1
  {
    assert Counted(s, 0);
    FrontStep(s, Restock(s, amount), count);
  }

  // ---------------------------------------------------------------- filling and recycling

  /** Appending a buffer whose page the ring does not hold. */
  lemma AppendKeeps(s: RxState, s': RxState, count: nat, b: Buf)
    requires Distinct(s) && NotHeld(s, b.page) && s'.held == s.held + [b]
    ensures Distinct(s')
    ensures forall p :: NotHeld(s', p) ==> NotHeld(s, p) && p != b.page
  {
    forall i, j | 0 <= i < |s'.held| && 0 <= j < |s'.held| && SamePage(s', i, s'.held[j].page)
      ensures i == j
    {
      assert i < |s.held| ==> !SamePage(s, i, b.page);
      assert j < |s.held| ==> !SamePage(s, j, b.page);
      assert i < |s.held| && j < |s.held| ==> SamePage(s, i, s.held[j].page);
    }
    forall p | NotHeld(s', p)
      ensures NotHeld(s, p) && p != b.page
    {
      assert !SamePage(s', |s.held|, p);
      forall i | 0 <= i < |s.held| ensures !SamePage(s, i, p) { assert !SamePage(s', i, p); }
    }
  }

  lemma Unreferenced(s: RxState, count: nat, p: nat)
    requires Inv(s, count) && s.phase.Ready? && At(s.refs, p) == 0
    ensures NotHeld(s, p) && At(s.outs, Ref(p, false)) == 0 && At(s.outs, Ref(p, true)) == 0
  {
    forall i | 0 <= i < |s.held|
      ensures !SamePage(s, i, p)
    {
      assert Counted(s, i);
    }
  }

  /** A fresh page joins the ring. */
  lemma NewPageKeepsInv(s: RxState, count: nat, p: nat)
    requires Inv(s, count) && s.phase.Ready? && s.posted == |s.held| < count - 1 && At(s.refs, p) == 0
    ensures Inv(s.(held := s.held + [Buf(p, false, 1, 0)], refs := s.refs[p := 1]), count)
  {
    var s' := s.(held := s.held + [Buf(p, false, 1, 0)], refs := s.refs[p := 1]);
    Unreferenced(s, count, p);
    AppendKeeps(s, s', count, Buf(p, false, 1, 0));
    forall i | 0 <= i < |s'.held|
      ensures Counted(s', i)
    {
      assert i < |s.held| ==> Counted(s, i) && !SamePage(s, i, p);
    }
  }

  /** A buffer the ring already holds is posted. */
  lemma PostKeepsInv(s: RxState, count: nat)
    requires Inv(s, count) && s.phase.Ready? && s.posted < |s.held|
    ensures Inv(s.(posted := s.posted + 1), count)
  {
    var s' := s.(posted := s.posted + 1);
    assert PagesKept(s, s');
    PagesKeptDistinct(s, s');
    forall i | 0 <= i < |s'.held| ensures Counted(s', i) { assert Counted(s, i); }
    forall p | NotHeld(s', p) ensures At(s'.refs, p) == Outs(s', p) { PagesKeptNotHeld(s, s', p); }
  }

  lemma FillOneKeepsInv(s: RxState, count: nat, page: Option<nat>)
    requires Inv(s, count) && s.phase.Ready? && s.posted < count - 1
    ensures Inv(FillOne(s, page).0, count)
    ensures !FillOne(s, page).1 ==> FillOne(s, page).0 == s && s.posted == |s.held|
    ensures FillOne(s, page).1 ==> FillOne(s, page).0.posted == s.posted + 1 && |FillOne(s, page).0.held| == if s.posted < |s.held| then |s.held| else |s.held| + 1
  {
    if s.posted < |s.held| {
      PostKeepsInv(s, count);
    } else if FillOne(s, page).1 {
      NewPageKeepsInv(s, count, page.value);
      PostKeepsInv(s.(held := s.held + [Buf(page.value, false, 1, 0)], refs := s.refs[page.value := 1]), count);
    }
  }

  /** The whole of ixgbevf_alloc_rx_buffers: afterwards no recycled buffer waits behind next_to_use. */
  lemma {:induction false} FillKeepsInv(s: RxState, count: nat, pages: seq<Option<nat>>, k: nat, n: nat)
    requires Inv(s, count) && s.phase.Ready? && k <= n && Budgeted(s, count, n - k)
    ensures var s' := FillFrom(s, pages, k, n);
            Inv(s', count) && s'.phase.Ready? && s'.posted == |s'.held| && s'.cleaned == s.cleaned && s.posted <= s'.posted
    decreases n - k
  {
    if k < n {
      FillOneKeepsInv(s, count, Offer(pages, k));
      if FillOne(s, Offer(pages, k)).1 {
        FillKeepsInv(FillOne(s, Offer(pages, k)).0, count, pages, k + 1, n);
      }
    }
  }

  lemma DropFront(s: RxState, s': RxState)
    requires Distinct(s) && |s.held| > 0 && s'.held == s.held[1..]
    ensures Distinct(s') && NotHeld(s', s.held[0].page)
    ensures forall p :: NotHeld(s', p) && p != s.held[0].page ==> NotHeld(s, p)
  {
    forall i, j | 0 <= i < |s'.held| && 0 <= j < |s'.held| && SamePage(s', i, s'.held[j].page)
      ensures i == j
    {
      assert SamePage(s, i + 1, s.held[j + 1].page);
    }
    forall i | 0 <= i < |s'.held|
      ensures !SamePage(s', i, s.held[0].page)
    {
      assert SamePage(s, i + 1, s.held[0].page) ==> i + 1 == 0;
    }
    forall p | NotHeld(s', p) && p != s.held[0].page
      ensures NotHeld(s, p)
    {
      forall i | 0 <= i < |s.held| ensures !SamePage(s, i, p) { assert i > 0 ==> !SamePage(s', i - 1, p); }
    }
  }

  /** Giving up the buffer leaves its page to whoever holds it outside. */
  lemma GiveUpKeepsInv(s: RxState, count: nat)
    requires Inv(s, count) && s.phase == Decided(false)
    ensures Inv(Finish(s), count)
  {
    var s' := Finish(s);
    assert Counted(s, 0);
    DropFront(s, s');
    forall i | 0 <= i < |s'.held|
      ensures Counted(s', i)
    {
      assert Counted(s, i + 1);
      assert !SamePage(s', i, s.held[0].page);
    }
    if |s.held| > 1 { assert Counted(s, 1); }
  }

  lemma RecycleKeepsInv(s: RxState, count: nat)
    requires Inv(s, count) && s.phase == Decided(true) && s.held[0].bias >= 1
    ensures Inv(Finish(s), count)
  {
    var s' := Finish(s);
    var mid := s.(held := s.held[1..]);
    var b := s.held[0].(len := 0);
    assert Counted(s, 0);
    DropFront(s, mid);
    AppendKeeps(mid, s', count, b);
    forall i | 0 <= i < |s'.held|
      ensures Counted(s', i)
    {
      assert i + 1 < |s.held| ==> Counted(s, i + 1) && s'.held[i] == s.held[i + 1];
    }
    if |s.held| > 1 { assert Counted(s, 1); }
  }

  lemma FinishKeepsInv(s: RxState, count: nat)
    requires Inv(s, count) && s.phase.Decided? && (s.phase.reuse ==> s.held[0].bias >= 1)
    ensures Inv(Finish(s), count) && Finish(s).phase.Ready?
    ensures Budgeted(s, count, s.cleaned) ==> Budgeted(Finish(s), count, Finish(s).cleaned)
  {
    if s.phase.reuse { RecycleKeepsInv(s, count); } else { GiveUpKeepsInv(s, count); }
  }

  // ---------------------------------------------------------------- teardown

  /** Draining takes back exactly the references the ring still owned. */
  lemma {:induction false} DrainedOther(s: RxState, n: nat, p: nat)
    requires n <= |s.held| && forall i :: 0 <= i < n ==> !SamePage(s, i, p)
    ensures At(DrainTo(s.refs, s.held, n), p) == At(s.refs, p)
  {
    if n > 0 {
      DrainedOther(s, n - 1, p);
      assert !SamePage(s, n - 1, p);
    }
  }

  lemma {:induction false} DrainedAt(s: RxState, n: nat, i: nat)
    requires Distinct(s) && i < n <= |s.held| && At(s.refs, s.held[i].page) >= s.held[i].bias
    ensures At(DrainTo(s.refs, s.held, n), s.held[i].page) == At(s.refs, s.held[i].page) - s.held[i].bias
  {
    assert forall j :: 0 <= j < n && SamePage(s, j, s.held[i].page) ==> j == i;
    if i < n - 1 {
      DrainedAt(s, n - 1, i);
      assert !SamePage(s, n - 1, s.held[i].page);
    } else {
      DrainedOther(s, n - 1, s.held[i].page);
    }
  }

  /** After clean_rx_ring every page is referenced exactly by those outside the driver. */
  lemma DrainReleasesAll(s: RxState, count: nat, p: nat)
    requires Inv(s, count) && s.phase.Ready?
    ensures At(Drain(s).refs, p) == Outs(s, p)
  {
    if NotHeld(s, p) {
      DrainedOther(s, |s.held|, p);
    } else {
      var i :| 0 <= i < |s.held| && SamePage(s, i, p);
      assert Counted(s, i);
      DrainedAt(s, |s.held|, i);
    }
  }

  lemma DrainKeepsInv(s: RxState, count: nat)
    requires Inv(s, count) && s.phase.Ready?
    ensures Inv(Drain(s), count)
  {
    forall p
      ensures At(Drain(s).refs, p) == Outs(s, p)
    {
      DrainReleasesAll(s, count, p);
    }
  }
}
