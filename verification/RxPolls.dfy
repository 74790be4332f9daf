/** One poll of the receive ring, ixgbevf_clean_rx_irq: how far it goes and what becomes of each buffer it meets. */
module RxPolls {
  import opened Util
  import opened RxSpec

  // ---------------------------------------------------------------- the rounds of a poll

  /** What becomes of the data: referenced from the page, copied or dropped, or no skb to put it in. */
  datatype Outcome = Used | Copied | NoSkb

  /** Everything one round of clean_rx_irq meets: pages from the allocator, what stack and hardware do at each
      point, what becomes of the data, whether the page is reserved, and whether the round ends a packet. */
  datatype Round = Round(pages: seq<Option<nat>>, before: seq<Env>, inHand: seq<Env>, given: seq<Env>, decided: seq<Env>,
                         outcome: Outcome, reserved: bool, packet: bool)

  /** The driver is between buffers and may be asked to fill the ring. */
  ghost predicate Polling(s: RxState, count: nat)
  {
    Inv(s, count) && s.phase.Ready? && Budgeted(s, count, s.cleaned)
  }

  lemma CleanedIrrelevant(s: RxState, count: nat, n: nat)
    requires Inv(s, count)
    ensures Inv(s.(cleaned := n), count)
  {
    var s' := s.(cleaned := n);
    forall i | 0 <= i < |s.held| ensures Counted(s', i) { assert Counted(s, i); }
    assert PagesKept(s, s');
    PagesKeptDistinct(s, s');
    forall p | NotHeld(s', p) ensures At(s'.refs, p) == Outs(s', p) { PagesKeptNotHeld(s, s', p); }
  }

  /** A poll starts with cleaned_count at the number of unused descriptors. */
  ghost function Begin(s: RxState, count: nat): (s': RxState)
    requires Inv(s, count) && s.phase.Ready?
    ensures Polling(s', count)
  {
    CleanedIrrelevant(s, count, count - 1 - s.posted);
    s.(cleaned := count - 1 - s.posted)
  }

  lemma RefillKeepsInv(s: RxState, count: nat, pages: seq<Option<nat>>)
    requires Polling(s, count)
    ensures Polling(Refill(s, pages), count)
    ensures Refill(s, pages).cleaned == if s.cleaned >= RX_BUFFER_WRITE then 0 else s.cleaned
  {
    if s.cleaned >= RX_BUFFER_WRITE {
      FillKeepsInv(s, count, pages, 0, s.cleaned);
      CleanedIrrelevant(FillFrom(s, pages, 0, s.cleaned), count, 0);
    }
  }

  /** Hardware has completed the buffer at next_to_clean. */
  predicate Arrived(s: RxState) { s.posted > 0 && |s.held| > 0 && s.held[0].len != 0 }

  /** From ixgbevf_get_rx_buffer to the skb. */
  ghost function Accept(s: RxState, count: nat, r: Round): (s': RxState)
    requires Polling(s, count) && Arrived(s)
    ensures Inv(s', count) && Budgeted(s', count, s'.cleaned) && s'.cleaned == s.cleaned
    ensures if r.outcome.NoSkb? then s'.phase.Ready? else s'.phase.Given? || s'.phase.Kept?
  {
    GetKeepsInv(s, count);
    EnvsKeepInv(Get(s), count, r.inHand);
    var g := Envs(Get(s), r.inHand);
    TakeKeepsInv(g, count);
    PutBackKeepsInv(g, count, true);
    PutBackKeepsInv(g, count, false);
    match r.outcome
    case Used => Take(g)
    case Copied => PutBack(g, false)
    case NoSkb => PutBack(g, true)
  }

  /** ixgbevf_can_reuse_rx_page. */
  ghost function Judge(s: RxState, count: nat, restock: nat, r: Round): (s': RxState)
    requires Inv(s, count) && (s.phase.Given? || s.phase.Kept?) && 1 <= restock <= USHRT_MAX && Budgeted(s, count, s.cleaned)
    ensures Inv(s', count) && s'.phase.Decided? && Budgeted(s', count, s'.cleaned) && s'.cleaned == s.cleaned
    ensures s'.phase.reuse ==> s'.held[0].bias >= 1
  {
    EnvsKeepInv(s, count, r.given);
    var g := Envs(s, r.given);
    DecideKeepsInv(g, count, r.reserved);
    EnvsKeepInv(Decide(g, r.reserved), count, r.decided);
    RestockKeepsInv(Envs(Decide(g, r.reserved), r.decided), count, restock);
    Restock(Envs(Decide(g, r.reserved), r.decided), restock)
  }

  /** A completed buffer, from get to put; the result says whether the loop goes on. */
  ghost function Process(s: RxState, count: nat, restock: nat, r: Round): (res: (RxState, bool))
    requires Polling(s, count) && Arrived(s) && 1 <= restock <= USHRT_MAX
    ensures Polling(res.0, count) && res.0.cleaned == if res.1 then s.cleaned + 1 else s.cleaned
  {
    var a := Accept(s, count, r);
    if r.outcome.NoSkb? then (a, false)
    else
      FinishKeepsInv(Judge(a, count, restock, r), count);
      (Finish(Judge(a, count, restock, r)), true)
  }

  /** The top of a round: refill, then whatever hardware and stack do before the driver looks. */
  ghost function Prepare(s: RxState, count: nat, r: Round): (s': RxState)
    requires Polling(s, count)
    ensures Polling(s', count) && s'.cleaned == if s.cleaned >= RX_BUFFER_WRITE then 0 else s.cleaned
  {
    RefillKeepsInv(s, count, r.pages);
    EnvsKeepInv(Refill(s, r.pages), count, r.before);
    Envs(Refill(s, r.pages), r.before)
  }

  /** One round of clean_rx_irq; the result says whether the loop goes on. */
  ghost function OneRound(s: RxState, count: nat, restock: nat, r: Round): (res: (RxState, bool))
    requires Polling(s, count) && 1 <= restock <= USHRT_MAX
    ensures Polling(res.0, count)
  {
    var b := Prepare(s, count, r);
    if Arrived(b) then Process(b, count, restock, r) else (b, false)
  }

  /** clean_rx_irq from round k on, with room for `budget` more packets; the script lists its rounds. */
  ghost function Rounds(s: RxState, count: nat, restock: nat, rs: seq<Round>, k: nat, budget: nat): (s': RxState)
    requires Polling(s, count) && 1 <= restock <= USHRT_MAX && k <= |rs|
    ensures Polling(s', count)
    decreases |rs| - k
  {
    if k == |rs| || budget == 0 then s
    else
      var (s', more) := OneRound(s, count, restock, rs[k]);
      if more then Rounds(s', count, restock, rs, k + 1, if rs[k].packet then budget - 1 else budget) else s'
  }

  // ---------------------------------------------------------------- what a round makes of a buffer

  /** The same half of the same page, with the same share of its references. */
  predicate SameShare(b: Buf, b': Buf) { b'.page == b.page && b'.half == b.half && b'.bias == b.bias }

  /** Stack and hardware change no buffer's page, half or bias. */
  lemma {:induction false} EnvsKeepShares(s: RxState, es: seq<Env>)
    ensures |Envs(s, es).held| == |s.held|
    ensures forall i :: 0 <= i < |s.held| ==> SameShare(s.held[i], Envs(s, es).held[i])
  {
    if es != [] {
      EnvsKeepShares(s, es[..|es| - 1]);
    }
  }

  /** Data used in place takes one reference out of the bias, leaves with this half and flips the buffer; data copied or
      dropped, and a failed skb, leave the buffer as it was. */
  lemma AcceptOutcome(s: RxState, count: nat, r: Round)
    requires Polling(s, count) && Arrived(s)
    ensures var s', h := Accept(s, count, r), s.held[0];
            && |s'.held| == |s.held| && s'.posted == s.posted && s'.held[0].page == h.page
            && (r.outcome.Used? ==> s'.phase == Given && s'.pinned == Some(Ref(h.page, h.half)) && At(s'.outs, Ref(h.page, h.half)) >= 1
                                    && s'.held[0].half == !h.half && s'.held[0].bias == h.bias - 1)
            && (r.outcome.Copied? ==> s'.phase == Kept && s'.pinned == None && SameShare(h, s'.held[0]))
            && (r.outcome.NoSkb? ==> s'.phase == Ready && s'.pinned == None && SameShare(h, s'.held[0]))
            && (forall i :: 0 < i < |s.held| ==> SameShare(s.held[i], s'.held[i]))
  {
    GetKeepsInv(s, count);
    EnvsKeepInv(Get(s), count, r.inHand);
    EnvsKeepShares(Get(s), r.inHand);
    hide Inv, Envs;
  }

  /** The page may be reused exactly if it is not reserved and at most one reference is outside when the count is read;
      a bias that has run out is restocked then. */
  lemma JudgeOutcome(s: RxState, count: nat, restock: nat, r: Round)
    requires Inv(s, count) && (s.phase.Given? || s.phase.Kept?) && 1 <= restock <= USHRT_MAX && Budgeted(s, count, s.cleaned)
    ensures var s', h := Judge(s, count, restock, r), s.held[0];
            var reuse := !r.reserved && Outs(Envs(s, r.given), h.page) <= 1;
            && |s'.held| == |s.held| && s'.posted == s.posted && s'.phase == Decided(reuse)
            && s'.held[0].page == h.page && s'.held[0].half == h.half
            && s'.held[0].bias == (if reuse && h.bias == 0 then restock else h.bias)
            && (forall i :: 0 < i < |s.held| ==> SameShare(s.held[i], s'.held[i]))
  {
    var g := Envs(s, r.given);
    EnvsKeepInv(s, count, r.given);
    EnvsKeepShares(s, r.given);
    assert Counted(g, 0);
    DecideKeepsInv(g, count, r.reserved);
    EnvsKeepInv(Decide(g, r.reserved), count, r.decided);
    EnvsKeepShares(Decide(g, r.reserved), r.decided);
    hide Inv, Envs;
  }

  /** What a round makes of the buffer at next_to_clean: without an skb it stays; otherwise the slot is passed, the page goes
      behind the others, flipped if its data was used in place, or leaves the ring.  No other buffer changes its share. */
  lemma RoundOutcome(s: RxState, count: nat, restock: nat, r: Round)
    requires Polling(s, count) && 1 <= restock <= USHRT_MAX && Arrived(Prepare(s, count, r))
    ensures var b, (s', more) := Prepare(s, count, r), OneRound(s, count, restock, r);
            var h, n := b.held[0], |b.held|;
            var bias := if r.outcome.Used? then h.bias - 1 else h.bias;
            var reuse := !r.reserved && Outs(Envs(Accept(b, count, r), r.given), h.page) <= 1;
            if r.outcome.NoSkb? then
              !more && s'.posted == b.posted && |s'.held| == n && forall i :: 0 <= i < n ==> SameShare(b.held[i], s'.held[i])
            else
              && more && s'.posted == b.posted - 1
              && |s'.held| == (if reuse then n else n - 1)
              && (forall i :: 0 < i < n ==> SameShare(b.held[i], s'.held[i - 1]))
              && (reuse ==> s'.held[n - 1] == Buf(h.page, if r.outcome.Used? then !h.half else h.half, if bias == 0 then restock else bias, 0))
              && (!reuse ==> NotHeld(s', h.page))
  {
    var b := Prepare(s, count, r);
    AcceptOutcome(b, count, r);
    if !r.outcome.NoSkb? {
      var a := Accept(b, count, r);
      JudgeOutcome(a, count, restock, r);
      var j := Judge(a, count, restock, r);
      FinishOutcome(j, count);
    }
  }

  lemma FinishOutcome(s: RxState, count: nat)
    requires Inv(s, count) && s.phase.Decided?
    ensures var s', h, n := Finish(s), s.held[0], |s.held|;
            && s'.posted == s.posted - 1 && |s'.held| == (if s.phase.reuse then n else n - 1)
            && (forall i :: 0 < i < n ==> s'.held[i - 1] == s.held[i])
            && (s.phase.reuse ==> s'.held[n - 1] == h.(len := 0))
            && (!s.phase.reuse ==> NotHeld(s', h.page))
  {
    if !s.phase.reuse { DropFront(s, Finish(s)); }
  }

  /** The top of a round refills exactly if 16 slots or more were cleaned, and then as many as were cleaned. */
  lemma PrepareOutcome(s: RxState, count: nat, r: Round)
    requires Polling(s, count)
    ensures var b := Prepare(s, count, r);
            var filled := b.posted - s.posted;
            && (s.cleaned < 16 ==> filled == 0 && |b.held| == |s.held| && b.cleaned == s.cleaned)
            && (s.cleaned >= 16 ==> 0 <= filled <= s.cleaned && |b.held| == b.posted && b.cleaned == 0)
            && (s.cleaned >= 16 && filled < s.cleaned ==>
                  Offer(r.pages, filled).None? || At(Refill(s, r.pages).refs, Offer(r.pages, filled).value) > 0)
            && |s.held| <= |b.held| && (forall i :: 0 <= i < |s.held| ==> SameShare(s.held[i], b.held[i]))
  {
    RefillKeepsInv(s, count, r.pages);
    EnvsKeepInv(Refill(s, r.pages), count, r.before);
    EnvsKeepShares(Refill(s, r.pages), r.before);
    if s.cleaned >= RX_BUFFER_WRITE {
      FillKeepsInv(s, count, r.pages, 0, s.cleaned);
      FillOutcome(s, r.pages, 0, s.cleaned);
    }
    hide Inv, Envs, FillFrom;
  }

  /** A poll counts every unused descriptor: if there are 16 or more, its first round fills the ring to the last slot but
      one, short only of pages. */
  lemma FirstRoundFills(s: RxState, count: nat, r: Round)
    requires Inv(s, count) && s.phase.Ready?
    ensures var b := Prepare(Begin(s, count), count, r);
            && (s.posted + 16 > count - 1 ==> b.posted == s.posted)
            && (s.posted + 16 <= count - 1 && b.posted != count - 1 ==>
                  s.posted <= b.posted < count - 1
                  && (Offer(r.pages, b.posted - s.posted).None?
                      || At(Refill(Begin(s, count), r.pages).refs, Offer(r.pages, b.posted - s.posted).value) > 0))
  {
    hide Refill, Prepare;
    PrepareOutcome(Begin(s, count), count, r);
  }

  /** A page just offered, as the ring first holds it. */
  predicate Offered(b: Buf, offer: Option<nat>) { offer.Some? && b == Buf(offer.value, false, 1, 0) }

  /** A fill posts every recycled buffer first, then the pages offered, in order and each with one reference, and stops
      early only at an offer that fails or is still referenced. */
  lemma {:induction false} FillOutcome(s: RxState, pages: seq<Option<nat>>, k: nat, n: nat)
    requires k <= n && s.posted <= |s.held|
    ensures var s' := FillFrom(s, pages, k, n);
            var filled := s'.posted - s.posted;
            && 0 <= filled <= n - k && s.held <= s'.held && |s'.held| == (if s'.posted <= |s.held| then |s.held| else s'.posted)
            && (forall o :: |s.held| <= o < s'.posted ==> Offered(s'.held[o], Offer(pages, k + (o - s.posted))))
            && (filled < n - k ==>
                  |s'.held| == s'.posted && (Offer(pages, k + filled).None? || At(s'.refs, Offer(pages, k + filled).value) > 0))
    decreases n - k
  {
    if k < n && FillOne(s, Offer(pages, k)).1 {
      FillOutcome(FillOne(s, Offer(pages, k)).0, pages, k + 1, n);
    }
  }

  // ---------------------------------------------------------------- when a poll ends

  /** The first n rounds from round k on, one after the other. */
  ghost function Iterate(s: RxState, count: nat, restock: nat, rs: seq<Round>, k: nat, n: nat): (s': RxState)
    requires Polling(s, count) && 1 <= restock <= USHRT_MAX && k + n <= |rs|
    ensures Polling(s', count)
    decreases n
  {
    if n == 0 then s else Iterate(OneRound(s, count, restock, rs[k]).0, count, restock, rs, k + 1, n - 1)
  }

  /** Packets that end in the first n rounds from round k on. */
  function Packets(rs: seq<Round>, k: nat, n: nat): nat
    requires k + n <= |rs|
    decreases n
  {
    if n == 0 then 0 else (if rs[k].packet then 1 else 0) + Packets(rs, k + 1, n - 1)
  }

  /** After i rounds budget was left, and round i processed a buffer. */
  ghost predicate GoesOn(s: RxState, count: nat, restock: nat, rs: seq<Round>, k: nat, budget: nat, i: nat)
    requires Polling(s, count) && 1 <= restock <= USHRT_MAX && k + i < |rs|
  {
    Packets(rs, k, i) < budget && OneRound(Iterate(s, count, restock, rs, k, i), count, restock, rs[k + i]).1
  }

  lemma GoesOnShift(s: RxState, count: nat, restock: nat, rs: seq<Round>, k: nat, budget: nat, left: nat, i: nat)
    requires Polling(s, count) && 1 <= restock <= USHRT_MAX && k + i + 1 < |rs| && budget > 0
    requires left == if rs[k].packet then budget - 1 else budget
    ensures GoesOn(s, count, restock, rs, k, budget, i + 1)
       <==> GoesOn(OneRound(s, count, restock, rs[k]).0, count, restock, rs, k + 1, left, i)
  {
    hide OneRound, Polling;
    assert Iterate(s, count, restock, rs, k, i + 1) == Iterate(OneRound(s, count, restock, rs[k]).0, count, restock, rs, k + 1, i);
    assert Packets(rs, k, i + 1) == (if rs[k].packet then 1 else 0) + Packets(rs, k + 1, i);
    hide Iterate, Packets;
  }

  /** A poll runs while it finds buffers to process and fewer packets have ended than it may hand on: it ends when its
      script does, when the budget is used, or with the first round that finds nothing or gets no skb. */
  lemma {:induction false} PollEnds(s: RxState, count: nat, restock: nat, rs: seq<Round>, k: nat, budget: nat) returns (n: nat)
    requires Polling(s, count) && 1 <= restock <= USHRT_MAX && k <= |rs|
    ensures k + n <= |rs| && forall i :: 0 <= i < n ==> GoesOn(s, count, restock, rs, k, budget, i)
    ensures var t := Iterate(s, count, restock, rs, k, n);
            Rounds(s, count, restock, rs, k, budget)
            == if k + n == |rs| || Packets(rs, k, n) == budget then t else OneRound(t, count, restock, rs[k + n]).0
    ensures Packets(rs, k, n) <= budget
    ensures k + n == |rs| || Packets(rs, k, n) == budget || !GoesOn(s, count, restock, rs, k, budget, n)
    decreases |rs| - k
  {
    hide OneRound, Polling;
    n := 0;
    if k < |rs| && budget > 0 {
      var (s', more) := OneRound(s, count, restock, rs[k]);
      RoundsStep(s, count, restock, rs, k, budget);
      if more {
        var left := if rs[k].packet then budget - 1 else budget;
        var rest := PollEnds(s', count, restock, rs, k + 1, left);
        n := rest + 1;
        assert GoesOn(s, count, restock, rs, k, budget, 0);
        assert Iterate(s, count, restock, rs, k, n) == Iterate(s', count, restock, rs, k + 1, rest);
        assert Packets(rs, k, n) == (if rs[k].packet then 1 else 0) + Packets(rs, k + 1, rest);
        hide Iterate, Packets, GoesOn, Rounds;
        forall i | 0 < i < n
          ensures GoesOn(s, count, restock, rs, k, budget, i)
        {
          GoesOnShift(s, count, restock, rs, k, budget, left, i - 1);
        }
        if k + n < |rs| { GoesOnShift(s, count, restock, rs, k, budget, left, rest); }
      }
    }
  }

  lemma RoundsStep(s: RxState, count: nat, restock: nat, rs: seq<Round>, k: nat, budget: nat)
    requires Polling(s, count) && 1 <= restock <= USHRT_MAX && k < |rs| && budget > 0
    ensures var (s', more) := OneRound(s, count, restock, rs[k]);
            Rounds(s, count, restock, rs, k, budget)
            == if more then Rounds(s', count, restock, rs, k + 1, if rs[k].packet then budget - 1 else budget) else s'
  {
  }
}
