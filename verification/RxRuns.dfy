/** Every run of the receive ring, with stack and hardware acting between any two steps of the driver. */
module RxRuns {
  import opened Util
  import opened RxSpec
  import opened RxPolls

  datatype Event =
    | PollStart                           // a poll starts with cleaned_count = unused descriptors
    | Replenish(pages: seq<Option<nat>>)  // alloc_rx_buffers once enough slots were cleaned
    | GetBuffer | Flip | GiveBack(again: bool) | Check(reserved: bool) | TopUp | Put
    | Outside(e: Env)
    | Teardown                            // clean_rx_ring
    | Configure(pages: seq<Option<nat>>)  // configure_rx_ring's first fill

  ghost predicate Possible(s: RxState, e: Event)
  {
    match e
    case PollStart => s.phase.Ready?
    case Replenish(_) => s.phase.Ready?
    case GetBuffer => s.phase.Ready? && s.posted > 0 && |s.held| > 0 && s.held[0].len != 0 && s.held[0].bias > 0
    case Flip => s.phase.InHand? && |s.held| > 0
    case GiveBack(_) => s.phase.InHand? && |s.held| > 0
    case Check(_) => (s.phase.Given? || s.phase.Kept?) && |s.held| > 0
    case TopUp => s.phase.Decided? && |s.held| > 0
    case Put => s.phase.Decided? && s.posted > 0 && |s.held| > 0 && (s.phase.reuse ==> s.held[0].bias > 0)
    case Outside(_) => true
    case Teardown => s.phase.Ready?
    case Configure(_) => s.phase.Ready? && s.held == []
  }

  ghost function Step(s: RxState, count: nat, restock: nat, e: Event): RxState
    requires count > 0
  {
    if !Possible(s, e) then s
    else match e
      case PollStart => if s.posted < count then s.(cleaned := count - 1 - s.posted) else s
      case Replenish(pages) => Refill(s, pages)
      case GetBuffer => Get(s)
      case Flip => Take(s)
      case GiveBack(again) => PutBack(s, again)
      case Check(reserved) => Decide(s, reserved)
      case TopUp => Restock(s, restock)
      case Put => Finish(s)
      case Outside(e) => EnvStep(s, e)
      case Teardown => Drain(s)
      case Configure(pages) => FillFrom(s, pages, 0, count - 1).(cleaned := 0)
  }

  const START: RxState := RxState([], 0, Ready, None, 0, map[], map[])

  ghost function Run(count: nat, restock: nat, es: seq<Event>): RxState
    requires count > 0
  {
    if es == [] then START else Step(Run(count, restock, es[..|es| - 1]), count, restock, es[|es| - 1])
  }

  /** The ring's invariant, and cleaned_count covers every recycled buffer that waits behind next_to_use. */
  ghost predicate RunInv(s: RxState, count: nat) { Inv(s, count) && Budgeted(s, count, s.cleaned) }

  lemma ConfigureKeepsInv(s: RxState, count: nat, pages: seq<Option<nat>>)
    requires RunInv(s, count) && s.phase.Ready? && s.held == []
    ensures RunInv(FillFrom(s, pages, 0, count - 1).(cleaned := 0), count)
  {
    FillKeepsInv(s, count, pages, 0, count - 1);
    CleanedIrrelevant(FillFrom(s, pages, 0, count - 1), count, 0);
  }

  lemma StepKeepsInv(s: RxState, count: nat, restock: nat, e: Event)
    requires RunInv(s, count) && 1 <= restock <= USHRT_MAX
    ensures RunInv(Step(s, count, restock, e), count)
  {
    if Possible(s, e) {
      match e
      case PollStart => CleanedIrrelevant(s, count, count - 1 - s.posted);
      case Replenish(pages) => RefillKeepsInv(s, count, pages);
      case GetBuffer => GetKeepsInv(s, count);
      case Flip => TakeKeepsInv(s, count);
      case GiveBack(again) => PutBackKeepsInv(s, count, again);
      case Check(reserved) => DecideKeepsInv(s, count, reserved);
      case TopUp => RestockKeepsInv(s, count, restock);
      case Put => FinishKeepsInv(s, count);
      case Outside(e) => EnvKeepsInv(s, count, e);
      case Teardown => DrainKeepsInv(s, count);
      case Configure(pages) => ConfigureKeepsInv(s, count, pages);
    }
  }

  lemma {:induction false} RunKeepsInv(count: nat, restock: nat, es: seq<Event>)
    requires count > 0 && 1 <= restock <= USHRT_MAX
    ensures RunInv(Run(count, restock, es), count)
  {
    if es != [] {
      RunKeepsInv(count, restock, es[..|es| - 1]);
      StepKeepsInv(Run(count, restock, es[..|es| - 1]), count, restock, es[|es| - 1]);
    }
  }

  /** In every state of every run nobody outside references the half a posted, uncompleted descriptor points at. */
  lemma PostedHalfIsExclusive(count: nat, restock: nat, es: seq<Event>, i: nat)
    requires count > 0 && 1 <= restock <= USHRT_MAX
    requires i < Run(count, restock, es).posted && i < |Run(count, restock, es).held|
    requires Run(count, restock, es).held[i].len == 0
    ensures At(Run(count, restock, es).outs, Run(count, restock, es).held[i].Half()) == 0
  {
    RunKeepsInv(count, restock, es);
    assert Counted(Run(count, restock, es), i);
  }

  /** In every state of every run a page's count is the ring's share, plus the references outside, plus the one in hand. */
  lemma ReferencesAddUp(count: nat, restock: nat, es: seq<Event>, p: nat)
    requires count > 0 && 1 <= restock <= USHRT_MAX
    ensures var s := Run(count, restock, es);
            && (NotHeld(s, p) ==> At(s.refs, p) == Outs(s, p))
            && (forall i :: 0 <= i < |s.held| && SamePage(s, i, p) ==>
                  At(s.refs, p) == s.held[i].bias + Outs(s, p) + if i == 0 && s.phase.InHand? then 1 else 0)
  {
    RunKeepsInv(count, restock, es);
    var s := Run(count, restock, es);
    forall i | 0 <= i < |s.held| && SamePage(s, i, p)
      ensures At(s.refs, p) == s.held[i].bias + Outs(s, p) + if i == 0 && s.phase.InHand? then 1 else 0
    {
      assert Counted(s, i);
    }
  }

  /** The ring's shape in every run: next_to_clean <= next_to_use <= next_to_alloc, less than a lap apart, one page per slot. */
  lemma RingShape(count: nat, restock: nat, es: seq<Event>)
    requires count > 0 && 1 <= restock <= USHRT_MAX
    ensures var s := Run(count, restock, es);
            && s.posted <= |s.held| <= count - 1
            && |s.held| - s.posted <= s.cleaned <= count - 1 - s.posted
            && forall i, j :: 0 <= i < j < |s.held| ==> s.held[i].page != s.held[j].page
  {
    RunKeepsInv(count, restock, es);
    var s := Run(count, restock, es);
    assert forall i, j :: 0 <= i < j < |s.held| && s.held[i].page == s.held[j].page ==> SamePage(s, i, s.held[j].page);
  }

  /** A torn-down ring owns nothing: a page is free as soon as everyone outside has let go of it. */
  lemma TeardownReleasesAll(count: nat, restock: nat, es: seq<Event>, p: nat)
    requires count > 0 && 1 <= restock <= USHRT_MAX && Run(count, restock, es).phase.Ready?
    ensures var s := Run(count, restock, es + [Teardown]); s.held == [] && At(s.refs, p) == Outs(Run(count, restock, es), p) == Outs(s, p)
  {
    RunKeepsInv(count, restock, es);
    assert (es + [Teardown])[..|es|] == es;
    DrainReleasesAll(Run(count, restock, es), count, p);
  }

  /** A page the ring holds is never freed under it, whatever the stack gives up. */
  lemma HeldPagesAreAlive(count: nat, restock: nat, es: seq<Event>, i: nat)
    requires count > 0 && 1 <= restock <= USHRT_MAX && i < |Run(count, restock, es).held|
    ensures At(Run(count, restock, es).refs, Run(count, restock, es).held[i].page) >= 1
  {
    RunKeepsInv(count, restock, es);
    assert Counted(Run(count, restock, es), i);
  }

  // ---------------------------------------------------------------- polls are runs

  /** Continue from a given state. */
  ghost function RunFrom(s: RxState, count: nat, restock: nat, es: seq<Event>): RxState
    requires count > 0
  {
    if es == [] then s else Step(RunFrom(s, count, restock, es[..|es| - 1]), count, restock, es[|es| - 1])
  }

  lemma {:induction false} RunFromAppend(s: RxState, count: nat, restock: nat, a: seq<Event>, b: seq<Event>)
    requires count > 0
    ensures RunFrom(s, count, restock, a + b) == RunFrom(RunFrom(s, count, restock, a), count, restock, b)
  {
    hide Step;
    if b == [] {
      assert a + b == a;
    } else {
      RunFromAppend(s, count, restock, a, b[..|b| - 1]);
      assert (a + b)[..|a + b| - 1] == a + b[..|b| - 1];
    }
  }

  lemma {:induction false} RunIsFromStart(count: nat, restock: nat, es: seq<Event>)
    requires count > 0
    ensures Run(count, restock, es) == RunFrom(START, count, restock, es)
  {
    if es != [] {
      RunIsFromStart(count, restock, es[..|es| - 1]);
    }
  }

  lemma RunFromOne(s: RxState, count: nat, restock: nat, e: Event)
    requires count > 0
    ensures RunFrom(s, count, restock, [e]) == Step(s, count, restock, e)
  {
    assert [e][..0] == [];
  }

  function Outsides(es: seq<Env>): seq<Event>
  {
    if es == [] then [] else Outsides(es[..|es| - 1]) + [Outside(es[|es| - 1])]
  }

  lemma {:induction false} OutsidesRun(s: RxState, count: nat, restock: nat, es: seq<Env>)
    requires count > 0
    ensures RunFrom(s, count, restock, Outsides(es)) == Envs(s, es)
  {
    if es != [] {
      OutsidesRun(s, count, restock, es[..|es| - 1]);
      RunFromAppend(s, count, restock, Outsides(es[..|es| - 1]), [Outside(es[|es| - 1])]);
      RunFromOne(RunFrom(s, count, restock, Outsides(es[..|es| - 1])), count, restock, Outside(es[|es| - 1]));
    }
  }

  /** A driver step, then what stack and hardware do. */
  lemma StepThenOutside(s: RxState, count: nat, restock: nat, e: Event, es: seq<Env>)
    requires count > 0
    ensures RunFrom(s, count, restock, [e] + Outsides(es)) == Envs(Step(s, count, restock, e), es)
  {
    hide Step, Envs;
    RunFromAppend(s, count, restock, [e], Outsides(es));
    RunFromOne(s, count, restock, e);
    OutsidesRun(Step(s, count, restock, e), count, restock, es);
  }

  function Acceptance(o: Outcome): Event
  {
    match o case Used => Flip case Copied => GiveBack(false) case NoSkb => GiveBack(true)
  }

  function AcceptEvents(r: Round): seq<Event> { [GetBuffer] + Outsides(r.inHand) + [Acceptance(r.outcome)] }

  function JudgeEvents(r: Round): seq<Event> { Outsides(r.given) + ([Check(r.reserved)] + Outsides(r.decided)) + [TopUp] }

  lemma AcceptIsRun(s: RxState, count: nat, restock: nat, r: Round)
    requires count > 0 && Polling(s, count) && Arrived(s)
    ensures RunFrom(s, count, restock, AcceptEvents(r)) == Accept(s, count, r)
  {
    GetKeepsInv(s, count);
    EnvsKeepInv(Get(s), count, r.inHand);
    hide Inv, Envs;
    StepThenOutside(s, count, restock, GetBuffer, r.inHand);
    var g := Envs(Get(s), r.inHand);
    RunFromAppend(s, count, restock, [GetBuffer] + Outsides(r.inHand), [Acceptance(r.outcome)]);
    RunFromOne(g, count, restock, Acceptance(r.outcome));
  }

  lemma JudgeIsRun(s: RxState, count: nat, restock: nat, r: Round)
    requires count > 0 && Inv(s, count) && (s.phase.Given? || s.phase.Kept?) && 1 <= restock <= USHRT_MAX && Budgeted(s, count, s.cleaned)
    ensures RunFrom(s, count, restock, JudgeEvents(r)) == Judge(s, count, restock, r)
  {
    hide Inv, Envs, RunFrom, Decide, Restock, Step;
    var g := Envs(s, r.given);
    var check := [Check(r.reserved)] + Outsides(r.decided);
    CheckPossible(s, count, restock, r);
    OutsidesRun(s, count, restock, r.given);
    RunFromAppend(s, count, restock, Outsides(r.given), check);
    StepThenOutside(g, count, restock, Check(r.reserved), r.decided);
    RunFromAppend(s, count, restock, Outsides(r.given) + check, [TopUp]);
    RunFromOne(Envs(Decide(g, r.reserved), r.decided), count, restock, TopUp);
  }

  lemma CheckPossible(s: RxState, count: nat, restock: nat, r: Round)
    requires count > 0 && Inv(s, count) && (s.phase.Given? || s.phase.Kept?)
    ensures |Envs(s, r.given).held| > 0
    ensures var g := Envs(s, r.given);
            var d := Envs(Decide(g, r.reserved), r.decided);
            && Step(g, count, restock, Check(r.reserved)) == Decide(g, r.reserved)
            && |d.held| > 0 && Step(d, count, restock, TopUp) == Restock(d, restock)
  {
    hide Inv, Envs, Restock, Step, Decide;
    EnvsKeepInv(s, count, r.given);
    var g := Envs(s, r.given);
    HoldsOne(g, count);
    CheckStep(g, count, restock, r.reserved);
    DecideKeepsInv(g, count, r.reserved);
    EnvsKeepInv(Decide(g, r.reserved), count, r.decided);
    var d := Envs(Decide(g, r.reserved), r.decided);
    HoldsOne(d, count);
    TopUpStep(d, count, restock);
  }

  lemma CheckStep(s: RxState, count: nat, restock: nat, reserved: bool)
    requires count > 0 && (s.phase.Given? || s.phase.Kept?) && |s.held| > 0
    ensures Step(s, count, restock, Check(reserved)) == Decide(s, reserved) && Decide(s, reserved).phase.Decided?
  {
    hide Refill, FillFrom, EnvStep, Finish, Drain, Restock;
  }

  lemma TopUpStep(s: RxState, count: nat, restock: nat)
    requires count > 0 && s.phase.Decided? && |s.held| > 0
    ensures Step(s, count, restock, TopUp) == Restock(s, restock)
  {
    hide Refill, FillFrom, EnvStep, Finish, Drain, Restock, Decide;
  }

  lemma HoldsOne(s: RxState, count: nat)
    requires Inv(s, count) && !s.phase.Ready?
    ensures s.posted > 0 && |s.held| > 0
  {
  }

  /** The events of one round, given whether it finds a buffer. */
  function RoundEvents(r: Round, arrived: bool): seq<Event>
  {
    var top := [Replenish(r.pages)] + Outsides(r.before);
    if !arrived then top
    else if r.outcome.NoSkb? then top + AcceptEvents(r)
    else top + (AcceptEvents(r) + (JudgeEvents(r) + [Put]))
  }

  lemma ProcessIsRun(s: RxState, count: nat, restock: nat, r: Round)
    requires count > 0 && Polling(s, count) && Arrived(s) && 1 <= restock <= USHRT_MAX && !r.outcome.NoSkb?
    ensures RunFrom(s, count, restock, AcceptEvents(r) + (JudgeEvents(r) + [Put])) == Process(s, count, restock, r).0
  {
    var a := Accept(s, count, r);
    var j := Judge(a, count, restock, r);
    HoldsOne(j, count);
    AcceptIsRun(s, count, restock, r);
    JudgeIsRun(a, count, restock, r);
    hide Inv, Accept, Judge, AcceptEvents, JudgeEvents;
    RunFromAppend(s, count, restock, AcceptEvents(r), JudgeEvents(r) + [Put]);
    RunFromAppend(a, count, restock, JudgeEvents(r), [Put]);
    RunFromOne(j, count, restock, Put);
  }

  lemma RoundIsRun(s: RxState, count: nat, restock: nat, r: Round)
    requires count > 0 && Polling(s, count) && 1 <= restock <= USHRT_MAX
    ensures RunFrom(s, count, restock, RoundEvents(r, Arrived(Prepare(s, count, r)))) == OneRound(s, count, restock, r).0
  {
    hide Inv, Accept, Judge, AcceptEvents, JudgeEvents, Refill, Envs;
    var top, b := [Replenish(r.pages)] + Outsides(r.before), Prepare(s, count, r);
    StepThenOutside(s, count, restock, Replenish(r.pages), r.before);
    if Arrived(b) {
      if r.outcome.NoSkb? {
        RunFromAppend(s, count, restock, top, AcceptEvents(r));
        AcceptIsRun(b, count, restock, r);
      } else {
        RunFromAppend(s, count, restock, top, AcceptEvents(r) + (JudgeEvents(r) + [Put]));
        ProcessIsRun(b, count, restock, r);
      }
    }
  }

  lemma RoundsEnd(s: RxState, count: nat, restock: nat, rs: seq<Round>, k: nat, budget: nat)
    requires count > 0 && Polling(s, count) && 1 <= restock <= USHRT_MAX && k <= |rs| && (k == |rs| || budget == 0)
    ensures Rounds(s, count, restock, rs, k, budget) == RunFrom(s, count, restock, [])
  {
  }

  lemma {:induction false} RoundsAreRun(s: RxState, count: nat, restock: nat, rs: seq<Round>, k: nat, budget: nat) returns (es: seq<Event>)
    requires count > 0 && Polling(s, count) && 1 <= restock <= USHRT_MAX && k <= |rs|
    ensures RunFrom(s, count, restock, es) == Rounds(s, count, restock, rs, k, budget)
    decreases |rs| - k
  {
    hide OneRound, Polling, Rounds, RunFrom, RoundEvents, Arrived, Prepare;
    es := [];
    if k == |rs| || budget == 0 {
      RoundsEnd(s, count, restock, rs, k, budget);
    } else {
      RoundsStep(s, count, restock, rs, k, budget);
      RoundIsRun(s, count, restock, rs[k]);
      es := RoundEvents(rs[k], Arrived(Prepare(s, count, rs[k])));
      var (s', more) := OneRound(s, count, restock, rs[k]);
      if more {
        var rest := RoundsAreRun(s', count, restock, rs, k + 1, if rs[k].packet then budget - 1 else budget);
        RunFromAppend(s, count, restock, es, rest);
        es := es + rest;
      }
    }
  }

  /** A whole poll, whatever stack and hardware do between its steps, continues a run by driver and outside events only: all
      that is promised of every run is promised of every poll. */
  lemma PollIsRun(count: nat, restock: nat, es: seq<Event>, rs: seq<Round>, budget: nat) returns (more: seq<Event>)
    requires count > 0 && 1 <= restock <= USHRT_MAX && Run(count, restock, es).phase.Ready?
    ensures Inv(Run(count, restock, es), count)
    ensures Run(count, restock, es + more) == Rounds(Begin(Run(count, restock, es), count), count, restock, rs, 0, budget)
  {
    var s := Run(count, restock, es);
    RunKeepsInv(count, restock, es);
    var rounds := RoundsAreRun(Begin(s, count), count, restock, rs, 0, budget);
    more := [PollStart] + rounds;
    RunFromOne(s, count, restock, PollStart);
    assert Step(s, count, restock, PollStart) == Begin(s, count);
    hide Step, Inv, Begin, Rounds, Polling;
    RunFromAppend(s, count, restock, [PollStart], rounds);
    RunIsFromStart(count, restock, es);
    RunIsFromStart(count, restock, es + more);
    RunFromAppend(START, count, restock, es, more);
  }
}
