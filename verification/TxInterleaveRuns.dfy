/** Every interleaving of transmitter, cleaner and hardware on one ring. */
module TxInterleaveRuns {
  import opened Util
  import opened TxSpec
  import opened TxRings
  import opened TxConservation
  import opened TxInterleave

  /** One step of whichever side it belongs to; a step that does not fit where that side stands does nothing. */
  function Execute(m: Machine, e: Step): Machine
  {
    if !InArrays(m) then m
    else if e.Pass? || e.Take? || e.Walk? || e.NextPacket? || e.Stop? then Clean(m, e)
    else if e.Reported? then Report(m, e.f, e.d)
    else Transmit(m, e)
  }

  function Boot(count: nat): Machine
    requires count > 0
  {
    Machine(seq(count, _ => ZEROED), seq(count, _ => CONTEXT), 0, 0, Out, Resting, [])
  }

  function Run(count: nat, es: seq<Step>): Machine
    requires count > 0
  {
    if es == [] then Boot(count) else Execute(Run(count, es[..|es| - 1]), es[|es| - 1])
  }

  // ---------------------------------------------------------------- what they all promise

  /** In every interleaving and at every point of its log, nothing was freed or undone more often than taken or made. */
  lemma NothingTwiceInterleaved(count: nat, es: seq<Step>, n: nat, k: Key)
    requires count >= 3 && n <= |Run(count, es).log|
    ensures CountTo(Run(count, es).log, n, Loss(k)) <= CountTo(Run(count, es).log, n, Gain(k))
  {
    var v := RunKeepsGood(count, es);
  }

  /** In every interleaving a ring at rest with its indices together holds nothing: everything taken was given back. */
  lemma EmptyRingOwesNothing(count: nat, es: seq<Step>, k: Key)
    requires count >= 3 && var m := Run(count, es); m.tx.Out? && m.cl.Resting? && m.ntu == m.ntc
    ensures Count(Run(count, es).log, Gain(k)) == Count(Run(count, es).log, Loss(k))
  {
    var v := RunKeepsGood(count, es);
    var m := Run(count, es);
    WrapInjective(m.ntc, |Flatten(v.queue)|, 0, count);
    FlattenMonotone(v.queue, 0, |v.queue|);
    assert CleanerOwes(v) + SenderOwes(m.tx, v.pending) == [];
    assert Live(m.log, k) + Live([], k) == 0;
  }

  /** In every interleaving the cleaner leaves the slots of an unpublished frame alone, mapped, half undone or not. */
  lemma CleanerStaysBehind(count: nat, es: seq<Step>)
    requires count >= 3
    requires var m := Run(count, es);
             m.cl.Seeking? && ((m.tx.Placing? && m.cl.at == m.tx.w.first) || (m.tx.Unwinding? && m.cl.at == m.tx.w.first))
    ensures Execute(Run(count, es), Take) == Run(count, es)
  {
    var v := RunKeepsGood(count, es);
    var m := Run(count, es);
    WrapInjective(m.ntc, Lo(v), |Flatten(v.queue)|, |m.bufs|);
    FlattenMonotone(v.queue, v.n, |v.queue|);
    NothingWatched(m, v);
  }

  // ---------------------------------------------------------------- nothing is freed before hardware has reported it

  predicate Watches(m: Machine, f: nat, eop: nat) { f < |m.bufs| && m.bufs[f].nextToWatch == Some(eop) }

  /** This step is hardware's report on descriptor `eop`. */
  predicate Reports(m: Machine, e: Step, eop: nat) { e.Reported? && e.d.dd && Watches(m, e.f, eop) && eop < |m.descs| }

  predicate DoneAt(m: Machine, eop: nat) { eop < |m.descs| && m.descs[eop].dd }

  /** The descriptor the transmitter wrote last reports nothing. */
  predicate LastFresh(m: Machine) { m.tx.Placing? && m.tx.used > 0 ==> !DoneAt(m, m.tx.i) }

  lemma LastFreshKept(m: Machine, v: View, e: Step)
    requires Good(m, v) && InArrays(m) && LastFresh(m)
    ensures LastFresh(Execute(m, e))
  {
    hide RingGood, CleanerGood, SenderGood, Books, UnmapIf;
    if e.Reported? && Report(m, e.f, e.d) != m && m.tx.Placing? && m.tx.used > 0 {
      LastUnwatched(m, v, e.f);
    }
  }

  /** No record watches the slot the transmitter wrote last. */
  lemma LastUnwatched(m: Machine, v: View, f: nat)
    requires RingGood(m, v) && SenderGood(m, v) && m.tx.Placing? && m.tx.used > 0 && f < |m.bufs| && m.bufs[f].nextToWatch.Some?
    ensures m.bufs[f].nextToWatch.value != m.tx.i
  {
    hide Laid, PendingOk, FlattenTo;
    var k := WatchedPacket(m, v, f);
    WrapInjective(m.ntc, |FlattenTo(v.queue, k + 1)| - 1, |Cells(v)| - 1, |m.bufs|);
  }

  /** A watched descriptor that is done was watched and done before, unless hardware has just reported it. */
  lemma DoneStep(m: Machine, v: View, e: Step, f: nat, eop: nat)
    requires Good(m, v) && InArrays(m) && LastFresh(m) && Watches(Execute(m, e), f, eop) && DoneAt(Execute(m, e), eop)
    ensures Watches(m, f, eop) && (DoneAt(m, eop) || Reports(m, e, eop))
  {
    hide RingGood, CleanerGood, SenderGood, Books, UnmapIf;
  }

  /** Record f has watched descriptor `eop` ever since step j, which was hardware's report on it. */
  ghost predicate ReportedAt(count: nat, es: seq<Step>, f: nat, eop: nat, j: nat)
    requires count > 0
  {
    && j < |es| && Reports(Run(count, es[..j]), es[j], eop)
    && forall k :: j <= k <= |es| ==> Watches(Run(count, es[..k]), f, eop)
  }

  lemma {:induction false} RunKeepsFresh(count: nat, es: seq<Step>)
    requires count >= 3
    ensures LastFresh(Run(count, es))
  {
    hide LastFresh;
    if es == [] {
      BootFresh(count);
    } else {
      var v := RunKeepsGood(count, es[..|es| - 1]);
      RunKeepsFresh(count, es[..|es| - 1]);
      GoodInArrays(Run(count, es[..|es| - 1]), v);
      LastFreshKept(Run(count, es[..|es| - 1]), v, es[|es| - 1]);
    }
  }

  lemma BootFresh(count: nat)
    requires count > 0
    ensures LastFresh(Boot(count))
    ensures forall f, eop :: !Watches(Boot(count), f, eop)
  {
  }

  lemma {:induction false} DoneWasReported(count: nat, es: seq<Step>, f: nat, eop: nat) returns (j: nat)
    requires count >= 3 && Watches(Run(count, es), f, eop) && DoneAt(Run(count, es), eop)
    ensures ReportedAt(count, es, f, eop, j)
  {
    hide Good, LastFresh, Execute, Watches, Reports, DoneAt;
    assert es[..|es|] == es;
    if es == [] {
      BootFresh(count);
    } else {
      var before := es[..|es| - 1];
      var m := Run(count, before);
      var v := RunKeepsGood(count, before);
      GoodInArrays(m, v);
      RunKeepsFresh(count, before);
      DoneStep(m, v, es[|es| - 1], f, eop);
      j := |es| - 1;
      if !Reports(m, es[|es| - 1], eop) {
        j := DoneWasReported(count, before, f, eop);
        ReportedGrows(count, es, f, eop, j);
      }
    }
  }

  lemma ReportedGrows(count: nat, es: seq<Step>, f: nat, eop: nat, j: nat)
    requires count >= 3 && es != [] && ReportedAt(count, es[..|es| - 1], f, eop, j) && Watches(Run(count, es), f, eop)
    ensures ReportedAt(count, es, f, eop, j)
  {
    hide Watches, Reports, Run;
    var before := es[..|es| - 1];
    assert before[..j] == es[..j];
    forall k | j <= k <= |es|
      ensures Watches(Run(count, es[..k]), f, eop)
    {
      if k < |es| { assert before[..k] == es[..k]; } else { assert es[..k] == es; }
    }
  }

  /** In every interleaving the cleaner frees a buffer only after hardware has reported the last descriptor of its
      packet, the packet's first record having watched it from the report on. */
  lemma FreedOnlyAfterReport(count: nat, es: seq<Step>) returns (j: nat)
    requires count >= 3 && Execute(Run(count, es), Take) != Run(count, es)
    ensures var m := Run(count, es);
            && m.cl.Seeking? && m.cl.at < |m.bufs| && m.bufs[m.cl.at].nextToWatch.Some?
            && ReportedAt(count, es, m.cl.at, m.bufs[m.cl.at].nextToWatch.value, j)
  {
    var m := Run(count, es);
    j := DoneWasReported(count, es, m.cl.at, m.bufs[m.cl.at].nextToWatch.value);
  }

  // ---------------------------------------------------------------- step by step

  /** Any step of any side, from any state of the others, keeps the view. */
  lemma StepKeepsGood(m: Machine, v: View, e: Step) returns (v': View)
    requires Good(m, v) && InArrays(m)
    ensures Good(Execute(m, e), v')
  {
    hide Good, Transmit, Clean, Report;
    v' := v;
    match e
    case Begin(skb, bytes, segs, need) => if m.tx.Out? { BeginStep(m, v, skb, bytes, segs, need); } else { Idle(m, v, e); }
    case Drop => if m.tx.Placing? { DropStep(m, v); } else { Idle(m, v, e); }
    case Context => if m.tx.Placing? { v' := DescribeStep(m, v, e); } else { Idle(m, v, e); }
    case Describe(_) => if m.tx.Placing? { v' := DescribeStep(m, v, e); } else { Idle(m, v, e); }
    case Rewrite(d) => if m.tx.Placing? { v' := RewriteStep(m, v, d); } else { Idle(m, v, e); }
    case MapHead(_, _) => if m.tx.Placing? { v' := MapStep(m, v, e); } else { Idle(m, v, e); }
    case MapFrag(_, _) => if m.tx.Placing? { v' := MapStep(m, v, e); } else { Idle(m, v, e); }
    case Watch => if m.tx.Placing? { v' := WatchStep(m, v); } else { Idle(m, v, e); }
    case Fail => if m.tx.Placing? { TurnStep(m, v, e); } else { Idle(m, v, e); }
    case Advance => if m.tx.Watched? { TurnStep(m, v, e); } else { Idle(m, v, e); }
    case UndoLast => if m.tx.Unwinding? { v' := UndoLastStep(m, v); } else { Idle(m, v, e); }
    case UndoHead => if m.tx.Unwinding? { v' := UndoHeadStep(m, v); } else { Idle(m, v, e); }
    case Pass(budget) => if m.cl.Resting? { PassStep(m, v, budget); } else { Idle(m, v, e); }
    case Take => if m.cl.Seeking? { v' := TakeStep(m, v); } else { Idle(m, v, e); }
    case Stop => if m.cl.Seeking? { v' := StopStep(m, v); } else { Idle(m, v, e); }
    case Walk => if m.cl.Walking? { v' := WalkStep(m, v); } else { Idle(m, v, e); }
    case NextPacket => if m.cl.Walking? { v' := NextPacketStep(m, v); } else { Idle(m, v, e); }
    case Reported(f, d) => v' := ReportStep(m, v, f, d);
  }

  /** Steps that do not belong to where a side stands do nothing. */
  predicate Fits(m: Machine, e: Step)
  {
    match e
    case Begin(_, _, _, _) => m.tx.Out?
    case Drop => m.tx.Placing? case Context => m.tx.Placing? case Describe(_) => m.tx.Placing? case Rewrite(_) => m.tx.Placing?
    case MapHead(_, _) => m.tx.Placing? case MapFrag(_, _) => m.tx.Placing? case Watch => m.tx.Placing? case Fail => m.tx.Placing?
    case Advance => m.tx.Watched?
    case UndoLast => m.tx.Unwinding? case UndoHead => m.tx.Unwinding?
    case Pass(_) => m.cl.Resting?
    case Take => m.cl.Seeking? case Stop => m.cl.Seeking?
    case Walk => m.cl.Walking? case NextPacket => m.cl.Walking?
    case Reported(_, _) => true
  }

  lemma Idle(m: Machine, v: View, e: Step)
    requires Good(m, v) && InArrays(m) && !Fits(m, e)
    ensures Good(Execute(m, e), v)
  {
    hide Good;
    assert Execute(m, e) == m;
  }

  lemma GoodInArrays(m: Machine, v: View)
    requires Good(m, v)
    ensures InArrays(m)
  {
    hide Laid, PendingOk, Square, CleanerOwes, UnmapsFrom;
  }

  lemma BootGood(count: nat)
    requires count >= 3
    ensures Good(Boot(count), View([], 0, 0, []))
  {
    var m, v := Boot(count), View([], 0, 0, []);
    assert Cells(v) == [];
    forall o | 0 <= o < count ensures SlotOk(m.bufs, m.descs, 0, Cells(v), 0, o) { assert m.bufs[Wrap(0, o, count)] == ZEROED; }
    assert CleanerOwes(v) + SenderOwes(m.tx, []) == [];
  }

  lemma SizeKept(m: Machine, e: Step)
    ensures |Execute(m, e).bufs| == |m.bufs|
  {
  }

  lemma {:induction false} RunKeepsGood(count: nat, es: seq<Step>) returns (v: View)
    requires count >= 3
    ensures Good(Run(count, es), v) && |Run(count, es).bufs| == count
  {
    hide Good, Execute;
    if es == [] {
      BootGood(count);
      v := View([], 0, 0, []);
    } else {
      var m := Run(count, es[..|es| - 1]);
      var before := RunKeepsGood(count, es[..|es| - 1]);
      GoodInArrays(m, before);
      SizeKept(m, es[|es| - 1]);
      v := StepKeepsGood(m, before, es[|es| - 1]);
    }
  }
}
