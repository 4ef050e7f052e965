/**
 How far clean-up goes.  It takes requests off the ring up to the first one with a TRB that
 ends the event; with the marks batches put on TRBs, that is the request the event is about.
 */
module EndpointCleanup {
  import opened TrbRing
  import opened EndpointModel
  import opened EndpointRing
  import opened EndpointRuns
  import opened EndpointBytes

  /** Does the event end at this TRB?  It does at the mark it speaks of, at a TRB the controller
      has not come to when it speaks of the end of the transfer, and on OUT endpoints at the
      TRB a short packet left bytes of. */
  predicate EndsEvent(dirIn: bool, trb: Trb, e: Event) {
    || (e.ioc && trb.ioc)
    || (e.lst && (trb.lst || trb.hwo))
    || (e.short && !dirIn && trb.count > 0)
  }

  /** Does it end at one of the TRBs of a request, from the i-th on? */
  ghost predicate EndsIn(dirIn: bool, pool: seq<Trb>, r: Request, i: nat, e: Event)
    requires |pool| == TRB_NUM
  {
    exists j :: i <= j < Width(r) && EndsEvent(dirIn, pool[CleanupSlot(r.startSlot, j)], e)
  }

  lemma {:induction false} WalkEnds(dirIn: bool, pool: seq<Trb>, r: Request, i: nat, e: Event, actual: nat,
                                    missed: bool)
    requires |pool| == TRB_NUM && i < Width(r)
    ensures WalkTrbs(dirIn, pool, r, i, e, actual, missed).done <==> EndsIn(dirIn, pool, r, i, e)
    decreases Width(r) - i
  {
    var one := ReadTrb(dirIn, pool[CleanupSlot(r.startSlot, i)], r.length, e, actual, missed);
    if one.done {
      assert EndsEvent(dirIn, pool[CleanupSlot(r.startSlot, i)], e);
    } else if i + 1 < Width(r) {
      WalkEnds(dirIn, pool, r, i + 1, e, one.actual, one.missedIsoc);
    }
  }

  ghost predicate Ends(s: Ep, k: nat)
    requires s.ring.Indexable() && s.phase.Cleaning? && k < |s.ring.queued|
  {
    EndsIn(s.config.dirIn, s.ring.pool, s.ring.queued[k], 0, s.phase.event)
  }

  /** From s to s' the first n requests have been taken off the ring and given back in order. */
  ghost predicate TakenOff(s: Ep, n: nat, s': Ep) {
    && n <= |s.ring.queued| && s'.ring.queued == s.ring.queued[n..]
    && s'.ring.pending == s.ring.pending && s'.ring.pool == s.ring.pool && s'.ring.enqueue == s.ring.enqueue
    && s'.ring.dequeue == RingSlot(s.ring.dequeue, Used(s.ring.queued[..n]))
    && s'.config == s.config
    && DoneIds(s'.hist.given) == DoneIds(s.hist.given) + Ids(s.ring.queued[..n])
  }

  /** One turn, and whether it is the last. */
  lemma CleanStepEnds(s: Ep)
    requires s.ring.Indexable() && s.phase.Cleaning? && s.ring.queued != []
    ensures TakenOff(s, 1, CleanStep(s))
    ensures CleanStep(s).phase == if Ends(s, 0) then Finishing(s.phase.complete, false) else s.phase
  {
    var r, s' := s.ring.queued[0], CleanStep(s);
    WalkEnds(s.config.dirIn, s.ring.pool, r, 0, s.phase.event, r.actual, s.flags.missedIsoc);
    CleanStepTakesOff(s);
    assert Without(s.ring.queued, 0) == s.ring.queued[1..];
    UsedFirst(s.ring.queued, 1);
    assert Ids(s.ring.queued[..1]) == [r.id];
    assert DoneIds(s'.hist.given) == DoneIds(s.hist.given) + [r.id];
    StepPhase(s);
  }

  lemma StepPhase(s: Ep)
    requires s.ring.Indexable() && s.phase.Cleaning? && s.ring.queued != []
    ensures var r := s.ring.queued[0];
            var walk := WalkTrbs(s.config.dirIn, s.ring.pool, r, 0, s.phase.event, r.actual, s.flags.missedIsoc);
            CleanStep(s).phase == if walk.done then Finishing(s.phase.complete, false) else s.phase
  {
  }

  lemma TakenNone(s: Ep)
    requires s.ring.Indexable() && s.phase.Cleaning? && s.ring.queued == []
    ensures TakenOff(s, 0, CleanStep(s)) && CleanStep(s).phase == Finishing(s.phase.complete, true)
  {
    assert Ids(s.ring.queued[..0]) == [];
  }

  lemma TakenOneMore(s: Ep, s1: Ep, s': Ep, n: nat)
    requires TakenOff(s, 1, s1) && TakenOff(s1, n, s')
    ensures TakenOff(s, n + 1, s')
  {
    var queued := s.ring.queued;
    UsedFirst(queued, 1);
    UsedFirst(queued, n + 1);
    RingSlotAdd(s.ring.dequeue, Width(queued[0]), Used(queued[1..][..n]));
    assert Ids(queued[..1]) == [queued[0].id];
    assert Ids(queued[..n + 1]) == [queued[0].id] + Ids(queued[1..][..n]);
  }

  lemma UsedFirst(rs: seq<Request>, n: nat)
    requires 0 < n <= |rs|
    ensures Used(rs[..n]) == Width(rs[0]) + Used(rs[1..][..n - 1])
  {
    assert rs[..n][1..] == rs[1..][..n - 1];
  }

  /** The event ends in the k-th request, or in none of them, and in none before. */
  ghost predicate FirstEnd(s: Ep, k: nat)
    requires s.ring.Indexable() && s.phase.Cleaning?
  {
    && k <= |s.ring.queued|
    && (forall j :: 0 <= j < k ==> !Ends(s, j))
    && (k < |s.ring.queued| ==> Ends(s, k))
  }

  lemma FirstEndNext(s: Ep, s1: Ep, k: nat)
    requires s.ring.Indexable() && s.phase.Cleaning? && FirstEnd(s, k) && k > 0
    requires s1.ring.Indexable() && TakenOff(s, 1, s1) && s1.phase == s.phase
    ensures FirstEnd(s1, k - 1)
  {
    forall j | 0 <= j < |s1.ring.queued|
      ensures Ends(s1, j) == Ends(s, j + 1)
    {
      assert s1.ring.queued[j] == s.ring.queued[j + 1];
    }
  }

  lemma DrainedOn(s: Ep)
    requires s.ring.Indexable() && s.phase.Cleaning? && s.ring.queued != []
    ensures var s1 := CleanStep(s);
            Drained(s, []) == if s1.phase.Cleaning? then Drained(s1, []) else s1
  {
  }

  /** How many requests are taken off. */
  function Through(s: Ep, k: nat): nat {
    if k < |s.ring.queued| then k + 1 else k
  }

  /** Clean-up has come from s to its end in s'. */
  ghost predicate EndsAt(s: Ep, k: nat, s': Ep)
    requires s.phase.Cleaning?
  {
    TakenOff(s, Through(s, k), s') && s'.phase == Finishing(s.phase.complete, k == |s.ring.queued|)
  }

  lemma EndsAtNext(s: Ep, s1: Ep, k: nat, s': Ep)
    requires s.phase.Cleaning? && TakenOff(s, 1, s1) && s1.phase == s.phase && 0 < k <= |s.ring.queued|
    requires EndsAt(s1, k - 1, s')
    ensures EndsAt(s, k, s')
  {
    TakenOneMore(s, s1, s', Through(s1, k - 1));
  }

  /** Clean-up ends with its first turn. */
  lemma EndsAtOnce(s: Ep)
    requires s.ring.Indexable() && s.phase.Cleaning? && FirstEnd(s, 0)
    ensures EndsAt(s, 0, Drained(s, []))
  {
    if s.ring.queued == [] {
      TakenNone(s);
    } else {
      CleanStepEnds(s);
      DrainedOn(s);
    }
  }

  /** Or goes on after it. */
  lemma GoesOnAfter(s: Ep, k: nat)
    requires s.ring.Indexable() && s.phase.Cleaning? && k > 0 && FirstEnd(s, k)
    ensures CleanStep(s).phase == s.phase && TakenOff(s, 1, CleanStep(s)) && FirstEnd(CleanStep(s), k - 1)
    ensures Drained(s, []) == Drained(CleanStep(s), [])
  {
    CleanStepEnds(s);
    DrainedOn(s);
    FirstEndNext(s, CleanStep(s), k);
  }

  /** Clean-up run to its end gives back exactly the requests up to the first one the event
      ends in, in order, or all if there is none. */
  lemma {:induction false} DrainedExactly(s: Ep, k: nat)
    requires s.ring.Indexable() && s.phase.Cleaning? && FirstEnd(s, k)
    ensures EndsAt(s, k, Drained(s, []))
    decreases k
  {
    if k == 0 {
      EndsAtOnce(s);
    } else {
      var s1 := CleanStep(s);
      GoesOnAfter(s, k);
      DrainedExactly(s1, k - 1);
      EndsAtNext(s, s1, k, Drained(s1, []));
    }
  }

  // ---------------------------------------------------------------- missed intervals

  /** Bytes were left of the TRBs of a request from the j-th up to the n-th read back. */
  ghost predicate AllLeft(pool: seq<Trb>, r: Request, j: nat, n: nat)
    requires |pool| == TRB_NUM
  {
    forall k :: j <= k < n ==> pool[CleanupSlot(r.startSlot, k)].count > 0
  }

  /** On IN endpoints an isochronous interval counts as missed after clean-up exactly if some TRB
      read back says so, or it did before, and bytes were left of every TRB from there on; on
      OUT endpoints clean-up does not change that. */
  lemma {:induction false} MissedExactly(dirIn: bool, pool: seq<Trb>, r: Request, i: nat, e: Event, actual: nat,
                                         missed: bool)
    requires |pool| == TRB_NUM && i < Width(r)
    ensures var n := i + Walked(dirIn, pool, r, i, e);
            WalkTrbs(dirIn, pool, r, i, e, actual, missed).missedIsoc
            <==> if dirIn then
                   || (missed && AllLeft(pool, r, i, n))
                   || exists j :: i <= j < n && pool[CleanupSlot(r.startSlot, j)].sts == 1 && AllLeft(pool, r, j, n)
                 else missed
    decreases Width(r) - i
  {
    var n := i + Walked(dirIn, pool, r, i, e);
    var trb := pool[CleanupSlot(r.startSlot, i)];
    var one := ReadTrb(dirIn, trb, r.length, e, actual, missed);
    WalkedFrom(dirIn, pool, r, i, e, actual, missed);
    if one.done || i + 1 == Width(r) {
      assert AllLeft(pool, r, i, n) <==> trb.count > 0;
    } else {
      MissedExactly(dirIn, pool, r, i + 1, e, one.actual, one.missedIsoc);
      assert AllLeft(pool, r, i, n) <==> trb.count > 0 && AllLeft(pool, r, i + 1, n);
    }
  }

  /** Whether a TRB ends the event does not depend on what was counted before. */
  lemma WalkedFrom(dirIn: bool, pool: seq<Trb>, r: Request, i: nat, e: Event, actual: nat, missed: bool)
    requires |pool| == TRB_NUM && i < Width(r)
    ensures var one := ReadTrb(dirIn, pool[CleanupSlot(r.startSlot, i)], r.length, e, actual, missed);
            Walked(dirIn, pool, r, i, e)
            == if one.done || i + 1 == Width(r) then 1 else 1 + Walked(dirIn, pool, r, i + 1, e)
  {
  }
}
