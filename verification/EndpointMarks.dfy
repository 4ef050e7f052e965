/**
 What the TRBs of requests on the ring say, for as long as they are there: which memory each
 of them moves, how they chain and where they interrupt.  With that, a completion event
 gives back the requests it is about.
 */
module EndpointMarks {
  import opened TrbRing
  import opened EndpointModel
  import opened EndpointRing
  import opened EndpointRuns
  import opened EndpointCleanup

  /** The TRB is for the i-th buffer of the request, or for all of a request without chain. */
  ghost predicate Describes(t: Trb, kind: EpKind, r: Request, i: nat)
    requires i < Width(r)
  {
    && t.dma == (if r.bufs == [] then r.dma else r.bufs[i].dma)
    && (t.chn <==> i + 1 < Width(r))
    && (t.ioc <==> !r.noInterrupt && i + 1 == Width(r))
    && (t.isp <==> kind.Isoc?) && (t.csp <==> kind.Isoc?)
    && (t.kind.IsocFirst? <==> kind.Isoc? && i == 0)
    && (t.kind.Normal? <==> !kind.Isoc?)
  }

  ghost predicate AllDescribed(kind: EpKind, pool: seq<Trb>, queued: seq<Request>)
    requires |pool| == TRB_NUM
  {
    forall k, i :: 0 <= k < |queued| && 0 <= i < Width(queued[k]) ==>
      Describes(pool[RingSlot(queued[k].startSlot, i)], kind, queued[k], i)
  }

  ghost predicate MarksInv(s: Ep) {
    EpInv(s) && Contiguous(s.ring) && AllDescribed(s.config.kind, s.ring.pool, s.ring.queued)
  }

  lemma PrepareDescribes(c: Config, s: Ring)
    requires RingInv(s) && Contiguous(s) && SeenFull(s) && AllDescribed(c.kind, s.pool, s.queued)
    ensures AllDescribed(c.kind, Prepare(c, s).pool, Prepare(c, s).queued)
  {
    var s' := Prepare(c, s);
    PrepareKeeps(c, s);
    PrepareFromMoves(c, s, FreeSlots(s));
    forall k, i | 0 <= k < |s'.queued| && 0 <= i < Width(s'.queued[k])
      ensures Describes(s'.pool[RingSlot(s'.queued[k].startSlot, i)], c.kind, s'.queued[k], i)
    {
      if k < |s.queued| {
        assert s'.queued[k] == s'.queued[..|s.queued|][k] == s.queued[k];
        SlotsOccupied(s, k, i);
      } else {
        assert TrbOf(s', s'.queued[k], i) == s'.pool[RingSlot(s'.queued[k].startSlot, i)];
      }
    }
  }

  lemma KickDescribes(s: Ep, startNew: bool, index: nat)
    requires MarksInv(s) && s.config.hasDesc && s.flags.enabled && (startNew || SeenFull(s.ring))
    ensures MarksInv(Kick(s, startNew, index).0)
  {
    KickKeeps(s, startNew, index);
    if startNew && s.ring.queued != [] {
      assert Loaded(s.config, s.ring, startNew) == s.ring;
    } else {
      PrepareDescribes(s.config, s.ring);
    }
  }

  lemma TakeOffDescribes(kind: EpKind, s: Ring)
    requires |s.pool| == TRB_NUM && AllDescribed(kind, s.pool, s.queued) && s.queued != []
    ensures AllDescribed(kind, s.pool, TakeOff(s, 0).queued)
  {
    var queued := TakeOff(s, 0).queued;
    forall k, i | 0 <= k < |queued| && 0 <= i < Width(queued[k])
      ensures Describes(s.pool[RingSlot(queued[k].startSlot, i)], kind, queued[k], i)
    {
      assert queued[k] == s.queued[k + 1];
    }
  }

  lemma GiveFirstDescribes(s: Ep, status: int)
    requires MarksInv(s) && s.ring.queued != []
    ensures MarksInv(GiveQueued(s, 0, status))
  {
    GiveFirstKeeps(s, status);
    TakeOffDescribes(s.config.kind, s.ring);
  }

  lemma RemoveDescribes(s: Ep)
    requires MarksInv(s) && s.removing != []
    ensures MarksInv(RemoveStep(s))
  {
    RemoveKeeps(s);
    if s.removing[|s.removing| - 1].RingPart? && s.ring.queued != [] {
      GiveFirstDescribes(s, ESHUTDOWN);
    }
  }

  lemma DisableDescribes(s: Ep)
    requires MarksInv(s) && s.flags.enabled
    ensures MarksInv(RemoveStep(BeginDisable(s)))
  {
    assert MarksInv(BeginDisable(s));
    RemoveDescribes(BeginDisable(s));
  }

  lemma CancelDescribes(s: Ep, id: nat)
    requires MarksInv(s) && CancelsHeadOnly(s, Cancel(id))
    ensures MarksInv(EpDequeue(s, id).0)
  {
    var i, j := IndexOf(s.ring.pending, id), IndexOf(s.ring.queued, id);
    if i < |s.ring.pending| {
      CancelPendingKeeps(s, i);
    } else if j < |s.ring.queued| {
      GiveFirstDescribes(StopActive(s), ECONNRESET);
    }
  }

  lemma AfterAcceptDescribes(s: Ep, index: nat)
    requires MarksInv(s) && s.config.hasDesc
    requires s.config.kind.Isoc? && s.flags.busy && !s.flags.missedIsoc ==> SeenFull(s.ring)
    requires !s.flags.enabled ==> s.config.kind.Isoc? && s.flags.xferPending
    ensures MarksInv(AfterAccept(s, index).0)
  {
    AfterAcceptKeeps(s, index);
    if s.config.kind.Isoc? && s.flags.xferPending {
      assert AfterAccept(s, index).0.ring == s.ring;
    } else if s.config.kind.Isoc? && s.flags.busy && !s.flags.missedIsoc {
      KickDescribes(s, false, index);
    } else {
      KickDescribes(s, true, index);
    }
  }

  lemma QueueDescribes(s: Ep, r: Request, index: nat)
    requires MarksInv(s) && FullIsSeen(s, Queue(r, index))
    ensures MarksInv(EpQueue(s, r, index).0)
  {
    if s.config.hasDesc && s.pullups {
      assert MarksInv(Accept(s, r));
      AfterAcceptDescribes(Accept(s, r), index);
    }
  }

  lemma CleanDescribes(s: Ep)
    requires MarksInv(s) && s.phase.Cleaning?
    ensures MarksInv(CleanStep(s))
  {
    CleanStepKeeps(s);
    if s.ring.queued != [] {
      CleanStepTakesOff(s);
      TakeOffDescribes(s.config.kind, s.ring);
    }
  }

  lemma SettleDescribes(s: Ep)
    requires MarksInv(s) && s.phase.Finishing?
    ensures MarksInv(Settle(s))
  {
    assert Settle(s).ring == s.ring && Settle(s).config == s.config;
  }

  lemma FinishDescribes(s: Ep, index: nat)
    requires MarksInv(s) && s.phase.Finishing? && FullIsSeen(s, Finish(index))
    ensures MarksInv(FinishStep(s, index))
  {
    var s1 := Settle(s);
    SettleDescribes(s);
    if s1.config.hasDesc && s1.pullups && !s1.config.kind.Isoc? {
      KickDescribes(s1, s.phase.complete, index);
    }
  }

  lemma NotReadyDescribes(s: Ep, active: bool, index: nat)
    requires MarksInv(s) && s.flags.enabled && FullIsSeen(s, XferNotReady(active, index))
    ensures MarksInv(NotReady(s, active, index))
  {
    KickDescribes(s, !active || s.config.kind.Isoc?, index);
  }

  /** The controller changes what is left of a TRB, never what it is for. */
  lemma RetireDescribes(s: Ep, slot: nat, count: nat, sts: nat)
    requires MarksInv(s)
    ensures MarksInv(s.(ring := RetireTrb(s.ring, slot, count, sts)))
  {
    RetireKeeps(s, slot, count, sts);
    var s' := RetireTrb(s.ring, slot, count, sts);
    forall k, i | 0 <= k < |s'.queued| && 0 <= i < Width(s'.queued[k])
      ensures Describes(s'.pool[RingSlot(s'.queued[k].startSlot, i)], s.config.kind, s'.queued[k], i)
    {
      assert Describes(s.ring.pool[RingSlot(s.ring.queued[k].startSlot, i)], s.config.kind, s.ring.queued[k], i);
    }
  }

  lemma EnableDescribes(s: Ep, config: Config)
    requires MarksInv(s) && EnablesEmpty(s, Enable(config))
    ensures MarksInv(EpEnable(s, config))
  {
    EnableKeeps(s, config);
  }

  lemma OthersDescribe(s: Ep, a: Action)
    requires MarksInv(s) && Enabled(s, a)
    requires a.Halt? || a.Wedge? || a.Pullup? || a.XferComplete? || a.XferInProgress? || a.CommandComplete?
    ensures MarksInv(Step(s, a))
  {
  }

  lemma StepDescribes(s: Ep, a: Action)
    requires MarksInv(s) && Enabled(s, a) && FullIsSeen(s, a) && EnablesEmpty(s, a) && CancelsHeadOnly(s, a)
    ensures MarksInv(Step(s, a))
  {
    if a.Queue? {
      QueueDescribes(s, a.req, a.index);
    } else if a.Cancel? {
      CancelDescribes(s, a.id);
    } else if a.Disable? {
      if s.flags.enabled {
        DisableDescribes(s);
      }
    } else if a.Remove? {
      RemoveDescribes(s);
    } else if a.Enable? {
      EnableDescribes(s, a.config);
    } else if a.Clean? {
      CleanDescribes(s);
    } else if a.Finish? {
      FinishDescribes(s, a.index);
    } else if a.XferNotReady? {
      NotReadyDescribes(s, a.active, a.index);
    } else if a.Retire? {
      RetireDescribes(s, a.slot, a.count, a.sts);
    } else {
      OthersDescribe(s, a);
    }
  }

  lemma {:induction false} DescribedFrom(s: Ep, acts: seq<Action>)
    requires MarksInv(s) && RunIn(s, acts, SoundHeadOnly())
    ensures MarksInv(After(s, acts, SoundHeadOnly()))
    decreases |acts|
  {
    if acts != [] {
      StepDescribes(s, acts[0]);
      DescribedFrom(Step(s, acts[0]), acts[1..]);
    }
  }

  /** Over every run of the kind RunKeepsSlots is about, every TRB of every request on the ring
      is for that request's own buffer, chained and marked as when it was prepared. */
  lemma RunKeepsTrbs(acts: seq<Action>)
    requires RunIn(Start(), acts, SoundHeadOnly())
    ensures var s := After(Start(), acts, SoundHeadOnly());
            s.ring.Indexable() && AllDescribed(s.config.kind, s.ring.pool, s.ring.queued)
  {
    StartIsInOrder();
    DescribedFrom(Start(), acts);
  }

  // ---------------------------------------------------------------- what an event gives back

  /** Is the request the first on the ring that asks for an interrupt? */
  predicate FirstToInterrupt(s: Ring, k: nat) {
    && k < |s.queued| && !s.queued[k].noInterrupt
    && forall j :: 0 <= j < k ==> s.queued[j].noInterrupt
  }

  lemma IocEnds(s: Ep, k: nat)
    requires MarksInv(s) && s.phase.Cleaning? && k < |s.ring.queued|
    requires s.phase.event.ioc && !s.phase.event.lst && (s.config.dirIn || !s.phase.event.short)
    ensures Ends(s, k) <==> !s.ring.queued[k].noInterrupt
  {
    var r := s.ring.queued[k];
    forall i | 0 <= i < Width(r)
      ensures EndsEvent(s.config.dirIn, s.ring.pool[CleanupSlot(r.startSlot, i)], s.phase.event)
         <==> !r.noInterrupt && i + 1 == Width(r)
    {
      WidthFits(s.ring, k);
      SlotsAgree(r.startSlot, i);
      assert Describes(s.ring.pool[RingSlot(r.startSlot, i)], s.config.kind, r, i);
    }
    if !r.noInterrupt {
      assert EndsEvent(s.config.dirIn, s.ring.pool[CleanupSlot(r.startSlot, Width(r) - 1)], s.phase.event);
    }
  }

  lemma WidthFits(s: Ring, k: nat)
    requires RingInv(s) && k < |s.queued|
    ensures Width(s.queued[k]) <= SLOTS && s.queued[k].startSlot < SLOTS
  {
    UsedSplit(s.queued, k);
  }

  lemma SlotsAgree(startSlot: nat, i: nat)
    requires startSlot < SLOTS && i < SLOTS
    ensures CleanupSlot(startSlot, i) == RingSlot(startSlot, i)
  {
    CleanupSlotLimit(startSlot, i);
  }

  /** Over every such run: an event that a TRB asked for (with no word of the end of the
      transfer, nor on OUT endpoints of a short packet) gives back exactly the requests up to
      the first on the ring that asks for an interrupt, in order. */
  lemma RunGivesBackThrough(acts: seq<Action>, k: nat)
    requires RunIn(Start(), acts, SoundHeadOnly())
    requires var s := After(Start(), acts, SoundHeadOnly());
             && s.ring.Indexable() && s.phase.Cleaning? && FirstToInterrupt(s.ring, k)
             && s.phase.event.ioc && !s.phase.event.lst && (s.config.dirIn || !s.phase.event.short)
    ensures var s := After(Start(), acts, SoundHeadOnly());
            && TakenOff(s, k + 1, Drained(s, []))
            && Drained(s, []).phase == Finishing(s.phase.complete, false)
  {
    var s := After(Start(), acts, SoundHeadOnly());
    StartIsInOrder();
    DescribedFrom(Start(), acts);
    forall j | 0 <= j <= k
      ensures Ends(s, j) <==> j == k
    {
      IocEnds(s, j);
    }
    DrainedExactly(s, k);
  }
}
