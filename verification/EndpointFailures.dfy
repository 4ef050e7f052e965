/**
 Two ways the ring fails, each with its exact condition: an empty ring that looks full,
 on which no transfer is ever started again, and a full ring that looks empty, on which
 TRBs in use are overwritten.
 */
module EndpointFailures {
  import opened TrbRing
  import opened EndpointModel
  import opened EndpointRing
  import opened EndpointRuns
  import opened EndpointOpened

  // ---------------------------------------------------------------- an empty ring that looks full

  /** Nothing is on the ring, and the TRB before `enqueue` is still the controller's. */
  predicate Stuck(s: Ring)
    requires s.Indexable()
  {
    s.queued == [] && s.enqueue == s.dequeue && s.pool[PrevSlot(s.enqueue)].hwo
  }

  /** Enabling the endpoint anew, or the controller retiring just that TRB. */
  predicate Frees(s: Ep, a: Action) {
    || (a.Enable? && !s.flags.enabled)
    || (a.Retire? && s.ring.Indexable() && a.slot == PrevSlot(s.ring.enqueue))
  }

  predicate Loads(cmd: Cmd) {
    cmd.StartTransfer? || cmd.UpdateTransfer?
  }

  /** Nothing but commands that hand the controller no TRBs has been added. */
  ghost predicate NothingLoaded(before: seq<Cmd>, after: seq<Cmd>) {
    before <= after && forall i :: |before| <= i < |after| ==> !Loads(after[i])
  }

  lemma StuckPrepares(c: Config, s: Ring)
    requires s.Indexable() && Stuck(s)
    ensures Prepare(c, s) == s
  {
    assert FreeSlots(s) == 0;
  }

  lemma StuckKick(s: Ep, startNew: bool, index: nat)
    requires s.ring.Indexable() && Stuck(s.ring)
    ensures Kick(s, startNew, index).0.ring == s.ring && Kick(s, startNew, index).0.hist == s.hist
  {
    StuckPrepares(s.config, s.ring);
  }

  lemma StuckQueue(s: Ep, r: Request, index: nat)
    requires s.ring.Indexable() && Stuck(s.ring)
    ensures var s' := EpQueue(s, r, index).0;
            Stuck(s'.ring) && NothingLoaded(s.hist.log, s'.hist.log)
  {
    StuckKick(Accept(s, r), true, index);
    StuckKick(Accept(s, r), false, index);
  }

  lemma StuckRemove(s: Ep)
    requires s.ring.Indexable() && Stuck(s.ring) && s.removing != []
    ensures var s' := RemoveStep(s);
            Stuck(s'.ring) && NothingLoaded(s.hist.log, s'.hist.log)
  {
  }

  lemma StuckRetire(s: Ring, slot: nat, count: nat, sts: nat)
    requires s.Indexable() && Stuck(s) && slot != PrevSlot(s.enqueue)
    ensures Stuck(RetireTrb(s, slot, count, sts))
  {
  }

  /** Calls and events that do not prepare. */
  lemma StuckOtherwise(s: Ep, a: Action)
    requires s.ring.Indexable() && Stuck(s.ring) && Enabled(s, a) && !Frees(s, a)
    requires a.Cancel? || a.Halt? || a.Wedge? || a.Enable? || a.Pullup? || a.XferComplete? || a.XferInProgress?
             || a.Clean? || a.CommandComplete?
    ensures Stuck(Step(s, a).ring) && NothingLoaded(s.hist.log, Step(s, a).hist.log)
  {
  }

  lemma StepStuck(s: Ep, a: Action)
    requires s.ring.Indexable() && Stuck(s.ring) && Enabled(s, a) && !Frees(s, a)
    ensures Stuck(Step(s, a).ring) && NothingLoaded(s.hist.log, Step(s, a).hist.log)
  {
    if a.Queue? {
      StuckQueue(s, a.req, a.index);
    } else if a.Disable? {
      if s.flags.enabled {
        StuckRemove(BeginDisable(s));
      }
    } else if a.Remove? {
      StuckRemove(s);
    } else if a.Finish? {
      StuckKick(Settle(s), s.phase.complete, a.index);
    } else if a.XferNotReady? {
      StuckKick(s, true, a.index);
      StuckKick(s, !a.active, a.index);
    } else if a.Retire? {
      StuckRetire(s.ring, a.slot, a.count, a.sts);
    } else {
      StuckOtherwise(s, a);
    }
  }

  ghost function Unfreed(): (Ep, Action) -> bool {
    (s, a) => !Frees(s, a)
  }

  /** Whatever is queued, cancelled or reported, until the endpoint is enabled anew or the
      controller retires that TRB: nothing is put on the ring, and no transfer is started
      or updated. */
  lemma {:induction false} StuckForGood(s: Ep, acts: seq<Action>)
    requires s.ring.Indexable() && Stuck(s.ring) && RunIn(s, acts, Unfreed())
    ensures var s' := After(s, acts, Unfreed());
            s'.ring.Indexable() && Stuck(s'.ring) && NothingLoaded(s.hist.log, s'.hist.log)
    decreases |acts|
  {
    if acts != [] {
      StepStuck(s, acts[0]);
      StuckForGood(Step(s, acts[0]), acts[1..]);
    }
  }

  /** An empty ring prepares nothing, whatever is pending, exactly if it is stuck. */
  lemma StuckExactly(s: Ring)
    requires RingInv(s) && s.queued == []
    ensures Stuck(s) <==> forall c: Config, pending :: Prepare(c, s.(pending := pending)).queued == []
  {
    if Stuck(s) {
      forall c: Config, pending
        ensures Prepare(c, s.(pending := pending)).queued == []
      {
        StuckPrepares(c, s.(pending := pending));
      }
    } else {
      var c := Config(Bulk, true, false, false);
      var one := s.(pending := [Request(0, true, [], 0, 0, false, 0, 0, false, 0, 0)]);
      PrepareProgress(c, one);
      assert Prepare(c, one).queued != [];
    }
  }

  /** On an idle bulk endpoint with nothing listed, a request that fits the ring starts a
      transfer exactly if the ring is not stuck. */
  lemma QueueStartsExactly(s: Ep, r: Request, index: nat)
    requires RingInv(s.ring) && s.ring.queued == [] && s.ring.pending == []
    requires s.config.hasDesc && s.config.kind.Bulk? && s.pullups && !s.flags.busy
    requires r.own && Width(r) <= SLOTS
    ensures EpQueue(s, r, index).0.hist.log == s.hist.log + [StartTransfer(s.ring.enqueue)] <==> !Stuck(s.ring)
  {
    var a := Accept(s, r);
    if Stuck(s.ring) {
      StuckQueue(s, r, index);
    } else {
      PrepareProgress(a.config, a.ring);
      FirstOfBatchTrb(a.config, a.ring, FreeSlots(a.ring), 0);
      PrepareFromMoves(a.config, a.ring, FreeSlots(a.ring));
    }
  }

  /** Cancelling the only queued request leaves the ring stuck exactly if the controller
      still owns its last TRB. */
  lemma CancelLeavesRingStuck(s: Ep, id: nat)
    requires RingInv(s.ring) && |s.ring.queued| == 1 && s.ring.queued[0].id == id
    requires IndexOf(s.ring.pending, id) == |s.ring.pending|
    ensures EpDequeue(s, id).0.ring.Indexable()
    ensures Stuck(EpDequeue(s, id).0.ring) <==> s.ring.pool[PrevSlot(s.ring.enqueue)].hwo
  {
    TakeOffKeeps(s.ring, 0);
    assert IndexOf(s.ring.queued, id) == 0;
    assert Without(s.ring.queued, 0) == [];
  }

  /** So does clean-up, when it gives back the only queued request. */
  lemma CleanLeavesRingStuck(s: Ep)
    requires RingInv(s.ring) && |s.ring.queued| == 1 && s.phase.Cleaning?
    ensures CleanStep(s).ring.Indexable()
    ensures Stuck(CleanStep(s).ring) <==> s.ring.pool[PrevSlot(s.ring.enqueue)].hwo
  {
    CleanStepTakesOff(s);
    TakeOffKeeps(s.ring, 0);
    assert Without(s.ring.queued, 0) == [];
  }

  /** And a disable, when it gives back the only queued request. */
  lemma DisableLeavesRingStuck(s: Ep)
    requires RingInv(s.ring) && |s.ring.queued| == 1 && s.removing != []
    requires s.removing[|s.removing| - 1].RingPart?
    ensures RemoveStep(s).ring.Indexable()
    ensures Stuck(RemoveStep(s).ring) <==> s.ring.pool[PrevSlot(s.ring.enqueue)].hwo
  {
    TakeOffKeeps(s.ring, 0);
    assert Without(s.ring.queued, 0) == [];
  }

  // ---------------------------------------------------------------- a run that gets there

  /** One request of several TRBs is on the ring, all of them the controller's. */
  ghost predicate OneOnRing(s: Ep) {
    && RingInv(s.ring) && Contiguous(s.ring) && |s.ring.queued| == 1 && s.ring.dequeue == 0
    && |s.ring.queued[0].bufs| > 1
    && s.flags.enabled && !s.config.kind.Isoc? && !s.config.dirIn && s.phase == Idle && s.hist.given == []
    && s.ring.pool[0].hwo && s.ring.pool[PrevSlot(s.ring.enqueue)].hwo
  }

  /** The events of a short packet in the first TRB of the only request on the ring. */
  lemma ShortPacketGivesBack(s: Ep, left: nat, e: Event)
    requires OneOnRing(s) && 0 < left < 0x100_0000 && e.short
    ensures var s1 := Step(s, Retire(0, left, 0));
            && Enabled(s1, XferComplete(e))
            && var s2 := Step(s1, XferComplete(e));
            && Enabled(s2, Clean)
            && var s3 := Step(s2, Clean);
            && Stuck(s3.ring) && s3.phase == Finishing(true, false)
            && |s3.hist.given| == 1 && s3.hist.given[0].id == s.ring.queued[0].id
  {
    var r := s.ring.queued[0];
    var s1 := Step(s, Retire(0, left, 0));
    var s2 := Step(s1, XferComplete(e));
    UsedOne(s.ring.queued);
    HeadAtDequeue(s.ring);
    assert PrevSlot(s.ring.enqueue) > 0;
    assert CleanupSlot(0, 0) == 0;
    CleanLeavesRingStuck(s2);
    CleanStepTakesOff(s2);
  }

  /** A short packet in the first of several TRBs on an OUT endpoint: the request is given
      back whole, its last TRB still the controller's, and the ring is stuck. */
  lemma ShortPacketLeavesRingStuck(c: Config, r: Request, index: nat, left: nat)
    requires c.kind.Bulk? && !c.dirIn && r.own && 1 < |r.bufs| <= SLOTS && 0 < left < 0x100_0000
    ensures var e := Event(false, true, false, false);
            var acts := [Pullup(true), Enable(c), Queue(r, index), Retire(0, left, 0), XferComplete(e), Clean];
            exists s :: Leads(Start(), acts, s) && s.ring.Indexable() && Stuck(s.ring)
                        && |s.hist.given| == 1 && s.hist.given[0].id == r.id
  {
    var e := Event(false, true, false, false);
    var acts := [Pullup(true), Enable(c), Queue(r, index), Retire(0, left, 0), XferComplete(e), Clean];
    QueuedByRun(c, r, index, acts);
    ShortPacketStarts(c, r, index);
    var s4 := ShortPacketByRun(acts, Step(Opened(c), Queue(r, index)), left, e);
  }

  lemma ShortPacketByRun(acts: seq<Action>, s: Ep, left: nat, e: Event) returns (s': Ep)
    requires |acts| == 6 && acts[3] == Retire(0, left, 0) && acts[4] == XferComplete(e) && acts[5] == Clean
    requires Leads(Start(), acts[..3], s) && OneOnRing(s) && 0 < left < 0x100_0000 && e.short
    ensures Leads(Start(), acts, s') && s'.ring.Indexable() && Stuck(s'.ring)
    ensures |s'.hist.given| == 1 && s'.hist.given[0].id == s.ring.queued[0].id
  {
    ShortPacketGivesBack(s, left, e);
    var s2 := LeadsNext(acts, 3, s);
    var s3 := LeadsNext(acts, 4, s2);
    s' := LeadsNext(acts, 5, s3);
  }

  lemma ShortPacketStarts(c: Config, r: Request, index: nat)
    requires c.kind.Bulk? && !c.dirIn && r.own && 1 < |r.bufs| <= SLOTS
    ensures OneOnRing(Step(Opened(c), Queue(r, index)))
    ensures Step(Opened(c), Queue(r, index)).ring.queued[0].id == r.id
  {
    FirstQueued(c, r, index);
    var s1 := Step(Opened(c), Queue(r, index));
    UsedOne(s1.ring.queued);
    assert RingSlot(0, 0) == 0 && RingSlot(0, Width(r) - 1) == PrevSlot(s1.ring.enqueue);
  }

  // ---------------------------------------------------------------- a full ring that looks empty

  /** The driver adds TRBs to a running transfer on a full ring it takes for an empty one. */
  lemma UpdateOverruns(s: Ep, r: Request, index: nat)
    requires RingInv(s.ring) && Contiguous(s.ring) && s.ring.queued != [] && Used(s.ring.queued) == SLOTS
    requires !s.ring.pool[PrevSlot(s.ring.enqueue)].hwo && s.ring.pending == [r] && Width(r) <= SLOTS
    requires s.config.hasDesc && !s.config.kind.Isoc? && s.pullups
    ensures var s' := NotReady(s, true, index);
            && s'.ring.Indexable() && !RingInv(s'.ring) && s'.config == s.config
            && |s'.ring.queued| == |s.ring.queued| + 1 && s'.ring.queued[0] == s.ring.queued[0]
            && s'.ring.queued[0].startSlot == s.ring.enqueue
            && s'.ring.pool[s.ring.enqueue] == MakeTrb(s.config, r, 0, |r.bufs| != 1)
  {
    var s' := NotReady(s, true, index);
    HeadAtDequeue(s.ring);
    PrepareKeepsInvariant(s.config, s.ring);
    FreeSlotsExact(s.ring);
    FirstOfBatchTrb(s.config, s.ring, SLOTS, 0);
    PrepareFromMoves(s.config, s.ring, SLOTS);
    assert s'.ring == Prepare(s.config, s.ring);
    assert s'.ring.queued[0] == s'.ring.queued[..|s.ring.queued|][0];
  }

  /** A request that fills the ring, its last TRB retired before the driver has taken it
      off, then another request and an update: the second request's TRBs are written over
      the first one's while that is still queued, and the ring invariant is lost. */
  lemma FullRingIsOverrun(c: Config, r1: Request, r2: Request, index: nat)
    requires c.kind.Bulk? && !c.streamCapable && r1.own && r2.own && |r1.bufs| == SLOTS && Width(r2) <= SLOTS
    ensures var acts := [Pullup(true), Enable(c), Queue(r1, index), Retire(SLOTS - 1, 0, 0), Queue(r2, index),
                         XferNotReady(true, index)];
            exists s :: Leads(Start(), acts, s) && Overrun(s, r1, r2)
  {
    var acts := [Pullup(true), Enable(c), Queue(r1, index), Retire(SLOTS - 1, 0, 0), Queue(r2, index),
                 XferNotReady(true, index)];
    QueuedByRun(c, r1, index, acts);
    var s1 := Step(Opened(c), Queue(r1, index));
    var s2 := LeadsNext(acts, 3, s1);
    var s4 := OverrunByRun(acts, s2, c, r1, r2, index);
  }

  lemma OverrunByRun(acts: seq<Action>, s: Ep, c: Config, r1: Request, r2: Request, index: nat) returns (s': Ep)
    requires |acts| == 6 && acts[4] == Queue(r2, index) && acts[5] == XferNotReady(true, index)
    requires Leads(Start(), acts[..4], s)
    requires s == Step(Step(Opened(c), Queue(r1, index)), Retire(SLOTS - 1, 0, 0))
    requires c.kind.Bulk? && !c.streamCapable && r1.own && r2.own && |r1.bufs| == SLOTS && Width(r2) <= SLOTS
    ensures Leads(Start(), acts, s') && Overrun(s', r1, r2)
  {
    OverrunSteps(c, r1, r2, index);
    var s3 := LeadsNext(acts, 4, s);
    s' := LeadsNext(acts, 5, s3);
  }

  lemma OverrunSteps(c: Config, r1: Request, r2: Request, index: nat)
    requires c.kind.Bulk? && !c.streamCapable && r1.own && r2.own && |r1.bufs| == SLOTS && Width(r2) <= SLOTS
    ensures var s1 := Step(Opened(c), Queue(r1, index));
            var s2 := Step(s1, Retire(SLOTS - 1, 0, 0));
            var s3 := Step(s2, Queue(r2, index));
            Enabled(s3, XferNotReady(true, index)) && Overrun(Step(s3, XferNotReady(true, index)), r1, r2)
  {
    FirstQueued(c, r1, index);
    var s1 := Step(Opened(c), Queue(r1, index));
    UsedOne(s1.ring.queued);
    var s2 := Step(s1, Retire(SLOTS - 1, 0, 0));
    var s3 := Step(s2, Queue(r2, index));
    UpdateOverruns(s3, r2.(actual := 0, status := EINPROGRESS), index);
  }

  /** The slot the first request starts at holds the first TRB of the second. */
  ghost predicate Overrun(s: Ep, r1: Request, r2: Request) {
    && s.ring.Indexable() && !RingInv(s.ring)
    && |s.ring.queued| == 2 && s.ring.queued[0].id == r1.id && s.ring.queued[0].startSlot == 0
    && s.ring.pool[0] == MakeTrb(s.config, r2.(actual := 0, status := EINPROGRESS), 0, |r2.bufs| != 1)
  }

  // ---------------------------------------------------------------- a cancelled request behind the head

  /** The state of one request in slot 0 and one behind it, the transfer running. */
  ghost predicate TwoOnRing(s: Ep, r1: Request, r2: Request) {
    && RingInv(s.ring) && Contiguous(s.ring) && |s.ring.queued| == 2 && s.ring.pending == []
    && s.ring.queued[0].id == r1.id && Width(s.ring.queued[0]) == 1
    && s.ring.queued[1].id == r2.id && Width(s.ring.queued[1]) == 1
    && s.ring.dequeue == 0 && s.ring.enqueue == 2 && s.config.hasDesc && s.config.kind.Bulk? && s.pullups
    && s.flags.enabled && s.flags.busy && s.resourceIndex == 1 && s.phase == Idle
  }

  lemma SecondOnRing(c: Config, r1: Request, r2: Request)
    requires c.kind.Bulk? && !c.streamCapable && r1.own && r2.own && r1.bufs == [] && r2.bufs == []
    ensures var s1 := Step(Opened(c), Queue(r1, 1));
            var s2 := Step(s1, Queue(r2, 1));
            && Enabled(s2, XferNotReady(true, 1)) && TwoOnRing(Step(s2, XferNotReady(true, 1)), r1, r2)
  {
    FirstQueued(c, r1, 1);
    var s1 := Step(Opened(c), Queue(r1, 1));
    var s2 := Step(s1, Queue(r2, 1));
    var a := s2.ring;
    assert a == s1.ring.(pending := [r2.(actual := 0, status := EINPROGRESS)]);
    UsedOne(s1.ring.queued);
    assert RingSlot(0, 1) == 1 && RingSlot(0, 2) == 2;
    FreeSlotsExact(a);
    PrepareProgress(s2.config, a);
    PrepareKeeps(s2.config, a);
    PrepareFromMoves(s2.config, a, FreeSlots(a));
    FirstOfBatchTrb(s2.config, a, FreeSlots(a), 0);
    UsedTwo(Prepare(s2.config, a).queued);
  }

  lemma UsedTwo(rs: seq<Request>)
    ensures |rs| == 2 ==> Used(rs) == Width(rs[0]) + Width(rs[1])
  {
    if |rs| == 2 {
      UsedOne(rs[1..]);
    }
  }

  /** Cancelling the second moves dequeue over the first, which is still there. */
  lemma CancelSecond(s: Ep, r1: Request, r2: Request, r3: Request)
    requires TwoOnRing(s, r1, r2) && r1.id != r2.id && r3.own && |r3.bufs| == SLOTS - 1
    ensures var s1 := Step(s, Cancel(r2.id));
            var s2 := Step(s1, Queue(r3, 1));
            && Enabled(s2, XferNotReady(true, 1))
            && Overwritten(Step(s2, XferNotReady(true, 1)), r1, r3)
  {
    var s1 := Step(s, Cancel(r2.id));
    assert IndexOf(s.ring.queued, r2.id) == 1;
    var s2 := Step(s1, Queue(r3, 1));
    var a := s.ring.(pending := [r3.(actual := 0, status := EINPROGRESS)]);
    UsedTwo(s.ring.queued);
    HeadAtDequeue(s.ring);
    TakeOffKeeps(a, 1);
    FreeSlotsExact(TakeOff(a, 1));
    UsedOne(Without(s.ring.queued, 1));
    assert s2.ring == TakeOff(a, 1);
    CancelOverwritesHead(s.config, a, 1);
  }

  /** The first request is still queued in slot 0, which holds the last TRB of the other. */
  ghost predicate Overwritten(s: Ep, r1: Request, r3: Request) {
    && s.ring.Indexable() && |s.ring.queued| > 0
    && s.ring.queued[0].id == r1.id && s.ring.queued[0].startSlot == 0
    && |r3.bufs| == SLOTS - 1
    && s.ring.pool[0].dma == r3.bufs[SLOTS - 2].dma && s.ring.pool[0].count == r3.bufs[SLOTS - 2].len % 0x100_0000
  }

  /** Two requests on the ring, the second cancelled, and a third of 1022 buffers: its last
      TRB is written to slot 0, where the first request still is. */
  lemma CancelOverwritesByRun(c: Config, r1: Request, r2: Request, r3: Request)
    requires c.kind.Bulk? && !c.streamCapable && r1.own && r2.own && r3.own && r1.id != r2.id
    requires r1.bufs == [] && r2.bufs == [] && |r3.bufs| == SLOTS - 1
    ensures var acts := [Pullup(true), Enable(c), Queue(r1, 1), Queue(r2, 1), XferNotReady(true, 1), Cancel(r2.id),
                         Queue(r3, 1), XferNotReady(true, 1)];
            exists s :: Leads(Start(), acts, s) && Overwritten(s, r1, r3)
  {
    var acts := [Pullup(true), Enable(c), Queue(r1, 1), Queue(r2, 1), XferNotReady(true, 1), Cancel(r2.id),
                 Queue(r3, 1), XferNotReady(true, 1)];
    var s3 := TwoOnRingByRun(c, r1, r2, acts);
    var s6 := CancelByRun(acts, s3, r1, r2, r3);
  }

  lemma CancelByRun(acts: seq<Action>, s: Ep, r1: Request, r2: Request, r3: Request) returns (s': Ep)
    requires |acts| == 8 && acts[5] == Cancel(r2.id) && acts[6] == Queue(r3, 1) && acts[7] == XferNotReady(true, 1)
    requires Leads(Start(), acts[..5], s) && TwoOnRing(s, r1, r2)
    requires r1.id != r2.id && r3.own && |r3.bufs| == SLOTS - 1
    ensures Leads(Start(), acts, s') && Overwritten(s', r1, r3)
  {
    CancelSecond(s, r1, r2, r3);
    var s4 := LeadsNext(acts, 5, s);
    var s5 := LeadsNext(acts, 6, s4);
    s' := LeadsNext(acts, 7, s5);
  }

  lemma TwoOnRingByRun(c: Config, r1: Request, r2: Request, acts: seq<Action>) returns (s: Ep)
    requires c.kind.Bulk? && !c.streamCapable && r1.own && r2.own && r1.bufs == [] && r2.bufs == []
    requires |acts| >= 5 && acts[0] == Pullup(true) && acts[1] == Enable(c) && acts[2] == Queue(r1, 1)
    requires acts[3] == Queue(r2, 1) && acts[4] == XferNotReady(true, 1)
    ensures Leads(Start(), acts[..5], s) && TwoOnRing(s, r1, r2)
  {
    QueuedByRun(c, r1, 1, acts);
    SecondOnRing(c, r1, r2);
    var s2 := LeadsNext(acts, 3, Step(Opened(c), Queue(r1, 1)));
    s := LeadsNext(acts, 4, s2);
  }

  // ---------------------------------------------------------------- the value never assigned

  /** Queueing returns the variable it never assigned exactly if the request is accepted
      and none of the reasons to start or update a transfer at once is there. */
  lemma UnassignedExactly(s: Ep, r: Request, index: nat)
    requires s.ring.Indexable()
    ensures EpQueue(s, r, index).1 == Unassigned
       <==> && s.config.hasDesc && r.own && s.pullups
            && !(s.config.kind.Bulk? && !s.flags.busy)
            && !s.flags.xferPending
            && !(s.config.kind.Isoc? && s.flags.busy && !s.flags.missedIsoc)
            && !s.config.streamCapable
  {
  }

  /** Whether a request is accepted, and what the caller is told.  That the endpoint is busy is
      never told, as the request stays listed. */
  lemma QueueReturns(s: Ep, r: Request, index: nat)
    requires s.ring.Indexable()
    ensures var (s', ret) := EpQueue(s, r, index);
            if s.config.hasDesc && r.own && s.pullups then
              s'.hist.accepted == s.hist.accepted + [r.id] && (ret == Code(0) || ret == Unassigned)
            else
              s' == s && ret == Code(if s.config.hasDesc && !r.own then EINVAL else ESHUTDOWN)
  {
    if s.config.hasDesc && r.own && s.pullups {
      KickReturns(Accept(s, r), true, index);
      KickReturns(Accept(s, r), false, index);
    }
  }

  lemma KickReturns(s: Ep, startNew: bool, index: nat)
    requires s.ring.Indexable() && s.pullups
    ensures var (s', ret) := Kick(s, startNew, index);
            s'.hist.accepted == s.hist.accepted && (ret == 0 || ret == EBUSY)
  {
  }

  /** The second of two requests queued on a bulk endpoint gets there. */
  lemma SecondQueueUnassigned(c: Config, r1: Request, r2: Request, index: nat)
    requires c.kind.Bulk? && !c.streamCapable && r1.own && r2.own && Width(r1) <= SLOTS
    ensures var acts := [Pullup(true), Enable(c), Queue(r1, index)];
            exists s :: Leads(Start(), acts, s) && s.ring.Indexable() && EpQueue(s, r2, index).1 == Unassigned
  {
    var acts := [Pullup(true), Enable(c), Queue(r1, index)];
    QueuedByRun(c, r1, index, acts);
    assert acts[..3] == acts;
    FirstQueued(c, r1, index);
    UnassignedExactly(Step(Opened(c), Queue(r1, index)), r2, index);
  }
}
