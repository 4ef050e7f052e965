/**
 What the driver promises about requests that cannot be started at once: a not-ready event
 that finds nothing to send is made good by the next queueing call, an isochronous stream
 that ran dry is ended so that it can be started anew, and TRBs put on the ring are always
 announced to the controller.
 */
module EndpointPromises {
  import opened TrbRing
  import opened EndpointModel
  import opened EndpointRing
  import opened EndpointRuns
  import opened EndpointOpened
  import opened EndpointCommands

  /** Nothing listed, nothing running, and the ring not stuck. */
  ghost predicate IdleEp(s: Ep) {
    && RingInv(s.ring) && s.ring.queued == [] && s.ring.pending == []
    && !s.ring.pool[PrevSlot(s.ring.enqueue)].hwo
    && s.config.hasDesc && s.pullups && !s.flags.busy
  }

  /** The request is on the ring from `enqueue` on, and its transfer started: nothing else has
      changed but the pending mark. */
  ghost predicate StartedWith(s: Ep, r: Request, index: nat, s': Ep)
    requires s.ring.Indexable()
  {
    PutOnRing(s, r, index, s'.(flags := s'.flags.(xferPending := s.flags.xferPending)))
  }

  // ---------------------------------------------------------------- interrupt and bulk endpoints

  /** A not-ready event that finds nothing to send is remembered. */
  lemma NotReadyRemembered(s: Ep, active: bool, i: nat)
    requires IdleEp(s) && !s.config.kind.Isoc?
    ensures var s' := NotReady(s, active, i);
            s' == s.(flags := s.flags.(xferPending := true)) && IdleEp(s')
  {
  }

  /** On an idle interrupt endpoint queueing starts the request exactly if such an event came
      first, which is thereby made good; else the request stays pending. */
  lemma InterruptStartsExactly(s: Ep, r: Request, index: nat)
    requires IdleEp(s) && s.config.kind.Interrupt? && !s.config.streamCapable && r.own && Width(r) <= SLOTS
    ensures var s' := EpQueue(s, r, index).0;
            if s.flags.xferPending then StartedWith(s, r, index, s') && !s'.flags.xferPending
            else s'.hist.log == s.hist.log && s'.ring.queued == [] && |s'.ring.pending| == 1
  {
    KickOnIdle(s, r, index);
  }

  lemma SameButPending(s: Ep, s1: Ep, r: Request, index: nat, s2: Ep)
    requires s.ring.Indexable() && s1 == s.(flags := s.flags.(xferPending := true))
    requires StartedWith(s1, r, index, s2)
    ensures StartedWith(s, r, index, s2) && s2.hist.log == s.hist.log + [StartTransfer(s.ring.enqueue)]
  {
  }

  lemma RememberedStarts(s: Ep, r: Request, index: nat)
    requires IdleEp(s) && !s.config.kind.Isoc? && s.flags.xferPending
    requires !s.config.streamCapable && r.own && Width(r) <= SLOTS
    ensures StartedWith(s, r, index, EpQueue(s, r, index).0)
  {
    if s.config.kind.Bulk? {
      QueueOnIdle(s, r, index);
    } else {
      InterruptStartsExactly(s, r, index);
    }
  }

  /** A not-ready event, then a request: its transfer is started, on bulk and on interrupt
      endpoints. */
  lemma NotReadyThenQueue(s: Ep, active: bool, i: nat, r: Request, index: nat)
    requires IdleEp(s) && !s.config.kind.Isoc? && s.flags.enabled && s.phase.Idle?
    requires !s.config.streamCapable && r.own && Width(r) <= SLOTS
    ensures var s1 := Step(s, XferNotReady(active, i));
            var s2 := Step(s1, Queue(r, index));
            && StartedWith(s, r, index, s2)
            && s2.hist.log == s.hist.log + [StartTransfer(s.ring.enqueue)]
  {
    NotReadyRemembered(s, active, i);
    var s1 := NotReady(s, active, i);
    RememberedStarts(s1, r, index);
    SameButPending(s, s1, r, index, EpQueue(s1, r, index).0);
  }

  // ---------------------------------------------------------------- isochronous endpoints

  /** An isochronous stream that has nothing on the ring and has been marked so. */
  predicate RanDry(s: Ep) {
    s.config.kind.Isoc? && s.config.hasDesc && s.ring.queued == [] && s.flags.xferPending
  }

  /** It is marked by a not-ready event with nothing pending, and by the end of an event that
      took the last request off the ring with nothing pending. */
  lemma DryIsMarked(s: Ep, active: bool, index: nat)
    requires s.ring.Indexable() && s.config.kind.Isoc? && s.config.hasDesc
    requires s.ring.queued == [] && s.ring.pending == []
    ensures RanDry(NotReady(s, active, index)) && NotReady(s, active, index).hist.log == s.hist.log
    ensures s.phase.Finishing? && !s.phase.ranDry && s.pullups ==>
              RanDry(FinishStep(s, index)) && FinishStep(s, index).hist.log == s.hist.log
  {
  }

  /** A completion of the whole transfer is never handled on an isochronous endpoint; elsewhere it
      begins clean-up, and in either case the resource is released and nothing given back. */
  lemma CompletionBegins(s: Ep, e: Event)
    requires s.ring.Indexable() && Enabled(s, XferComplete(e))
    ensures var s' := Step(s, XferComplete(e));
            && !Held(s'.hist.log) && s'.resourceIndex == 0
            && s'.phase == (if s.config.kind.Isoc? then Idle else Cleaning(e, true))
            && s'.ring == s.ring && s'.flags == s.flags && s'.hist.given == s.hist.given
  {
    HeldOneMore(s.hist.log, XferCompleteSeen);
  }

  /** The next request then ends what runs: no transfer is held, and the request waits for the
      not-ready event that tells where the stream is. */
  lemma DryQueueEnds(s: Ep, r: Request, index: nat)
    requires s.ring.Indexable() && RanDry(s) && KnowsHeld(s) && s.pullups && r.own
    ensures var s' := EpQueue(s, r, index).0;
            && !Held(s'.hist.log) && s'.resourceIndex == 0
            && s'.ring == s.ring.(pending := s.ring.pending + [r.(actual := 0, status := EINPROGRESS)])
            && s'.flags == ONLY_ENABLED && s'.config == s.config && s'.pullups && s'.phase == s.phase
  {
    StopKnows(Accept(s, r));
  }

  /** An event that took the last request off the ring with more pending does so at once. */
  lemma UnderrunEnds(s: Ep, index: nat)
    requires s.ring.Indexable() && s.phase.Finishing? && !s.phase.ranDry && KnowsHeld(s)
    requires s.config.kind.Isoc? && s.config.hasDesc && s.pullups && s.ring.queued == [] && s.ring.pending != []
    ensures var s' := FinishStep(s, index);
            && !Held(s'.hist.log) && s'.resourceIndex == 0 && s'.ring == s.ring
            && s'.flags == ONLY_ENABLED && s'.phase.Idle?
  {
    StopKnows(s);
  }

  /** And that event starts the stream with the request that waits. */
  lemma WaitingStarts(s: Ep, r: Request, active: bool, index: nat)
    requires IdleEp(s) && s.config.kind.Isoc? && Width(r) <= SLOTS
    ensures PutOnRing(s, r, index, NotReady(Accept(s, r), active, index))
  {
    KickOnIdle(s, r, index);
  }

  // ---------------------------------------------------------------- announcing TRBs

  /** The log has grown, and its last command tells the controller of new TRBs. */
  predicate Announced(s: Ep, s': Ep) {
    && |s'.hist.log| > |s.hist.log|
    && (s'.hist.log[|s'.hist.log| - 1].StartTransfer? || s'.hist.log[|s'.hist.log| - 1].UpdateTransfer?)
  }

  lemma KickAnnounces(s: Ep, startNew: bool, index: nat)
    requires s.ring.Indexable()
    ensures |Kick(s, startNew, index).0.ring.queued| > |s.ring.queued| ==> Announced(s, Kick(s, startNew, index).0)
  {
  }

  lemma AfterAcceptAnnounces(s: Ep, index: nat)
    requires s.ring.Indexable()
    ensures |AfterAccept(s, index).0.ring.queued| > |s.ring.queued| ==> Announced(s, AfterAccept(s, index).0)
  {
    KickAnnounces(s, true, index);
    KickAnnounces(s, false, index);
  }

  lemma QueueAnnounces(s: Ep, r: Request, index: nat)
    requires s.ring.Indexable()
    ensures |EpQueue(s, r, index).0.ring.queued| > |s.ring.queued| ==> Announced(s, EpQueue(s, r, index).0)
  {
    AfterAcceptAnnounces(Accept(s, r), index);
  }

  lemma FinishAnnounces(s: Ep, index: nat)
    requires s.ring.Indexable() && s.phase.Finishing?
    ensures |FinishStep(s, index).ring.queued| > |s.ring.queued| ==> Announced(s, FinishStep(s, index))
  {
    KickAnnounces(Settle(s), s.phase.complete, index);
  }

  /** No step puts a request on the ring without telling the controller. */
  lemma StepAnnounces(s: Ep, a: Action)
    requires s.ring.Indexable() && Enabled(s, a)
    ensures |Step(s, a).ring.queued| > |s.ring.queued| ==> Announced(s, Step(s, a))
  {
    if a.Queue? {
      QueueAnnounces(s, a.req, a.index);
    } else if a.Finish? {
      FinishAnnounces(s, a.index);
    } else if a.XferNotReady? {
      KickAnnounces(s, true, a.index);
      KickAnnounces(s, !a.active, a.index);
    } else if a.Clean? {
      if s.ring.queued != [] {
        CleanStepTakesOff(s);
      }
    } else {
      OthersLoadNothing(s, a);
    }
  }

  lemma OthersLoadNothing(s: Ep, a: Action)
    requires s.ring.Indexable() && Enabled(s, a)
    requires !a.Queue? && !a.Finish? && !a.XferNotReady? && !a.Clean?
    ensures |Step(s, a).ring.queued| <= |s.ring.queued|
  {
    match a
    case Cancel(id) =>
    case Halt(value) =>
    case Wedge =>
    case Disable =>
    case Remove =>
    case Enable(config) =>
    case Pullup(on) =>
    case XferComplete(e) =>
    case XferInProgress(e) =>
    case CommandComplete =>
    case Retire(slot, count, sts) =>
  }

  // ---------------------------------------------------------------- ends that take their time

  /** The step has logged an END TRANSFER. */
  predicate Ending(s: Ep, s': Ep) {
    |s'.hist.log| > |s.hist.log| && s'.hist.log[|s'.hist.log| - 1].EndTransfer?
  }

  lemma KickEndsNothing(s: Ep, startNew: bool, index: nat)
    requires s.ring.Indexable()
    ensures var s' := Kick(s, startNew, index).0;
            !Ending(s, s') && s'.flags.cmdBusy == s.flags.cmdBusy
  {
  }

  lemma AfterAcceptEndsNothing(s: Ep, index: nat)
    requires s.ring.Indexable() && !s.config.kind.Isoc?
    ensures var s' := AfterAccept(s, index).0;
            !Ending(s, s') && s'.flags.cmdBusy == s.flags.cmdBusy
  {
    KickEndsNothing(s, true, index);
  }

  lemma QueueEndsNothing(s: Ep, r: Request, index: nat)
    requires s.ring.Indexable() && !s.config.kind.Isoc?
    ensures var s' := EpQueue(s, r, index).0;
            !Ending(s, s') && s'.flags.cmdBusy == s.flags.cmdBusy
  {
    AfterAcceptEndsNothing(Accept(s, r), index);
  }

  lemma FinishEndsNothing(s: Ep, index: nat)
    requires s.ring.Indexable() && s.phase.Finishing? && !s.config.kind.Isoc?
    ensures var s' := FinishStep(s, index);
            !Ending(s, s') && s'.flags.cmdBusy == s.flags.cmdBusy
  {
    KickEndsNothing(Settle(s), s.phase.complete, index);
  }

  lemma RemoveEndsNothing(s: Ep)
    requires s.removing != []
    ensures !Ending(s, RemoveStep(s)) && RemoveStep(s).flags.cmdBusy == s.flags.cmdBusy
  {
  }

  lemma DisableKnowsEnding(s: Ep)
    ensures var s' := RemoveStep(BeginDisable(s));
            s'.flags.cmdBusy <==> s.flags.cmdBusy || Ending(s, s')
  {
    RemoveEndsNothing(BeginDisable(s));
    if s.ring.queued != [] {
      assert RemoveStep(BeginDisable(s)).hist.log == StopActive(s).hist.log;
    }
  }

  lemma HaltEndsNothing(s: Ep, value: bool)
    ensures !Ending(s, EpSetHalt(s, value, false).0) && EpSetHalt(s, value, false).0.flags.cmdBusy == s.flags.cmdBusy
    ensures !Ending(s, EpSetWedge(s).0) && EpSetWedge(s).0.flags.cmdBusy == s.flags.cmdBusy
  {
  }

  /** On bulk and interrupt endpoints: until the controller reports the command complete, or the
      endpoint is enabled anew, the driver knows of an END TRANSFER it has issued; and it knows of
      none it has not. */
  lemma StepKnowsEnding(s: Ep, a: Action)
    requires s.ring.Indexable() && Enabled(s, a) && !s.config.kind.Isoc?
    requires !a.CommandComplete? && !a.Enable?
    ensures Step(s, a).flags.cmdBusy <==> s.flags.cmdBusy || Ending(s, Step(s, a))
  {
    if a.Queue? {
      QueueEndsNothing(s, a.req, a.index);
    } else if a.Finish? {
      FinishEndsNothing(s, a.index);
    } else if a.XferNotReady? {
      KickEndsNothing(s, !a.active, a.index);
    } else if a.Clean? {
      if s.ring.queued != [] {
        CleanStepTakesOff(s);
      }
    } else if a.Disable? {
      DisableKnowsEnding(s);
    } else if a.Remove? {
      RemoveEndsNothing(s);
    } else if a.Halt? || a.Wedge? {
      HaltEndsNothing(s, if a.Halt? then a.value else true);
    } else {
      OthersKnowEnding(s, a);
    }
  }

  lemma OthersKnowEnding(s: Ep, a: Action)
    requires s.ring.Indexable() && Enabled(s, a)
    requires a.Cancel? || a.Pullup? || a.XferComplete? || a.XferInProgress? || a.Retire?
    ensures Step(s, a).flags.cmdBusy <==> s.flags.cmdBusy || Ending(s, Step(s, a))
  {
  }
}
