/**
 What the commands of a run tell the controller: a transfer starts at the oldest TRB not
 given back, the driver holds a transfer resource exactly while a started transfer has
 neither completed nor been ended, nothing is given back out of a transfer by a cancellation
 or at the beginning of a disable, and the endpoint is stalled exactly when asked to be.
 */
module EndpointCommands {
  import opened TrbRing
  import opened EndpointModel
  import opened EndpointRing
  import opened EndpointRuns
  import opened EndpointStart
  import opened EndpointOpened
  import opened EndpointRemoval

  /** The last step of a run. */
  lemma {:induction false} LastStep(s: Ep, acts: seq<Action>, a: Action, guard: (Ep, Action) -> bool)
    requires s.ring.Indexable() && RunIn(s, acts + [a], guard)
    ensures RunIn(s, acts, guard) && After(s, acts, guard).ring.Indexable()
    ensures var s1 := After(s, acts, guard);
            Enabled(s1, a) && guard(s1, a) && After(s, acts + [a], guard) == Step(s1, a)
    decreases |acts|
  {
    if acts == [] {
      assert [] + [a] == [a] && [a][1..] == [];
    } else {
      assert (acts + [a])[1..] == acts[1..] + [a] && (acts + [a])[0] == acts[0];
      LastStep(Step(s, acts[0]), acts[1..], a, guard);
    }
  }

  // ---------------------------------------------------------------- where transfers start

  /** The slot of the request that has been on the ring longest. */
  function OldestSlot(s: Ring): nat {
    if s.queued == [] then 0 else s.queued[0].startSlot
  }

  /** From s to s' commands have been added to the log: transfers are started at `slot`
      only, with something on the ring, and the endpoint is disabled only if `disables`. */
  ghost predicate Adds(s: Ep, s': Ep, slot: nat, disables: bool) {
    && |s.hist.log| <= |s'.hist.log| && s'.hist.log[..|s.hist.log|] == s.hist.log
    && forall i :: |s.hist.log| <= i < |s'.hist.log| ==>
         && (s'.hist.log[i].StartTransfer? ==> s'.ring.queued != [] && s'.hist.log[i].slot == slot)
         && (s'.hist.log[i].Disabled? ==> disables)
  }

  lemma KickAdds(s: Ep, startNew: bool, index: nat)
    requires s.ring.Indexable()
    ensures var s' := Kick(s, startNew, index).0;
            Adds(s, s', OldestSlot(s'.ring), false)
  {
  }

  lemma AfterAcceptAdds(s: Ep, index: nat)
    requires s.ring.Indexable()
    ensures var s' := AfterAccept(s, index).0;
            Adds(s, s', OldestSlot(s'.ring), false)
  {
    if s.config.kind.Isoc? && s.flags.xferPending {
      assert AfterAccept(s, index).0.hist.log == s.hist.log
          || AfterAccept(s, index).0.hist.log == s.hist.log + [EndTransfer];
    } else {
      KickAdds(s, true, index);
      KickAdds(s, false, index);
    }
  }

  lemma QueueAdds(s: Ep, r: Request, index: nat)
    requires s.ring.Indexable()
    ensures var s' := EpQueue(s, r, index).0;
            Adds(s, s', OldestSlot(s'.ring), false)
  {
    AfterAcceptAdds(Accept(s, r), index);
  }

  lemma FinishAdds(s: Ep, index: nat)
    requires s.ring.Indexable() && s.phase.Finishing?
    ensures var s' := FinishStep(s, index);
            Adds(s, s', OldestSlot(s'.ring), false)
  {
    assert Adds(s, Settle(s), 0, false);
    KickAdds(Settle(s), s.phase.complete, index);
  }

  lemma CancelAdds(s: Ep, id: nat)
    ensures var s' := EpDequeue(s, id).0;
            Adds(s, s', OldestSlot(s'.ring), false)
  {
  }

  lemma RemoveAdds(s: Ep)
    requires s.removing != []
    ensures var s' := RemoveStep(s);
            Adds(s, s', OldestSlot(s'.ring), !GivesBack(s))
  {
  }

  lemma DisableAdds(s: Ep)
    ensures var s' := RemoveStep(BeginDisable(s));
            Adds(s, s', OldestSlot(s'.ring), s.ring.queued == [] && s.ring.pending == [])
  {
    RemoveAdds(BeginDisable(s));
  }

  /** Does the action end a disable? */
  predicate EndsDisable(s: Ep, a: Action) {
    match a
    case Disable => s.flags.enabled && s.ring.queued == [] && s.ring.pending == []
    case Remove => s.removing != [] && !GivesBack(s)
    case _ => false
  }

  /** Whatever has happened on the ring, requests cancelled in any order included, a step
      starts a transfer only with the request that has been on the ring longest. */
  lemma StepStartsAtOldest(s: Ep, a: Action)
    requires s.ring.Indexable() && Enabled(s, a)
    ensures Adds(s, Step(s, a), OldestSlot(Step(s, a).ring), EndsDisable(s, a))
  {
    if a.Queue? {
      QueueAdds(s, a.req, a.index);
    } else if a.Finish? {
      FinishAdds(s, a.index);
    } else if a.XferNotReady? {
      KickAdds(s, true, a.index);
      KickAdds(s, !a.active, a.index);
    } else if a.Clean? {
      if s.ring.queued != [] {
        CleanStepTakesOff(s);
      }
    } else if a.Disable? {
      DisableAdds(s);
    } else if a.Remove? {
      RemoveAdds(s);
    } else if a.Cancel? {
      CancelAdds(s, a.id);
    } else {
      OthersAdd(s, a);
    }
  }

  lemma OthersAdd(s: Ep, a: Action)
    requires s.ring.Indexable() && Enabled(s, a)
    requires a.Halt? || a.Wedge? || a.Enable? || a.Pullup? || a.XferComplete? || a.XferInProgress?
             || a.CommandComplete? || a.Retire?
    ensures Adds(s, Step(s, a), 0, false)
    ensures forall i :: |s.hist.log| <= i < |Step(s, a).hist.log| ==> !Step(s, a).hist.log[i].StartTransfer?
  {
  }

  /** From the dequeue index the controller comes to the i-th TRB of the k-th request after
      as many steps as TRBs of the requests before it and its own lie between. */
  ghost predicate Reaches(s: Ring, k: nat, i: nat)
    requires |s.pool| == TRB_NUM && s.dequeue < SLOTS && k < |s.queued|
  {
    HwWalk(s.pool, s.dequeue, Used(s.queued[..k]) + i) == RingSlot(s.queued[k].startSlot, i)
  }

  /** It comes to every TRB of every request on the ring, in order. */
  ghost predicate ReachesAll(s: Ring)
    requires |s.pool| == TRB_NUM && s.dequeue < SLOTS
  {
    forall k, i :: 0 <= k < |s.queued| && 0 <= i < Width(s.queued[k]) ==> Reaches(s, k, i)
  }

  lemma WalkReaches(s: Ring, k: nat, i: nat)
    requires RingInv(s) && Contiguous(s) && Linked(s.pool) && k < |s.queued| && i < Width(s.queued[k])
    ensures Reaches(s, k, i)
  {
    HwWalkIsRingSlot(s.pool, s.dequeue, Used(s.queued[..k]) + i);
    RingSlotAdd(s.dequeue, Used(s.queued[..k]), i);
  }

  lemma AllReached(s: Ring)
    requires RingInv(s) && Contiguous(s) && Linked(s.pool)
    ensures ReachesAll(s)
  {
    forall k, i | 0 <= k < |s.queued| && 0 <= i < Width(s.queued[k])
      ensures Reaches(s, k, i)
    {
      WalkReaches(s, k, i);
    }
  }

  lemma StartsAtDequeue(s: Ep, s': Ep, disables: bool)
    requires Adds(s, s', OldestSlot(s'.ring), disables) && EpInv(s') && Contiguous(s'.ring)
    ensures Adds(s, s', s'.ring.dequeue, true) && (s'.config.hasDesc ==> ReachesAll(s'.ring))
  {
    if s'.ring.queued != [] {
      HeadAtDequeue(s'.ring);
    }
    if s'.config.hasDesc {
      AllReached(s'.ring);
    }
  }

  /** Over every run of the kind RunKeepsSlots is about, every step: a transfer it starts is
      started at the dequeue index, with a request there, and from that slot the controller
      comes to every TRB of every request on the ring, in order. */
  lemma RunStartsAtDequeue(acts: seq<Action>, a: Action)
    requires RunIn(Start(), acts + [a], SoundHeadOnly())
    ensures RunIn(Start(), acts, SoundHeadOnly())
    ensures var s := After(Start(), acts, SoundHeadOnly());
            var s' := After(Start(), acts + [a], SoundHeadOnly());
            && s'.ring.Indexable() && |s.hist.log| <= |s'.hist.log|
            && (forall i :: |s.hist.log| <= i < |s'.hist.log| && s'.hist.log[i].StartTransfer? ==>
                  s'.ring.queued != [] && s'.hist.log[i].slot == s'.ring.dequeue)
            && (s'.config.hasDesc ==> ReachesAll(s'.ring))
  {
    LastStep(Start(), acts, a, SoundHeadOnly());
    RunKeepsSlots(acts + [a]);
    var s := After(Start(), acts, SoundHeadOnly());
    StepStartsAtOldest(s, a);
    StartsAtDequeue(s, Step(s, a), EndsDisable(s, a));
  }

  // ---------------------------------------------------------------- stalls

  /** Has the controller been told to stall the endpoint, and not to end that? */
  function Stalled(log: seq<Cmd>): bool {
    if log == [] then false
    else
      var cmd := log[|log| - 1];
      if cmd.SetStall? then true
      else if cmd.ClearStall? then false
      else Stalled(log[..|log| - 1])
  }

  lemma StalledOneMore(log: seq<Cmd>, cmd: Cmd)
    ensures Stalled(log + [cmd]) == if cmd.SetStall? then true else !cmd.ClearStall? && Stalled(log)
  {
    assert (log + [cmd])[..|log|] == log;
  }

  /** The stall flag tells that.  Isochronous endpoints are never stalled, and disabled ones
      neither. */
  predicate KnowsStall(s: Ep) {
    && (s.flags.stall <==> Stalled(s.hist.log))
    && (s.flags.stall ==> s.config.hasDesc && s.flags.enabled && !s.config.kind.Isoc?)
    && (s.config.hasDesc && !s.flags.enabled ==> s.config.kind.Isoc?)
  }

  lemma KickKnowsStall(s: Ep, startNew: bool, index: nat)
    requires s.ring.Indexable() && KnowsStall(s)
    ensures KnowsStall(Kick(s, startNew, index).0)
  {
    var ring := Loaded(s.config, s.ring, startNew);
    if ring.queued != [] {
      StalledOneMore(s.hist.log, if startNew then StartTransfer(ring.queued[0].startSlot) else UpdateTransfer);
    }
  }

  lemma StopKnowsStall(s: Ep)
    requires KnowsStall(s)
    ensures KnowsStall(StopActive(s))
  {
    StalledOneMore(s.hist.log, EndTransfer);
  }

  lemma AfterAcceptKnowsStall(s: Ep, index: nat)
    requires s.ring.Indexable() && KnowsStall(s) && s.config.hasDesc
    ensures KnowsStall(AfterAccept(s, index).0)
  {
    if s.config.kind.Isoc? && s.flags.xferPending {
      StopKnowsStall(s);
    } else {
      KickKnowsStall(s, true, index);
      KickKnowsStall(s, false, index);
    }
  }

  lemma EndKnowsStall(s: Ep)
    requires KnowsStall(s) && s.removing != []
    ensures KnowsStall(EndDisable(s))
  {
    StalledOneMore(s.hist.log, ClearStall);
    StalledOneMore(s.hist.log, Disabled);
    StalledOneMore(s.hist.log + [ClearStall], Disabled);
  }

  lemma RemoveKnowsStall(s: Ep)
    requires KnowsStall(s) && s.removing != []
    ensures KnowsStall(RemoveStep(s))
  {
    if !GivesBack(s) {
      EndKnowsStall(s);
    }
  }

  lemma DisableKnowsStall(s: Ep)
    requires KnowsStall(s)
    ensures KnowsStall(RemoveStep(BeginDisable(s)))
  {
    StopKnowsStall(s);
    RemoveKnowsStall(BeginDisable(s));
  }

  lemma FinishKnowsStall(s: Ep, index: nat)
    requires s.ring.Indexable() && KnowsStall(s) && s.phase.Finishing?
    ensures KnowsStall(FinishStep(s, index))
  {
    StopKnowsStall(s);
    assert KnowsStall(Settle(s));
    KickKnowsStall(Settle(s), s.phase.complete, index);
  }

  /** A halt: what the gadget driver is told, and when a stall is refused. */
  lemma HaltExactly(s: Ep, value: bool)
    requires KnowsStall(s) && s.config.hasDesc
    ensures var (s', ret) := EpSetHalt(s, value, false);
            && KnowsStall(s')
            && (ret == 0 ==> Stalled(s'.hist.log) == value)
            && (ret != 0 ==> s' == s)
            && (ret == 0 <==> !s.config.kind.Isoc?
                              && (value ==> Listed(s) == [] && !(s.config.dirIn && s.flags.busy)))
  {
    StalledOneMore(s.hist.log, SetStall);
    StalledOneMore(s.hist.log, ClearStall);
    assert |Listed(s)| == |s.ring.queued| + |s.ring.pending|;
  }

  /** A wedge is a stall the gadget driver has to end itself.  The endpoint is marked even when the
      stall is refused. */
  lemma WedgeMarksAnyway(s: Ep)
    requires KnowsStall(s) && s.config.hasDesc
    ensures var (s', ret) := EpSetWedge(s);
            && s'.flags.wedge
            && (ret == 0 ==> s'.flags.stall && Stalled(s'.hist.log))
            && (ret != 0 ==> s' == s.(flags := s.flags.(wedge := true)))
            && (ret == 0 <==> !s.config.kind.Isoc? && Listed(s) == [] && !(s.config.dirIn && s.flags.busy))
    ensures EpSetHalt(EpSetWedge(s).0, false, false).1 == 0 ==>
              !EpSetHalt(EpSetWedge(s).0, false, false).0.flags.wedge
  {
    HaltExactly(s.(flags := s.flags.(wedge := true)), true);
  }

  lemma WedgeKnowsStall(s: Ep)
    requires KnowsStall(s) && s.config.hasDesc
    ensures KnowsStall(EpSetWedge(s).0)
  {
    HaltExactly(s.(flags := s.flags.(wedge := true)), true);
  }

  lemma CompletionKnowsStall(s: Ep, e: Event)
    requires s.ring.Indexable() && KnowsStall(s) && Enabled(s, XferComplete(e))
    ensures KnowsStall(Step(s, XferComplete(e)))
  {
    StalledOneMore(s.hist.log, XferCompleteSeen);
  }

  lemma OthersKnowStall(s: Ep, a: Action)
    requires s.ring.Indexable() && KnowsStall(s) && Enabled(s, a)
    requires a.Enable? || a.Pullup? || a.XferInProgress? || a.CommandComplete? || a.Retire?
    ensures KnowsStall(Step(s, a))
  {
  }

  lemma EventKnowsStall(s: Ep, a: Action)
    requires s.ring.Indexable() && KnowsStall(s) && Enabled(s, a)
    requires a.Clean? || a.Finish? || a.XferNotReady? || a.XferComplete?
    ensures KnowsStall(Step(s, a))
  {
    match a
    case XferComplete(e) => CompletionKnowsStall(s, e);
    case Clean =>
      if s.ring.queued != [] {
        CleanStepTakesOff(s);
      }
    case Finish(index) => FinishKnowsStall(s, index);
    case XferNotReady(active, index) =>
      KickKnowsStall(s, true, index);
      KickKnowsStall(s, !active, index);
  }

  lemma StepKnowsStall(s: Ep, a: Action)
    requires s.ring.Indexable() && KnowsStall(s) && Enabled(s, a)
    ensures KnowsStall(Step(s, a))
  {
    if a.Queue? {
      if s.config.hasDesc {
        AfterAcceptKnowsStall(Accept(s, a.req), a.index);
      }
    } else if a.Cancel? {
      StopKnowsStall(s);
    } else if a.Halt? {
      HaltExactly(s, a.value);
    } else if a.Wedge? {
      WedgeKnowsStall(s);
    } else if a.Disable? {
      DisableKnowsStall(s);
    } else if a.Remove? {
      RemoveKnowsStall(s);
    } else if a.Clean? || a.Finish? || a.XferNotReady? || a.XferComplete? {
      EventKnowsStall(s, a);
    } else {
      OthersKnowStall(s, a);
    }
  }

  lemma {:induction false} KnowsStallFrom(s: Ep, acts: seq<Action>)
    requires s.ring.Indexable() && KnowsStall(s) && RunIn(s, acts, Unguarded())
    ensures KnowsStall(After(s, acts, Unguarded()))
    decreases |acts|
  {
    if acts != [] {
      StepKnowsStall(s, acts[0]);
      KnowsStallFrom(Step(s, acts[0]), acts[1..]);
    }
  }

  /** Over every run from the start: the stall flag is set exactly while the controller has
      been told to stall the endpoint and not to end that; and a halt is granted exactly on
      an endpoint that is not isochronous, and for a stall only with nothing listed and, on
      an IN endpoint, no transfer running. */
  lemma RunStalls(acts: seq<Action>, value: bool)
    requires RunIn(Start(), acts, Unguarded())
    ensures var s := After(Start(), acts, Unguarded());
            && (s.flags.stall <==> Stalled(s.hist.log))
            && (s.config.hasDesc ==>
                  var (s', ret) := EpSetHalt(s, value, false);
                  && (ret == 0 ==> Stalled(s'.hist.log) == value)
                  && (ret != 0 ==> s' == s)
                  && (ret == 0 <==> !s.config.kind.Isoc?
                                    && (value ==> Listed(s) == [] && !(s.config.dirIn && s.flags.busy))))
  {
    KnowsStallFrom(Start(), acts);
    var s := After(Start(), acts, Unguarded());
    if s.config.hasDesc {
      HaltExactly(s, value);
    }
  }

  // ---------------------------------------------------------------- which transfers are held

  /** Has a transfer been started that has neither completed nor been ended by END TRANSFER?
      Disabling the endpoint is no end of it. */
  function Held(log: seq<Cmd>): bool {
    if log == [] then false
    else
      var cmd := log[|log| - 1];
      if cmd.StartTransfer? then true
      else if cmd.XferCompleteSeen? || cmd.EndTransfer? then false
      else Held(log[..|log| - 1])
  }

  lemma HeldOneMore(log: seq<Cmd>, cmd: Cmd)
    ensures Held(log + [cmd])
         == if cmd.StartTransfer? then true else !cmd.XferCompleteSeen? && !cmd.EndTransfer? && Held(log)
  {
    assert (log + [cmd])[..|log|] == log;
  }

  /** What is outstanding is held. */
  lemma {:induction false} OutstandingIsHeld(log: seq<Cmd>)
    ensures Outstanding(log) ==> Held(log)
  {
    if log != [] {
      OutstandingIsHeld(log[..|log| - 1]);
    }
  }

  /** The controller gives every started transfer an index other than 0, of which the driver
      warns. */
  predicate GivesIndex(s: Ep, a: Action) {
    (a.Queue? || a.Finish? || a.XferNotReady?) ==> a.index != 0
  }

  ghost function Indexed(): (Ep, Action) -> bool {
    (s, a) => GivesIndex(s, a)
  }

  /** The driver knows of the transfer held. */
  predicate KnowsHeld(s: Ep) {
    Held(s.hist.log) <==> s.resourceIndex != 0
  }

  lemma KickKnows(s: Ep, startNew: bool, index: nat)
    requires s.ring.Indexable() && KnowsHeld(s) && index != 0
    ensures KnowsHeld(Kick(s, startNew, index).0)
  {
    var ring := Loaded(s.config, s.ring, startNew);
    if ring.queued != [] {
      HeldOneMore(s.hist.log, if startNew then StartTransfer(ring.queued[0].startSlot) else UpdateTransfer);
    }
  }

  lemma StopKnows(s: Ep)
    requires KnowsHeld(s)
    ensures KnowsHeld(StopActive(s)) && !Held(StopActive(s).hist.log)
  {
    HeldOneMore(s.hist.log, EndTransfer);
  }

  lemma QueueKnows(s: Ep, r: Request, index: nat)
    requires s.ring.Indexable() && KnowsHeld(s) && index != 0
    ensures KnowsHeld(EpQueue(s, r, index).0)
  {
    var s1 := Accept(s, r);
    KickKnows(s1, true, index);
    KickKnows(s1, false, index);
    StopKnows(s1);
  }

  lemma EndKnows(s: Ep)
    requires KnowsHeld(s) && s.removing != []
    ensures KnowsHeld(EndDisable(s))
  {
    HeldOneMore(s.hist.log, ClearStall);
    HeldOneMore(s.hist.log, Disabled);
    HeldOneMore(s.hist.log + [ClearStall], Disabled);
  }

  lemma RemoveKnows(s: Ep)
    requires KnowsHeld(s) && s.removing != []
    ensures KnowsHeld(RemoveStep(s))
  {
    if !GivesBack(s) {
      EndKnows(s);
    }
  }

  lemma DisableKnows(s: Ep)
    requires KnowsHeld(s)
    ensures KnowsHeld(RemoveStep(BeginDisable(s)))
  {
    StopKnows(s);
    RemoveKnows(BeginDisable(s));
  }

  lemma FinishKnows(s: Ep, index: nat)
    requires s.ring.Indexable() && KnowsHeld(s) && s.phase.Finishing? && index != 0
    ensures KnowsHeld(FinishStep(s, index))
  {
    StopKnows(s);
    assert KnowsHeld(Settle(s));
    KickKnows(Settle(s), s.phase.complete, index);
  }

  lemma HaltKnows(s: Ep, value: bool)
    requires KnowsHeld(s)
    ensures KnowsHeld(EpSetHalt(s, value, false).0) && KnowsHeld(EpSetWedge(s).0)
  {
    HeldOneMore(s.hist.log, SetStall);
    HeldOneMore(s.hist.log, ClearStall);
  }

  lemma CompletionKnows(s: Ep, e: Event)
    requires s.ring.Indexable() && Enabled(s, XferComplete(e))
    ensures KnowsHeld(Step(s, XferComplete(e)))
  {
    HeldOneMore(s.hist.log, XferCompleteSeen);
  }

  lemma NotReadyKnows(s: Ep, active: bool, index: nat)
    requires s.ring.Indexable() && KnowsHeld(s) && index != 0
    ensures KnowsHeld(NotReady(s, active, index))
  {
    KickKnows(s, true, index);
    KickKnows(s, !active, index);
  }

  lemma OthersKnow(s: Ep, a: Action)
    requires s.ring.Indexable() && KnowsHeld(s) && Enabled(s, a)
    requires a.Enable? || a.Pullup? || a.XferInProgress? || a.CommandComplete? || a.Retire?
    ensures KnowsHeld(Step(s, a))
  {
  }

  lemma StepKnows(s: Ep, a: Action)
    requires s.ring.Indexable() && KnowsHeld(s) && Enabled(s, a) && GivesIndex(s, a)
    ensures KnowsHeld(Step(s, a))
  {
    if a.Queue? {
      QueueKnows(s, a.req, a.index);
    } else if a.Cancel? {
      StopKnows(s);
    } else if a.Halt? || a.Wedge? {
      HaltKnows(s, if a.Halt? then a.value else true);
    } else if a.Disable? {
      DisableKnows(s);
    } else if a.Remove? {
      RemoveKnows(s);
    } else if a.XferComplete? {
      CompletionKnows(s, a.event);
    } else if a.Clean? {
      if s.ring.queued != [] {
        CleanStepTakesOff(s);
      }
    } else if a.Finish? {
      FinishKnows(s, a.index);
    } else if a.XferNotReady? {
      NotReadyKnows(s, a.active, a.index);
    } else {
      OthersKnow(s, a);
    }
  }

  lemma {:induction false} KnowsFrom(s: Ep, acts: seq<Action>)
    requires s.ring.Indexable() && KnowsHeld(s) && RunIn(s, acts, Indexed())
    ensures KnowsHeld(After(s, acts, Indexed()))
    decreases |acts|
  {
    if acts != [] {
      StepKnows(s, acts[0]);
      KnowsFrom(Step(s, acts[0]), acts[1..]);
    }
  }

  /** Over every run from the start, on every kind of endpoint: the driver holds a resource
      index exactly while a started transfer has neither completed nor been ended. */
  lemma RunKnowsHeld(acts: seq<Action>)
    requires RunIn(Start(), acts, Indexed())
    ensures var s := After(Start(), acts, Indexed());
            s.resourceIndex != 0 <==> Held(s.hist.log)
  {
    KnowsFrom(Start(), acts);
  }

  /** Commands added, none of them the end of a disable: what is outstanding and what is held
      stay the same, if they were. */
  lemma {:induction false} SameOn(log: seq<Cmd>, n: nat)
    requires n <= |log| && Outstanding(log[..n]) == Held(log[..n])
    requires forall i :: n <= i < |log| ==> !log[i].Disabled?
    ensures Outstanding(log) == Held(log)
    decreases |log|
  {
    if n == |log| {
      assert log[..n] == log;
    } else {
      assert log[..|log| - 1][..n] == log[..n];
      SameOn(log[..|log| - 1], n);
    }
  }

  lemma EndsOutstanding(s: Ep, a: Action)
    requires s.ring.Indexable() && Enabled(s, a) && EndsDisable(s, a)
    ensures !Outstanding(Step(s, a).hist.log) && Step(s, a).resourceIndex == s.resourceIndex
  {
    var log := Step(s, a).hist.log;
    assert log[|log| - 1].Disabled?;
  }

  /** A disable ends a transfer only if something is on the ring when it begins.  What is
      outstanding and what the driver holds agree after a step exactly if it does not end a
      disable while a resource is held. */
  lemma StepOutstandingExactly(s: Ep, a: Action)
    requires s.ring.Indexable() && Enabled(s, a) && GivesIndex(s, a)
    requires KnowsHeld(s) && (Outstanding(s.hist.log) <==> s.resourceIndex != 0)
    ensures var s' := Step(s, a);
            (Outstanding(s'.hist.log) <==> s'.resourceIndex != 0) <==> !(EndsDisable(s, a) && s.resourceIndex != 0)
  {
    StepKnows(s, a);
    if EndsDisable(s, a) {
      EndsOutstanding(s, a);
    } else {
      StepStartsAtOldest(s, a);
      SameOn(Step(s, a).hist.log, |s.hist.log|);
    }
  }

  /** No disable ends while a resource is held. */
  ghost function IndexedEnds(): (Ep, Action) -> bool {
    (s, a) => GivesIndex(s, a) && !(EndsDisable(s, a) && s.resourceIndex != 0)
  }

  lemma {:induction false} OutstandingFrom(s: Ep, acts: seq<Action>)
    requires s.ring.Indexable() && RunIn(s, acts, IndexedEnds())
    requires KnowsHeld(s) && (Outstanding(s.hist.log) <==> s.resourceIndex != 0)
    ensures var s' := After(s, acts, IndexedEnds());
            KnowsHeld(s') && (Outstanding(s'.hist.log) <==> s'.resourceIndex != 0)
    decreases |acts|
  {
    if acts != [] {
      StepKnows(s, acts[0]);
      StepOutstandingExactly(s, acts[0]);
      OutstandingFrom(Step(s, acts[0]), acts[1..]);
    }
  }

  /** Over every run from the start in which no disable ends so, a transfer is outstanding
      exactly while the driver holds its resource. */
  lemma RunOutstanding(acts: seq<Action>)
    requires RunIn(Start(), acts, IndexedEnds())
    ensures var s := After(Start(), acts, IndexedEnds());
            Outstanding(s.hist.log) <==> s.resourceIndex != 0
  {
    OutstandingFrom(Start(), acts);
  }

  // ---------------------------------------------------------------- giving back out of a transfer

  /** Does the action take a request off the ring by a cancellation, or by the first giveback
      of a disable? */
  predicate TakesOff(s: Ep, a: Action) {
    match a
    case Cancel(id) =>
      IndexOf(s.ring.pending, id) == |s.ring.pending| && IndexOf(s.ring.queued, id) < |s.ring.queued|
    case Disable => s.flags.enabled && s.ring.queued != []
    case _ => false
  }

  lemma TakesOffStopped(s: Ep, a: Action)
    requires s.ring.Indexable() && Enabled(s, a) && KnowsHeld(s) && TakesOff(s, a)
    ensures var s' := Step(s, a);
            && !Held(s'.hist.log) && s'.resourceIndex == 0
            && |s'.ring.queued| == |s.ring.queued| - 1 && |s'.hist.given| == |s.hist.given| + 1
  {
    StopKnows(s);
  }

  /** Over every run from the start, every such step: when it has given the request back, no
      transfer is held, and none is outstanding. */
  lemma RunStopsBeforeTaking(acts: seq<Action>, a: Action)
    requires RunIn(Start(), acts + [a], Indexed())
    ensures RunIn(Start(), acts, Indexed())
    ensures var s := After(Start(), acts, Indexed());
            var s' := After(Start(), acts + [a], Indexed());
            TakesOff(s, a) ==>
              && |s'.ring.queued| == |s.ring.queued| - 1 && |s'.hist.given| == |s.hist.given| + 1
              && !Held(s'.hist.log) && !Outstanding(s'.hist.log) && s'.resourceIndex == 0
  {
    LastStep(Start(), acts, a, Indexed());
    KnowsFrom(Start(), acts);
    var s := After(Start(), acts, Indexed());
    if TakesOff(s, a) {
      TakesOffStopped(s, a);
      OutstandingIsHeld(Step(s, a).hist.log);
    }
  }

  /** A run from the start in which a disable begins with nothing on the ring, the one request
      (of one buffer, so that its TRB does not end the transfer) being worked off: the endpoint
      ends disabled with its transfer neither completed nor ended. */
  lemma DisableKeepsTransfer(c: Config, r: Request, e: Event)
    requires c.kind.Bulk? && r.own && |r.bufs| == 1
    ensures var acts := [Pullup(true), Enable(c), Queue(r, 1), XferInProgress(e), Clean, Disable];
            exists s :: Leads(Start(), acts, s) && !s.config.hasDesc && s.ring.queued == [] && s.removing == []
                        && Held(s.hist.log) && s.resourceIndex == 1
  {
    var acts := [Pullup(true), Enable(c), Queue(r, 1), XferInProgress(e), Clean, Disable];
    var s1 := FirstByRun(c, r, acts);
    var s := DisabledByRun(acts, s1, e);
  }

  lemma FirstByRun(c: Config, r: Request, acts: seq<Action>) returns (s: Ep)
    requires c.kind.Bulk? && r.own && Width(r) == 1
    requires |acts| >= 3 && acts[0] == Pullup(true) && acts[1] == Enable(c) && acts[2] == Queue(r, 1)
    ensures Leads(Start(), acts[..3], s) && s.ring.Indexable() && |s.ring.queued| == 1 && s.ring.pending == []
    ensures s.flags.enabled && !s.flags.stall && s.phase.Idle? && s.removing == [] && s.resourceIndex == 1
    ensures s.hist.log == [StartTransfer(0)]
  {
    FirstQueued(c, r, 1);
    QueuedByRun(c, r, 1, acts);
    s := Step(Opened(c), Queue(r, 1));
  }

  /** A transfer started and nothing listed any more. */
  predicate WorkedOff(s: Ep) {
    && s.ring.Indexable() && s.ring.queued == [] && s.ring.pending == []
    && s.flags.enabled && !s.flags.stall && s.removing == [] && s.resourceIndex == 1
    && s.hist.log == [StartTransfer(0)]
  }

  lemma DisabledByRun(acts: seq<Action>, s: Ep, e: Event) returns (s': Ep)
    requires |acts| == 6 && acts[3] == XferInProgress(e) && acts[4] == Clean && acts[5] == Disable
    requires Leads(Start(), acts[..3], s) && s.ring.Indexable() && |s.ring.queued| == 1 && s.ring.pending == []
    requires s.flags.enabled && !s.flags.stall && s.phase.Idle? && s.removing == [] && s.resourceIndex == 1
    requires s.hist.log == [StartTransfer(0)]
    ensures Leads(Start(), acts, s') && !s'.config.hasDesc && s'.ring.queued == [] && s'.removing == []
    ensures Held(s'.hist.log) && s'.resourceIndex == 1
  {
    var s1 := LeadsNext(acts, 3, s);
    var s2 := CleanedByRun(acts, s1);
    DisableLeavesHeld(s2);
    s' := LeadsNext(acts, 5, s2);
  }

  lemma CleanedByRun(acts: seq<Action>, s: Ep) returns (s': Ep)
    requires |acts| == 6 && acts[4] == Clean && Leads(Start(), acts[..4], s) && s.phase.Cleaning?
    requires s.ring.Indexable() && |s.ring.queued| == 1 && WorkedOff(s.(ring := s.ring.(queued := [])))
    ensures Leads(Start(), acts[..5], s') && WorkedOff(s')
  {
    CleanStepTakesOff(s);
    assert Without(s.ring.queued, 0) == [];
    s' := LeadsNext(acts, 4, s);
  }

  lemma DisableLeavesHeld(s: Ep)
    requires WorkedOff(s)
    ensures var s' := RemoveStep(BeginDisable(s));
            && !s'.config.hasDesc && s'.ring.queued == [] && s'.removing == []
            && Held(s'.hist.log) && s'.resourceIndex == 1
  {
    HeldOneMore([], StartTransfer(0));
    HeldOneMore([StartTransfer(0)], Disabled);
  }

  /** A request queued from a callback of the first loop is put on the ring and started, and
      then given back by that loop, its transfer still running. */
  lemma DisableGivesBackRunning(c: Config, r1: Request, r2: Request)
    requires c.kind.Bulk? && !c.streamCapable && Plain(r1) && Plain(r2)
    ensures var acts := [Pullup(true), Enable(c), Queue(r1, 1), Retire(0, 0, 0), Disable, Queue(r2, 1), Remove];
            exists s :: Leads(Start(), acts, s) && |s.hist.given| == 2 && s.hist.given[1].id == r2.id
                        && Outstanding(s.hist.log) && s.resourceIndex == 1
  {
    var acts := [Pullup(true), Enable(c), Queue(r1, 1), Retire(0, 0, 0), Disable, Queue(r2, 1), Remove];
    var s1 := RunningByRun(c, r1, acts);
    var s := GivenBackRunning(acts, s1, r1, r2);
  }

  lemma RunningByRun(c: Config, r: Request, acts: seq<Action>) returns (s: Ep)
    requires c.kind.Bulk? && !c.streamCapable && Plain(r)
    requires |acts| >= 4 && acts[0] == Pullup(true) && acts[1] == Enable(c) && acts[2] == Queue(r, 1)
    requires acts[3] == Retire(0, 0, 0)
    ensures Leads(Start(), acts[..4], s) && Running(s, r, [])
  {
    QueuedByRun(c, r, 1, acts);
    FirstRunning(c, r);
    s := LeadsNext(acts, 3, Step(Opened(c), Queue(r, 1)));
  }

  lemma GivenBackRunning(acts: seq<Action>, s: Ep, r1: Request, r2: Request) returns (s': Ep)
    requires |acts| == 7 && acts[4] == Disable && acts[5] == Queue(r2, 1) && acts[6] == Remove
    requires Leads(Start(), acts[..4], s) && Running(s, r1, []) && Plain(r2)
    ensures Leads(Start(), acts, s') && |s'.hist.given| == 2 && s'.hist.given[1].id == r2.id
    ensures Outstanding(s'.hist.log) && s'.resourceIndex == 1
  {
    DisableRunning(s, r1, []);
    var s1 := LeadsNext(acts, 4, s);
    s' := StartedAndGivenBack(acts, s1, s.config, r2, s.ring.pool);
  }

  lemma StartedAndGivenBack(acts: seq<Action>, s: Ep, c: Config, r: Request, pool: seq<Trb>) returns (s': Ep)
    requires |acts| == 7 && acts[5] == Queue(r, 1) && acts[6] == Remove && Leads(Start(), acts[..5], s)
    requires Disabling(s, c, [], RingPart, pool) && |pool| == TRB_NUM && !pool[0].hwo && c.hasDesc && c.kind.Bulk?
    requires Plain(r) && |s.hist.given| == 1
    ensures Leads(Start(), acts, s') && |s'.hist.given| == 2 && s'.hist.given[1].id == r.id
    ensures Outstanding(s'.hist.log) && s'.resourceIndex == 1
  {
    QueueOnIdle(s, r, 1);
    var s1 := LeadsNext(acts, 5, s);
    s' := LeadsNext(acts, 6, s1);
    var n := |s.hist.log|;
    assert s'.hist.log[n].StartTransfer? && |s'.hist.log| == n + 1;
  }
}
