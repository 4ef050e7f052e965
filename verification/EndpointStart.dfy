/**
 At most one START TRANSFER is outstanding on a bulk or interrupt endpoint.  The busy
 flag is what guards it; the argument has to follow that flag through completion
 callbacks, which run while an event is half handled.
 */
module EndpointStart {
  import opened TrbRing
  import opened EndpointModel
  import opened EndpointRing
  import opened EndpointRuns

  /** Does the command end a started transfer? */
  predicate Ends(cmd: Cmd) {
    cmd.XferCompleteSeen? || cmd.EndTransfer? || cmd.Disabled?
  }

  /** Is a transfer outstanding after these commands and completions? */
  function Outstanding(log: seq<Cmd>): bool {
    if log == [] then false
    else
      var cmd := log[|log| - 1];
      if cmd.StartTransfer? then true
      else if Ends(cmd) then false
      else Outstanding(log[..|log| - 1])
  }

  /** Between any two starts there is a completion, an END TRANSFER or a disable. */
  ghost predicate OneAtATime(log: seq<Cmd>) {
    forall i, j :: 0 <= i < j < |log| && log[i].StartTransfer? && log[j].StartTransfer? ==>
      exists k :: i < k < j && Ends(log[k])
  }

  lemma {:induction false} OutstandingSince(log: seq<Cmd>, i: nat)
    requires i < |log| && log[i].StartTransfer? && !Outstanding(log)
    ensures exists k :: i < k < |log| && Ends(log[k])
  {
    var n := |log| - 1;
    if !Ends(log[n]) {
      OutstandingSince(log[..n], i);
      var k :| i < k < n && Ends(log[..n][k]);
      assert Ends(log[k]);
    }
  }

  /** Adding a command keeps one transfer at a time exactly when it does not start a
      transfer over an outstanding one. */
  lemma OneMore(log: seq<Cmd>, cmd: Cmd)
    requires OneAtATime(log)
    ensures OneAtATime(log + [cmd]) <==> !(cmd.StartTransfer? && Outstanding(log))
    ensures Outstanding(log + [cmd]) == if cmd.StartTransfer? then true else !Ends(cmd) && Outstanding(log)
  {
    var longer := log + [cmd];
    assert longer[..|log|] == log;
    if cmd.StartTransfer? && Outstanding(log) {
      var i := LastStart(log);
      assert longer[i].StartTransfer? && longer[|log|].StartTransfer?;
      assert forall k :: i < k < |log| ==> longer[k] == log[k];
    } else {
      forall i, j | 0 <= i < j < |longer| && longer[i].StartTransfer? && longer[j].StartTransfer?
        ensures exists k :: i < k < j && Ends(longer[k])
      {
        if j < |log| {
          var k :| i < k < j && Ends(log[k]);
          assert Ends(longer[k]);
        } else {
          OutstandingSince(log, i);
          var k :| i < k < |log| && Ends(log[k]);
          assert Ends(longer[k]);
        }
      }
    }
  }

  lemma {:induction false} LastStart(log: seq<Cmd>) returns (i: nat)
    requires Outstanding(log)
    ensures i < |log| && log[i].StartTransfer?
    ensures forall k :: i < k < |log| ==> !Ends(log[k])
  {
    var n := |log| - 1;
    if log[n].StartTransfer? {
      i := n;
    } else {
      i := LastStart(log[..n]);
      forall k | i < k < |log|
        ensures !Ends(log[k])
      {
        if k < n {
          assert log[..n][k] == log[k];
        }
      }
    }
  }

  /** A completion event is being handled. */
  predicate Completing(s: Ep) {
    (s.phase.Cleaning? || s.phase.Finishing?) && s.phase.complete
  }

  ghost predicate StartInv(s: Ep) {
    && !s.config.kind.Isoc?
    && s.ring.Indexable()
    && (s.flags.enabled <==> s.config.hasDesc)
    && (!s.config.hasDesc ==> !Outstanding(s.hist.log))
    && OneAtATime(s.hist.log)
    && (Outstanding(s.hist.log) ==> s.flags.busy)
    && (Completing(s) ==>
          !Outstanding(s.hist.log) && s.resourceIndex == 0 && (s.flags.busy || !s.config.hasDesc))
  }

  /** What is assumed of the parties: the endpoint is not isochronous, a completion is
      reported only for a started transfer, and the endpoint is not enabled again from
      inside a completion callback of a transfer that has just completed. */
  predicate Fair(s: Ep, a: Action) {
    match a
    case Enable(config) => !config.kind.Isoc? && !Completing(s)
    case XferComplete(_) => Outstanding(s.hist.log)
    case _ => true
  }

  lemma KickOne(s: Ep, startNew: bool, index: nat)
    requires StartInv(s) && s.config.hasDesc && (Completing(s) ==> startNew)
    ensures StartInv(Kick(s, startNew, index).0)
  {
    var ring := Loaded(s.config, s.ring, startNew);
    if ring.queued != [] {
      OneMore(s.hist.log, if startNew then StartTransfer(ring.queued[0].startSlot) else UpdateTransfer);
    }
  }

  lemma StopOne(s: Ep)
    requires StartInv(s)
    ensures StartInv(StopActive(s))
  {
    OneMore(s.hist.log, EndTransfer);
  }

  lemma RemoveOne(s: Ep)
    requires StartInv(s) && s.removing != []
    ensures StartInv(RemoveStep(s))
  {
    if !GivesBack(s) {
      var log := s.hist.log;
      OneMore(log, ClearStall);
      OneMore(log, Disabled);
      OneMore(log + [ClearStall], Disabled);
    }
  }

  lemma DisableOne(s: Ep)
    requires StartInv(s) && s.flags.enabled
    ensures StartInv(RemoveStep(BeginDisable(s)))
  {
    StopOne(s);
    assert StartInv(BeginDisable(s));
    RemoveOne(BeginDisable(s));
  }

  lemma QueueOne(s: Ep, r: Request, index: nat)
    requires StartInv(s)
    ensures StartInv(EpQueue(s, r, index).0)
  {
    if s.config.hasDesc && s.pullups {
      KickOne(Accept(s, r), true, index);
    }
  }

  lemma HaltOne(s: Ep, value: bool)
    requires StartInv(s)
    ensures StartInv(EpSetHalt(s, value, false).0)
  {
    OneMore(s.hist.log, SetStall);
    OneMore(s.hist.log, ClearStall);
  }

  lemma CompletionOne(s: Ep, e: Event)
    requires StartInv(s) && Enabled(s, XferComplete(e)) && Outstanding(s.hist.log)
    ensures StartInv(Step(s, XferComplete(e)))
  {
    OneMore(s.hist.log, XferCompleteSeen);
  }

  lemma CleanOne(s: Ep)
    requires StartInv(s) && s.phase.Cleaning?
    ensures StartInv(CleanStep(s))
  {
    if s.ring.queued != [] {
      CleanStepTakesOff(s);
    }
  }

  lemma FinishOne(s: Ep, index: nat)
    requires StartInv(s) && s.phase.Finishing?
    ensures StartInv(FinishStep(s, index))
  {
    assert StartInv(Settle(s));
    if s.config.hasDesc && s.pullups {
      KickOne(Settle(s), s.phase.complete, index);
    }
  }

  lemma NotReadyOne(s: Ep, active: bool, index: nat)
    requires StartInv(s) && s.phase.Idle? && s.flags.enabled
    ensures StartInv(NotReady(s, active, index))
  {
    KickOne(s, !active, index);
  }

  /** Cancelling a queued request ends the transfer. */
  lemma CancelOne(s: Ep, id: nat)
    requires StartInv(s)
    ensures StartInv(EpDequeue(s, id).0)
  {
    StopOne(s);
  }

  lemma StepOne(s: Ep, a: Action)
    requires StartInv(s) && Enabled(s, a) && Fair(s, a)
    ensures StartInv(Step(s, a))
  {
    match a
    case Queue(r, index) => QueueOne(s, r, index);
    case Cancel(id) => CancelOne(s, id);
    case Halt(value) => HaltOne(s, value);
    case Wedge => HaltOne(s.(flags := s.flags.(wedge := true)), true);
    case Disable =>
      if s.flags.enabled {
        DisableOne(s);
      }
    case Remove => RemoveOne(s);
    case Enable(config) =>
    case Pullup(on) =>
    case XferComplete(e) => CompletionOne(s, e);
    case XferInProgress(e) =>
    case Clean => CleanOne(s);
    case Finish(index) => FinishOne(s, index);
    case XferNotReady(active, index) => NotReadyOne(s, active, index);
    case CommandComplete =>
    case Retire(slot, count, sts) =>
  }

  ghost function FairRun(): (Ep, Action) -> bool {
    (s, a) => Fair(s, a)
  }

  lemma {:induction false} OneAtATimeFrom(s: Ep, acts: seq<Action>)
    requires StartInv(s) && RunIn(s, acts, FairRun())
    ensures StartInv(After(s, acts, FairRun()))
    decreases |acts|
  {
    if acts != [] {
      StepOne(s, acts[0]);
      OneAtATimeFrom(Step(s, acts[0]), acts[1..]);
    }
  }

  /** Over every run from the start, no path starts a transfer while one is outstanding. */
  lemma RunStartsOneAtATime(acts: seq<Action>)
    requires RunIn(Start(), acts, FairRun())
    ensures StartInv(After(Start(), acts, FairRun()))
    ensures OneAtATime(After(Start(), acts, FairRun()).hist.log)
  {
    OneAtATimeFrom(Start(), acts);
  }

  /** The end of a completion event clears the busy flag whatever happened meanwhile, so
      it starts over an outstanding transfer exactly when a callback has started one and
      there is something on the ring or to be put on it. */
  lemma FinishOverlaps(s: Ep, index: nat)
    requires s.ring.Indexable() && s.phase.Finishing? && s.phase.complete
    requires s.config.hasDesc && s.pullups && !s.config.kind.Isoc? && OneAtATime(s.hist.log)
    ensures OneAtATime(FinishStep(s, index).hist.log)
       <==> !Outstanding(s.hist.log) || Loaded(s.config, s.ring, true).queued == []
  {
    var ring := Loaded(s.config, s.ring, true);
    if ring.queued != [] {
      OneMore(s.hist.log, StartTransfer(ring.queued[0].startSlot));
    }
  }

  /** A disable whose callbacks do nothing leaves nothing listed. */
  lemma {:induction false} RemovedEmpties(s: Ep)
    requires s.ring.Indexable() && s.removing != []
    requires s.removing[|s.removing| - 1].RingPart? || s.ring.queued == []
    ensures var s' := Removed(s, []);
            && s'.ring.queued == [] && s'.ring.pending == []
            && !s'.config.hasDesc && s'.flags == NO_FLAGS.(cmdBusy := s'.flags.cmdBusy)
            && s'.phase == s.phase && s'.pullups == s.pullups
    decreases |s.ring.queued| + |s.ring.pending|
  {
    if GivesBack(s) {
      RemovedEmpties(RemoveStep(s));
    }
  }

  lemma DisableEmpties(s: Ep)
    requires s.flags.enabled && s.ring.Indexable()
    ensures var s' := EpDisable(s, []);
            && s'.ring.queued == [] && s'.ring.pending == []
            && !s'.flags.enabled && !s'.flags.busy && !s'.flags.xferPending
            && s'.phase == s.phase && s'.pullups == s.pullups
  {
    RemovedEmpties(BeginDisable(s));
  }

  /** A request queued on a freshly enabled bulk endpoint starts a transfer at once. */
  lemma FirstQueueStarts(s: Ep, c: Config, r: Request, index: nat)
    requires !s.flags.enabled && !s.flags.busy && s.pullups
    requires s.ring.queued == [] && s.ring.pending == []
    requires c.kind.Bulk? && r.own && Width(r) <= SLOTS
    ensures var s' := EpQueue(EpEnable(s, c), r, index).0;
            && s'.ring.Indexable() && s'.ring.queued != [] && s'.phase == s.phase && s'.pullups
            && s'.config == c.(hasDesc := true)
            && |s'.hist.log| > 0 && s'.hist.log[|s'.hist.log| - 1].StartTransfer?
  {
    var a := Accept(EpEnable(s, c), r);
    assert FreeSlots(a.ring) == SLOTS;
    PrepareFromGrows(a.config, a.ring, SLOTS);
  }

  /** That does happen when a callback disables and enables the endpoint and queues a
      request: two starts follow one another. */
  lemma ReEnableOverlaps(s: Ep, c: Config, r: Request, index: nat)
    requires s.phase == Finishing(true, false) && s.flags.enabled && s.pullups && s.ring.Indexable()
    requires c.kind.Bulk? && r.own && Width(r) <= SLOTS
    ensures var s3 := EpQueue(EpEnable(EpDisable(s, []), c), r, index).0;
            && s3.ring.Indexable() && s3.phase.Finishing?
            && !OneAtATime(FinishStep(s3, index).hist.log)
  {
    DisableEmpties(s);
    FirstQueueStarts(EpDisable(s, []), c, r, index);
    var s3 := EpQueue(EpEnable(EpDisable(s, []), c), r, index).0;
    var log := FinishStep(s3, index).hist.log;
    var n := |log|;
    assert log[n - 2].StartTransfer? && log[n - 1].StartTransfer?;
  }
}
