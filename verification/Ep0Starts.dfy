/**
 START TRANSFER on the control endpoint.  A restart forgets that an endpoint is busy
 without ending its transfer, so a transfer may be left with the controller, and another
 started over it; exactly when, is told here.
 */
module Ep0Starts {
  import opened Octets
  import opened Bounce
  import opened Ep0Model
  import opened Ep0Proofs

  /** What the driver takes for busy is what holds a transfer resource, and no transfer was
      ever started over another. */
  predicate Matched(d: Dev) {
    && d.pipe.busyOut == d.pipe.heldOut && d.pipe.busyIn == d.pipe.heldIn
    && !d.log.overlap
  }

  datatype Point = NoRestart | RestartOf(d: Dev)

  /** The state an action restarts the endpoint in, if it does: a halt, a setup callback
      that fails or is not made, a data event in the wrong direction once the data stage
      has been ended, an IN data stage that came up short, a test mode that is refused. */
  function RestartPoint(d: Dev, a: Action): Point
    requires Enabled(d, a)
  {
    match a
    case Completes(ep, c, ctrl, connected) => CompletionPoint(d.(pipe := d.pipe.Ended(ep)), ep, c, connected)
    case DataNotReady(ep) =>
      if d.ctl.DataEp() != ep then RestartOf(EndData(d, d.ctl.DataEp())) else NoRestart
    case StatusNotReady(ep) => NoRestart
    case GadgetQueues(r) => NoRestart
    case GadgetHalts => RestartOf(d)
    case Returns(ret) => if ret.Failed? then RestartOf(d.(gadget := d.gadget.(inSetup := false))) else NoRestart
    case CallbackReturns =>
      var n := |d.calls| - 1;
      if d.calls[n].AfterStatus? && d.calls[n].badTestMode then RestartOf(d.(calls := d.calls[..n])) else NoRestart
  }

  /** The same once the endpoint of a completion has been marked idle. */
  function CompletionPoint(d: Dev, ep: PhysEp, c: Completion, connected: bool): Point {
    match d.ctl.phase
    case SetupPhase => if connected then NoRestart else RestartOf(d)
    case DataPhase =>
      if d.list != [] && !c.setupPending && ep.In? && 0 < c.remaining <= d.list[0].length then RestartOf(ShortOf(d))
      else NoRestart
    case StatusPhase => if d.list == [] && c.badTestMode then RestartOf(d) else NoRestart
  }

  function ShortOf(d: Dev): Dev
    requires d.list != []
  {
    var d1 := d.(ctl := d.ctl.(next := NrdyStatus));
    if d.pipe.bounced && d.list[0].length > BOUNCE_SIZE then d1.(pipe := d1.pipe.(enqueue := 0)) else d1
  }

  /** That is where it restarts. */
  lemma RestartsThere(d: Dev, a: Action)
    requires Enabled(d, a) && RestartPoint(d, a).RestartOf?
    ensures Step(d, a) == Restart(RestartPoint(d, a).d)
  {
  }

  /** A restart while the controller still holds a transfer of either endpoint. */
  predicate LeavesTransfer(d: Dev, a: Action)
    requires Enabled(d, a)
  {
    RestartPoint(d, a).RestartOf? && (RestartPoint(d, a).d.pipe.heldOut || RestartPoint(d, a).d.pipe.heldIn)
  }

  /** Starting on an endpoint keeps the match. */
  lemma StartMatched(d: Dev, ep: PhysEp, kind: Kind, len: u32, slot: nat)
    requires Matched(d)
    ensures Matched(StartTrans(d, ep, kind, len, slot))
  {
  }

  /** A restart leaves matters in order exactly if nothing is held. */
  lemma RestartMatched(d: Dev)
    requires !d.log.overlap
    ensures Matched(Restart(d)) <==> !d.pipe.heldOut && !d.pipe.heldIn
  {
    var d1 := SetHalt(d.(pipe := d.pipe.(busyIn := false)), true, false).0;
    var d2 := d1.(pipe := d1.pipe.(busyOut := false, stall := false, xferPending := false),
                  ctl := d1.ctl.(delayed := false));
    OutStartOverlaps(Over(d2, Cut(d.ctl.threeStage, d.ctl.expectIn, d1.log.current)));
  }

  lemma OutStartOverlaps(d: Dev)
    requires !d.pipe.busyOut && !d.pipe.busyIn && !d.log.overlap
    ensures Matched(OutStart(d)) <==> !d.pipe.heldOut && !d.pipe.heldIn
  {
  }

  lemma DataMatched(d: Dev, r: Request)
    requires Matched(d)
    ensures Matched(DoData(d, r))
  {
    var ep := d.ctl.DataEp();
    var pipe := DoData(d, r).pipe;
    StartMatched(d.(pipe := d.pipe.(enqueue := pipe.enqueue, bounced := pipe.bounced)), ep, DATA, r.length,
                 d.pipe.Slot(ep));
  }

  lemma StatusMatched(d: Dev, ep: PhysEp)
    requires Matched(d)
    ensures Matched(DoStatus(d, ep))
  {
  }

  lemma QueueMatched(d: Dev, r: Request)
    requires Matched(d)
    ensures Matched(Queue(d, r))
  {
    if d.list == [] {
      ListedMatched(d.(list := [r], gadget := d.gadget.(asked := true),
                       log := d.log.(current := d.log.current.(queued := true))), r);
    }
  }

  lemma ListedMatched(d: Dev, r: Request)
    requires Matched(d)
    ensures Matched(Listed(d, r))
  {
    DataMatched(d, r);
    DataMatched(d.(ctl := d.ctl.(phase := DataPhase)), r);
    StatusMatched(d.(ctl := d.ctl.(delayed := false)), d.ctl.StatusEp());
  }

  lemma StatusNotReadyMatched(d: Dev, ep: PhysEp)
    requires Matched(d)
    ensures Matched(NotReadyStatus(d, ep))
  {
    var d1 := d.(ctl := d.ctl.(phase := StatusPhase));
    StatusMatched(d1, ep);
    StatusMatched(d1.(ctl := d1.ctl.(delayed := false)), ep);
  }

  lemma OutStartMatched(d: Dev)
    requires Matched(d)
    ensures Matched(OutStart(d))
  {
  }

  lemma CompletesMatched(d: Dev, ep: PhysEp, c: Completion, ctrl: Ctrl, connected: bool)
    requires Matched(d) && CompletionPoint(d.(pipe := d.pipe.Ended(ep)), ep, c, connected).NoRestart?
    ensures Matched(XferComplete(d, ep, c, ctrl, connected))
  {
    var d1 := d.(pipe := d.pipe.Ended(ep));
    match d.ctl.phase
    case SetupPhase =>
    case DataPhase => DataDoneMatched(d1, ep, c);
    case StatusPhase =>
      if d1.list == [] {
        FinishMatched(d1, false);
      }
  }

  lemma DataDoneMatched(d: Dev, ep: PhysEp, c: Completion)
    requires Matched(d) && d.ctl.phase.DataPhase? && CompletionPoint(d, ep, c, true).NoRestart?
    ensures Matched(CompleteData(d, ep, c))
  {
  }

  lemma FinishMatched(d: Dev, badTestMode: bool)
    requires Matched(d) && !badTestMode
    ensures Matched(FinishStatus(d, badTestMode))
  {
    OutStartMatched(d);
    OutStartMatched(Over(d, Completed(d.ctl.threeStage, d.ctl.expectIn, d.log.current)));
  }

  lemma CallReturnsMatched(d: Dev)
    requires Matched(d) && d.calls != [] && RestartPoint(d, CallbackReturns).NoRestart?
    ensures Matched(CallReturns(d))
  {
    var n := |d.calls| - 1;
    var d1 := d.(calls := d.calls[..n]);
    match d.calls[n]
    case AfterData(ep, r) =>
      StartMatched(d1.(ctl := d1.ctl.(next := Complete)), ep, DATA, 0, d1.pipe.Slot(ep));
    case AfterStatus(badTestMode) => FinishMatched(d1, badTestMode);
    case AfterRestart => OutStartMatched(d1);
  }

  /** From a state in order, a step leads to one exactly if it does not restart while the
      controller holds a transfer. */
  lemma StartsExactly(d: Dev, a: Action)
    requires Matched(d) && Enabled(d, a)
    ensures Matched(Step(d, a)) <==> !LeavesTransfer(d, a)
  {
    if RestartPoint(d, a).RestartOf? {
      RestartsThere(d, a);
      RestartMatched(RestartPoint(d, a).d);
    } else {
      match a
      case Completes(ep, c, ctrl, connected) => CompletesMatched(d, ep, c, ctrl, connected);
      case DataNotReady(ep) =>
      case StatusNotReady(ep) => StatusNotReadyMatched(d, ep);
      case GadgetQueues(r) => QueueMatched(d, r);
      case Returns(ret) =>
      case CallbackReturns => CallReturnsMatched(d);
    }
  }

  ghost function LeavingNone(): (Dev, Action) -> bool {
    (d, a) => Enabled(d, a) ==> !LeavesTransfer(d, a)
  }

  lemma {:induction false} MatchedFrom(d: Dev, acts: seq<Action>)
    requires Matched(d) && IsRun(d, acts, LeavingNone())
    ensures Matched(Run(d, acts, LeavingNone()))
    decreases |acts|
  {
    if acts != [] {
      StartsExactly(d, acts[0]);
      MatchedFrom(Step(d, acts[0]), acts[1..]);
    }
  }

  /** Over every run from the start without such a restart, at most one transfer is
      outstanding on each of the two physical endpoints, and it is one the driver knows. */
  lemma RunStartsOnce(maxPacket: PacketSize, acts: seq<Action>)
    requires IsRun(Start(maxPacket), acts, LeavingNone())
    ensures var d := Run(Start(maxPacket), acts, LeavingNone());
            !d.log.overlap && d.pipe.busyOut == d.pipe.heldOut && d.pipe.busyIn == d.pipe.heldIn
  {
    MatchedFrom(Start(maxPacket), acts);
  }

  ghost function LeavingNoneSparing(): (Dev, Action) -> bool {
    (d, a) => Spares(d, a) && (Enabled(d, a) ==> !LeavesTransfer(d, a))
  }

  lemma {:induction false} StagesFrom(d: Dev, acts: seq<Action>)
    requires Inv(d) && Matched(d) && IsRun(d, acts, LeavingNoneSparing())
    ensures Inv(Run(d, acts, LeavingNoneSparing()))
    decreases |acts|
  {
    if acts != [] {
      StepKeeps(d, acts[0]);
      StartsExactly(d, acts[0]);
      StagesFrom(Step(d, acts[0]), acts[1..]);
    }
  }

  /** In such runs nothing needs to be assumed of completions: the stages of every transfer
      are those of section 8.5.3 of USB 2.0. */
  lemma StagesWithoutLeftovers(maxPacket: PacketSize, acts: seq<Action>)
    requires IsRun(Start(maxPacket), acts, LeavingNoneSparing())
    ensures var d := Run(Start(maxPacket), acts, LeavingNoneSparing());
            && (forall i :: 0 <= i < |d.log.past| ==> Proper(d.log.past[i]))
            && (d.log.current.stages == [] || Part(d.ctl.threeStage, d.ctl.expectIn, d.log.current.stages))
            && !(d.pipe.busyOut && d.pipe.busyIn) && |d.list| <= 1
  {
    StagesFrom(Start(maxPacket), acts);
    InvIsPart(Run(Start(maxPacket), acts, LeavingNoneSparing()));
  }

  // ---------------------------------------------------------------- what is left behind

  /** A restart, and the return of the callback it may wait for. */
  function Restarted(d: Dev): Dev {
    var d1 := Restart(d);
    if d.list == [] then d1 else CallReturns(d1)
  }

  /** On OUT the SETUP stage is started over a transfer the controller holds there, at once
      or when the callback of the request given back returns; on IN a transfer it holds
      stays, unknown to the driver. */
  lemma RestartLeaves(d: Dev)
    requires !d.log.overlap
    ensures var d' := Restarted(d);
            && (d'.log.overlap <==> d.pipe.heldOut)
            && d'.pipe.heldIn == d.pipe.heldIn && !d'.pipe.busyIn
  {
    var d1 := SetHalt(d.(pipe := d.pipe.(busyIn := false)), true, false).0;
    var d2 := d1.(pipe := d1.pipe.(busyOut := false, stall := false, xferPending := false),
                  ctl := d1.ctl.(delayed := false));
    var cut := Cut(d.ctl.threeStage, d.ctl.expectIn, d1.log.current);
    if d.list == [] {
      ArmsOver(Over(d2, cut));
    } else {
      ArmsOver(Over(Giveback(d2), cut).(calls := d2.calls));
      assert (d2.calls + [AfterRestart])[..|d2.calls|] == d2.calls;
    }
  }

  lemma ArmsOver(d: Dev)
    requires d.pipe.Quiet() && !d.log.overlap
    ensures OutStart(d).log.overlap == d.pipe.heldOut
    ensures OutStart(d).pipe.heldIn == d.pipe.heldIn && !OutStart(d).pipe.busyIn
  {
  }

  /** A data event in the wrong direction ends only the data stage: during a status stage on
      OUT the SETUP stage is started over that. */
  lemma WrongDirectionOverlaps(d: Dev)
    requires Matched(d) && d.ctl.expectIn && d.ctl.phase.StatusPhase? && d.pipe.busyOut
    ensures NotReadyData(d, Out) == Restart(EndData(d, In)) && Restarted(EndData(d, In)).log.overlap
  {
    RestartLeaves(EndData(d, In));
  }

  /** The shortest run there: a halt before anything has come from the host. */
  lemma HaltOverlapsByRun(maxPacket: PacketSize)
    ensures exists d :: Leads(Start(maxPacket), [GadgetHalts], d) && d.log.overlap
  {
    var acts := [GadgetHalts];
    var d1 := LeadsNext(Start(maxPacket), acts, 0, Start(maxPacket));
    assert acts[..1] == acts;
  }
}
