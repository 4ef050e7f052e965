/**
 Four more facts about the control endpoint: which way the status stage goes, where its
 TRBs are written, when a stall is really sent, and the delayed status stage.
 */
module Ep0Details {
  import opened Octets
  import opened Bounce
  import opened Ep0Model
  import opened Ep0Proofs
  import Composite

  // ---------------------------------------------------------------- the status stage's direction

  /** Status stages go the opposite way to the data stage, IN if there is none. */
  ghost predicate Opposite(expectIn: bool, stages: seq<Stage>) {
    forall i :: 0 <= i < |stages| && (stages[i].kind.STATUS2? || stages[i].kind.STATUS3?) ==>
      stages[i].ep == if expectIn then Out else In
  }

  ghost predicate AllOpposite(d: Dev) {
    && Opposite(d.ctl.expectIn, d.log.current.stages)
    && forall i :: 0 <= i < |d.log.past| ==> Opposite(d.log.past[i].expectIn, d.log.past[i].story.stages)
  }

  /** The controller asks for the status stage on the endpoint the host will use. */
  predicate HostConforms(d: Dev, a: Action) {
    a.StatusNotReady? && d.ctl.next == NrdyStatus ==> a.ep == d.ctl.StatusEp()
  }

  lemma StartKeepsOpposite(d: Dev, ep: PhysEp, kind: Kind, len: u32, slot: nat)
    requires AllOpposite(d)
    requires kind.STATUS2? || kind.STATUS3? ==> ep == d.ctl.StatusEp()
    ensures AllOpposite(StartTrans(d, ep, kind, len, slot))
  {
  }

  lemma OverKeepsOpposite(d: Dev, t: Transfer)
    requires AllOpposite(d) && Opposite(t.expectIn, t.story.stages)
    ensures AllOpposite(Over(d, t))
  {
  }

  lemma OutStartKeepsOpposite(d: Dev)
    requires AllOpposite(d)
    ensures AllOpposite(OutStart(d))
  {
    StartKeepsOpposite(d.(ctl := d.ctl.(phase := SetupPhase)), Out, SETUP, 8, d.pipe.Slot(Out));
  }

  lemma RestartKeepsOpposite(d: Dev)
    requires AllOpposite(d)
    ensures AllOpposite(Restart(d))
  {
    var d1 := SetHalt(d.(pipe := d.pipe.(busyIn := false)), true, false).0;
    var d2 := d1.(pipe := d1.pipe.(busyOut := false, stall := false, xferPending := false),
                  ctl := d1.ctl.(delayed := false));
    var cut := Cut(d.ctl.threeStage, d.ctl.expectIn, d1.log.current);
    OverKeepsOpposite(d2, cut);
    OverKeepsOpposite(Giveback(d2), cut);
    OutStartKeepsOpposite(Over(d2, cut));
  }

  lemma FinishDataKeepsOpposite(d: Dev, ep: PhysEp, r: Request)
    requires AllOpposite(d)
    ensures AllOpposite(FinishData(d, ep, r))
  {
    StartKeepsOpposite(d.(ctl := d.ctl.(next := Complete)), ep, DATA, 0, d.pipe.Slot(ep));
  }

  lemma DataKeepsOpposite(d: Dev, ep: PhysEp, c: Completion)
    requires AllOpposite(d)
    ensures AllOpposite(CompleteData(d, ep, c))
  {
    var d1 := d.(ctl := d.ctl.(next := NrdyStatus));
    if d.list != [] && !c.setupPending {
      var d2 := if d.pipe.bounced && d.list[0].length > BOUNCE_SIZE then d1.(pipe := d1.pipe.(enqueue := 0)) else d1;
      RestartKeepsOpposite(d2);
    }
  }

  lemma FinishStatusKeepsOpposite(d: Dev, badTestMode: bool)
    requires AllOpposite(d)
    ensures AllOpposite(FinishStatus(d, badTestMode))
  {
    if badTestMode {
      RestartKeepsOpposite(d);
    } else {
      var t := Completed(d.ctl.threeStage, d.ctl.expectIn, d.log.current);
      OverKeepsOpposite(d, t);
      OutStartKeepsOpposite(Over(d, t));
      OutStartKeepsOpposite(d);
    }
  }

  lemma StatusKeepsOpposite(d: Dev, c: Completion)
    requires AllOpposite(d)
    ensures AllOpposite(CompleteStatus(d, c))
  {
    if d.list == [] {
      FinishStatusKeepsOpposite(d, c.badTestMode);
    }
  }

  lemma CallReturnsKeepsOpposite(d: Dev)
    requires AllOpposite(d) && d.calls != []
    ensures AllOpposite(CallReturns(d))
  {
    var n := |d.calls| - 1;
    var d1 := d.(calls := d.calls[..n]);
    match d.calls[n]
    case AfterData(ep, r) => FinishDataKeepsOpposite(d1, ep, r);
    case AfterStatus(badTestMode) => FinishStatusKeepsOpposite(d1, badTestMode);
    case AfterRestart => OutStartKeepsOpposite(d1);
  }

  lemma SetupKeepsOpposite(d: Dev, ctrl: Ctrl, connected: bool)
    requires AllOpposite(d) && |d.log.current.stages| == 1 && IsSetup(d.log.current.stages[0])
    ensures AllOpposite(InspectSetup(d, ctrl, connected))
  {
    RestartKeepsOpposite(d);
  }

  lemma CompletesKeepsOpposite(d: Dev, ep: PhysEp, c: Completion, ctrl: Ctrl, connected: bool)
    requires Now(d) && AllOpposite(d) && d.pipe.Busy(ep)
    ensures AllOpposite(XferComplete(d, ep, c, ctrl, connected))
  {
    var d1 := d.(pipe := d.pipe.Ended(ep));
    match d.ctl.phase
    case SetupPhase => SetupKeepsOpposite(d1, ctrl, connected);
    case DataPhase => DataKeepsOpposite(d1, ep, c);
    case StatusPhase => StatusKeepsOpposite(d1, c);
  }

  lemma NotReadyKeepsOpposite(d: Dev, ep: PhysEp)
    requires AllOpposite(d)
    ensures AllOpposite(NotReadyData(d, ep))
  {
    RestartKeepsOpposite(EndData(d, d.ctl.DataEp()));
  }

  lemma StatusNotReadyKeepsOpposite(d: Dev, ep: PhysEp)
    requires AllOpposite(d) && (d.ctl.next == NrdyStatus ==> ep == d.ctl.StatusEp())
    ensures AllOpposite(NotReadyStatus(d, ep))
  {
  }

  lemma DataStageKeepsOpposite(d: Dev, r: Request)
    requires AllOpposite(d)
    ensures AllOpposite(DoData(d, r))
  {
    var ep, pipe := d.ctl.DataEp(), DoData(d, r).pipe;
    StartKeepsOpposite(d.(pipe := d.pipe.(enqueue := pipe.enqueue, bounced := pipe.bounced)), ep, DATA, r.length,
                       d.pipe.Slot(ep));
  }

  lemma QueueKeepsOpposite(d: Dev, r: Request)
    requires AllOpposite(d)
    ensures AllOpposite(Queue(d, r))
  {
    if d.list == [] {
      ListedKeepsOpposite(d.(list := [r], gadget := d.gadget.(asked := true),
                             log := d.log.(current := d.log.current.(queued := true))), r);
    }
  }

  lemma ListedKeepsOpposite(d: Dev, r: Request)
    requires AllOpposite(d)
    ensures AllOpposite(Listed(d, r))
  {
    DataStageKeepsOpposite(d, r);
    DataStageKeepsOpposite(d.(ctl := d.ctl.(phase := DataPhase)), r);
    var d1 := d.(ctl := d.ctl.(delayed := false));
    StartKeepsOpposite(d1, d.ctl.StatusEp(), if d.ctl.threeStage then STATUS3 else STATUS2, 0,
                       d.pipe.Slot(d.ctl.StatusEp()));
  }

  lemma StepKeepsOpposite(d: Dev, a: Action)
    requires Inv(d) && AllOpposite(d) && Enabled(d, a) && HostConforms(d, a) && Own(d, a)
    ensures AllOpposite(Step(d, a))
  {
    match a
    case Completes(ep, c, ctrl, connected) => CompletesKeepsOpposite(d, ep, c, ctrl, connected);
    case DataNotReady(ep) => NotReadyKeepsOpposite(d, ep);
    case StatusNotReady(ep) => StatusNotReadyKeepsOpposite(d, ep);
    case GadgetQueues(r) => QueueKeepsOpposite(d, r);
    case GadgetHalts => RestartKeepsOpposite(d);
    case Returns(ret) => RestartKeepsOpposite(d.(gadget := d.gadget.(inSetup := false)));
    case CallbackReturns => CallReturnsKeepsOpposite(d);
  }

  ghost function Conforming(): (Dev, Action) -> bool {
    (d, a) => HostConforms(d, a) && Spares(d, a) && Own(d, a)
  }

  lemma {:induction false} OppositeFrom(d: Dev, acts: seq<Action>)
    requires Inv(d) && AllOpposite(d) && IsRun(d, acts, Conforming())
    ensures AllOpposite(Run(d, acts, Conforming()))
    decreases |acts|
  {
    if acts != [] {
      StepKeeps(d, acts[0]);
      StepKeepsOpposite(d, acts[0]);
      OppositeFrom(Step(d, acts[0]), acts[1..]);
    }
  }

  /** With a conforming host, every status stage of every run from the start goes the right
      way, the delayed ones included, for which the driver itself picks the endpoint. */
  lemma RunKeepsOpposite(maxPacket: PacketSize, acts: seq<Action>)
    requires IsRun(Start(maxPacket), acts, Conforming())
    ensures AllOpposite(Run(Start(maxPacket), acts, Conforming()))
  {
    OppositeFrom(Start(maxPacket), acts);
  }

  // ---------------------------------------------------------------- where TRBs are written

  /** A long unaligned OUT data stage is on its way: two TRBs, the second in slot 1. */
  predicate InChain(d: Dev) {
    && d.ctl.phase.DataPhase? && !d.ctl.expectIn && d.pipe.busyOut
    && d.list != [] && d.list[0].length > BOUNCE_SIZE && Unaligned(d.maxPacket, d.list[0].length)
  }

  ghost predicate AtZero(stages: seq<Stage>) {
    forall i :: 0 <= i < |stages| ==> stages[i].slot == 0
  }

  /** Every stage starts at slot 0, where the controller reads. */
  ghost predicate SlotInv(d: Dev) {
    && d.pipe.enqueue == (if InChain(d) then 1 else 0)
    && (InChain(d) ==> d.pipe.bounced)
    && AtZero(d.log.current.stages)
    && forall i :: 0 <= i < |d.log.past| ==> AtZero(d.log.past[i].story.stages)
  }

  /** The action does not cut a two-TRB data stage short. */
  predicate SparesChain(d: Dev, a: Action) {
    InChain(d) ==>
      match a
      case Completes(ep, c, ctrl, connected) => !c.setupPending
      case DataNotReady(ep) => ep == d.ctl.DataEp()
      case StatusNotReady(ep) => true
      case GadgetQueues(r) => true
      case GadgetHalts => false
      case Returns(ret) => !ret.Failed?
      case CallbackReturns => true
  }

  ghost predicate PastAtZero(d: Dev) {
    forall i :: 0 <= i < |d.log.past| ==> AtZero(d.log.past[i].story.stages)
  }

  lemma OverAtZero(d: Dev, t: Transfer)
    requires d.pipe.enqueue == 0 && AtZero(t.story.stages) && PastAtZero(d) && d.list == []
    ensures SlotInv(Over(d, t))
  {
  }

  lemma OutStartAtZero(d: Dev)
    requires SlotInv(d) && d.list == []
    ensures SlotInv(OutStart(d))
  {
  }

  lemma RestartAtZero(d: Dev)
    requires d.pipe.enqueue == 0 && AtZero(d.log.current.stages) && PastAtZero(d) && |d.list| <= 1
    ensures SlotInv(Restart(d))
  {
    var d1 := SetHalt(d.(pipe := d.pipe.(busyIn := false)), true, false).0;
    var d2 := d1.(pipe := d1.pipe.(busyOut := false, stall := false, xferPending := false),
                  ctl := d1.ctl.(delayed := false));
    var cut := Cut(d.ctl.threeStage, d.ctl.expectIn, d1.log.current);
    if d.list == [] {
      OverAtZero(d2, cut);
      OutStartAtZero(Over(d2, cut));
    } else {
      OverAtZero(Giveback(d2), cut);
    }
  }

  lemma DataAtZero(d: Dev, ep: PhysEp, c: Completion)
    requires Now(d) && SlotInv(d) && d.pipe.Busy(ep) && d.ctl.phase.DataPhase? && (InChain(d) ==> !c.setupPending)
    ensures SlotInv(CompleteData(d.(pipe := d.pipe.Ended(ep)), ep, c))
  {
    var d1 := d.(pipe := d.pipe.Ended(ep), ctl := d.ctl.(next := NrdyStatus));
    if d.list != [] && !c.setupPending {
      var d2 := if d.pipe.bounced && d.list[0].length > BOUNCE_SIZE then d1.(pipe := d1.pipe.(enqueue := 0)) else d1;
      assert d2.pipe.enqueue == 0;
      RestartAtZero(d2);
    }
  }

  lemma FinishStatusAtZero(d: Dev, badTestMode: bool)
    requires d.pipe.enqueue == 0 && AtZero(d.log.current.stages) && PastAtZero(d) && d.list == []
    ensures SlotInv(FinishStatus(d, badTestMode))
  {
    if badTestMode {
      RestartAtZero(d);
    } else {
      var t := Completed(d.ctl.threeStage, d.ctl.expectIn, d.log.current);
      OverAtZero(d, t);
      OutStartAtZero(Over(d, t));
      OutStartAtZero(d);
    }
  }

  lemma StatusAtZero(d: Dev, c: Completion)
    requires d.pipe.enqueue == 0 && AtZero(d.log.current.stages) && PastAtZero(d) && |d.list| <= 1
    ensures SlotInv(CompleteStatus(d, c))
  {
    if d.list == [] {
      FinishStatusAtZero(d, c.badTestMode);
    }
  }

  lemma CompletesAtZero(d: Dev, ep: PhysEp, c: Completion, ctrl: Ctrl, connected: bool)
    requires Now(d) && SlotInv(d) && d.pipe.Busy(ep) && (InChain(d) ==> !c.setupPending)
    ensures SlotInv(XferComplete(d, ep, c, ctrl, connected))
  {
    var d1 := d.(pipe := d.pipe.Ended(ep));
    match d.ctl.phase
    case SetupPhase => RestartAtZero(d1);
    case DataPhase => DataAtZero(d, ep, c);
    case StatusPhase => StatusAtZero(d1, c);
  }

  lemma CallReturnsAtZero(d: Dev)
    requires SlotInv(d) && d.list == [] && d.calls != []
    ensures SlotInv(CallReturns(d))
  {
    var n := |d.calls| - 1;
    var d1 := d.(calls := d.calls[..n]);
    assert SlotInv(d1);
    match d.calls[n]
    case AfterData(ep, r) =>
    case AfterStatus(badTestMode) => FinishStatusAtZero(d1, badTestMode);
    case AfterRestart => OutStartAtZero(d1);
  }

  lemma QueueAtZero(d: Dev, r: Request)
    requires Now(d) && SlotInv(d) && Serving(d) && !d.gadget.asked
    ensures SlotInv(Queue(d, r))
  {
  }

  lemma StatusNotReadyAtZero(d: Dev, ep: PhysEp)
    requires Now(d) && SlotInv(d)
    ensures SlotInv(NotReadyStatus(d, ep))
  {
  }

  lemma StepAtZero(d: Dev, a: Action)
    requires Inv(d) && SlotInv(d) && Enabled(d, a) && Own(d, a) && SparesChain(d, a)
    ensures SlotInv(Step(d, a))
  {
    InvIsPart(d);
    match a
    case Completes(ep, c, ctrl, connected) => CompletesAtZero(d, ep, c, ctrl, connected);
    case DataNotReady(ep) =>
      if d.ctl.DataEp() != ep {
        RestartAtZero(EndData(d, d.ctl.DataEp()));
      }
    case StatusNotReady(ep) => StatusNotReadyAtZero(d, ep);
    case GadgetQueues(r) => QueueAtZero(d, r);
    case GadgetHalts => RestartAtZero(d);
    case Returns(ret) =>
      if ret.Failed? {
        RestartAtZero(d.(gadget := d.gadget.(inSetup := false)));
      }
    case CallbackReturns =>
      WaitingRestartable(d);
      CallReturnsAtZero(d);
  }

  lemma RestartMisplaces(d: Dev)
    requires d.pipe.enqueue == 1 && d.list != []
    ensures var d' := Restart(d);
            && d'.pipe.enqueue == 1 && !InChain(d') && d'.calls != []
            && CallReturns(d').log.current.stages == [Stage(SETUP, Out, 8, 1)]
  {
    assert Restart(d).pipe.Quiet() && Restart(d).calls == d.calls + [AfterRestart];
  }

  /** Cutting a two-TRB stage short leaves the TRB index at 1: the next stage is written
      where the controller will not look. */
  lemma CutChainMisplaces(d: Dev, a: Action)
    requires Inv(d) && SlotInv(d) && Enabled(d, a) && Own(d, a) && !SparesChain(d, a)
    ensures Step(d, a).pipe.enqueue == 1 && !InChain(Step(d, a))
    ensures !a.Completes? ==>
              Step(d, a).calls != [] && CallReturns(Step(d, a)).log.current.stages == [Stage(SETUP, Out, 8, 1)]
  {
    assert d.calls == [] && d.pipe.enqueue == 1;
    if a.DataNotReady? {
      RestartMisplaces(EndData(d, d.ctl.DataEp()));
    } else if a.GadgetHalts? {
      RestartMisplaces(d);
    } else if a.Returns? {
      RestartMisplaces(d.(gadget := d.gadget.(inSetup := false)));
    }
  }

  /** So TRBs stay where the controller reads them exactly as long as no two-TRB data
      stage is cut short. */
  lemma SlotsExact(d: Dev, a: Action)
    requires Inv(d) && SlotInv(d) && Enabled(d, a) && Own(d, a)
    ensures SlotInv(Step(d, a)) <==> SparesChain(d, a)
  {
    if SparesChain(d, a) {
      StepAtZero(d, a);
    } else {
      CutChainMisplaces(d, a);
    }
  }

  ghost function Sparing(): (Dev, Action) -> bool {
    (d, a) => SparesChain(d, a) && Spares(d, a) && Own(d, a)
  }

  lemma {:induction false} AtZeroFrom(d: Dev, acts: seq<Action>)
    requires Inv(d) && SlotInv(d) && IsRun(d, acts, Sparing())
    ensures SlotInv(Run(d, acts, Sparing()))
    decreases |acts|
  {
    if acts != [] {
      StepKeeps(d, acts[0]);
      StepAtZero(d, acts[0]);
      AtZeroFrom(Step(d, acts[0]), acts[1..]);
    }
  }

  /** Over every run from the start that does not. */
  lemma RunAtZero(maxPacket: PacketSize, acts: seq<Action>)
    requires IsRun(Start(maxPacket), acts, Sparing())
    ensures var d := Run(Start(maxPacket), acts, Sparing());
            AtZero(d.log.current.stages) && forall i :: 0 <= i < |d.log.past| ==> AtZero(d.log.past[i].story.stages)
  {
    AtZeroFrom(Start(maxPacket), acts);
  }

  // ---------------------------------------------------------------- refused stalls and ended transfers

  /** An IN data stage that comes up short is cut, but the stall is refused: its request is
      still listed when it is asked for. */
  lemma ShortInIsNotStalled(d: Dev, c: Completion, ctrl: Ctrl)
    requires Now(d) && d.calls == [] && !d.gadget.inSetup
    requires d.ctl.phase.DataPhase? && d.ctl.expectIn && d.pipe.busyIn
    requires |d.log.current.stages| == 2 && 0 < c.remaining <= d.list[0].length && !c.setupPending
    ensures var d0 := d.(pipe := d.pipe.Ended(In), ctl := d.ctl.(next := NrdyStatus));
            SetHalt(d0, true, false).1 == EAGAIN
    ensures Step(d, Completes(In, c, ctrl, true)).log.past == d.log.past + [Cut(true, true, d.log.current)]
    ensures !d.log.current.stalled && d.log.current.queued && !d.log.current.returned
  {
  }

  /** A restart records the transfer it cuts, as it was when the stall was asked for. */
  lemma RestartRecords(d: Dev)
    requires d.log.current.stages != []
    ensures Restart(d).log.past
         == d.log.past + [Cut(d.ctl.threeStage, d.ctl.expectIn,
                              SetHalt(d.(pipe := d.pipe.(busyIn := false)), true, false).0.log.current)]
    ensures Restart(d).pipe.heldIn == d.pipe.heldIn
  {
  }

  /** A data stage under way when the host turns to the other direction is ended. */
  lemma WrongDirectionEnds(d: Dev, ep: PhysEp)
    requires Now(d) && d.ctl.phase.DataPhase? && ep != d.ctl.DataEp() && d.calls == []
    ensures var story := d.log.current;
            var past := NotReadyData(d, ep).log.past;
            && |past| == |d.log.past| + 1
            && past[|d.log.past|].Cut? && past[|d.log.past|].story.stages == story.stages
            && (d.pipe.Busy(d.ctl.DataEp()) ==> past[|d.log.past|].story.ended)
    ensures d.ctl.expectIn ==> !NotReadyData(d, ep).pipe.heldIn
  {
    RestartRecords(EndData(d, d.ctl.DataEp()));
  }

  lemma StartUnmarks(d: Dev, ep: PhysEp, kind: Kind, len: u32, slot: nat)
    ensures StartTrans(d, ep, kind, len, slot).pipe.stall == d.pipe.stall
  {
  }

  lemma GivebackUnmarks(d: Dev)
    ensures Giveback(d).pipe.stall == d.pipe.stall
  {
  }

  /** A restart forgets the stall it asked for, so no step leaves the mark behind. */
  lemma DataUnmarks(d: Dev, ep: PhysEp, c: Completion)
    requires !d.pipe.stall
    ensures !CompleteData(d, ep, c).pipe.stall
  {
    var d1 := d.(ctl := d.ctl.(next := NrdyStatus));
    if d.list == [] {
      assert CompleteData(d, ep, c) == d1;
    } else if c.setupPending {
      GivebackUnmarks(d1);
    } else {
      var d2 := if d.pipe.bounced && d.list[0].length > BOUNCE_SIZE then d1.(pipe := d1.pipe.(enqueue := 0)) else d1;
      GivebackUnmarks(d2);
      if ep.In? && 0 < c.remaining <= d.list[0].length {
        assert CompleteData(d, ep, c) == Restart(d2);
      } else {
        assert CompleteData(d, ep, c) == DataDone(d2, ep, d.list[0]);
      }
    }
  }

  lemma FinishStatusUnmarks(d: Dev, badTestMode: bool)
    requires !d.pipe.stall
    ensures !FinishStatus(d, badTestMode).pipe.stall
  {
    if !badTestMode {
      assert !OutStart(d).pipe.stall;
    }
  }

  lemma CompletesUnmarks(d: Dev, ep: PhysEp, c: Completion, ctrl: Ctrl, connected: bool)
    requires !d.pipe.stall
    ensures !XferComplete(d, ep, c, ctrl, connected).pipe.stall
  {
    var d1 := d.(pipe := d.pipe.Ended(ep));
    if d.ctl.phase.DataPhase? {
      DataUnmarks(d1, ep, c);
    } else if d.ctl.phase.StatusPhase? {
      FinishStatusUnmarks(d1, c.badTestMode);
    }
  }

  lemma CallUnmarks(d: Dev)
    requires !d.pipe.stall && d.calls != []
    ensures !CallReturns(d).pipe.stall
  {
    var n := |d.calls| - 1;
    if d.calls[n].AfterStatus? {
      FinishStatusUnmarks(d.(calls := d.calls[..n]), d.calls[n].badTestMode);
    }
  }

  lemma StagesUnmark(d: Dev, r: Request, ep: PhysEp)
    ensures DoData(d, r).pipe.stall == d.pipe.stall && DoStatus(d, ep).pipe.stall == d.pipe.stall
  {
  }

  lemma ListedUnmarks(d: Dev, r: Request)
    requires !d.pipe.stall
    ensures !Listed(d, r).pipe.stall
  {
    var d1 := d.(ctl := d.ctl.(delayed := false));
    StagesUnmark(d, r, Out);
    StagesUnmark(d1, r, d.ctl.StatusEp());
    StagesUnmark(d.(ctl := d.ctl.(phase := DataPhase)), r, Out);
  }

  lemma QueueUnmarks(d: Dev, r: Request)
    requires !d.pipe.stall
    ensures !Queue(d, r).pipe.stall
  {
    ListedUnmarks(d.(list := [r], gadget := d.gadget.(asked := true),
                     log := d.log.(current := d.log.current.(queued := true))), r);
  }

  lemma DataEventUnmarks(d: Dev, ep: PhysEp)
    requires !d.pipe.stall
    ensures !NotReadyData(d, ep).pipe.stall
  {
    if d.ctl.DataEp() != ep {
      assert NotReadyData(d, ep) == Restart(EndData(d, d.ctl.DataEp()));
    }
  }

  lemma StatusEventUnmarks(d: Dev, ep: PhysEp)
    requires !d.pipe.stall
    ensures !NotReadyStatus(d, ep).pipe.stall
  {
    var d1 := d.(ctl := d.ctl.(phase := StatusPhase));
    var kind := if d.ctl.threeStage then STATUS3 else STATUS2;
    StartUnmarks(d1, ep, kind, 0, d1.pipe.Slot(ep));
    StartUnmarks(d1.(ctl := d1.ctl.(delayed := false)), ep, kind, 0, d1.pipe.Slot(ep));
  }

  lemma StepUnmarks(d: Dev, a: Action)
    requires Enabled(d, a) && !d.pipe.stall
    ensures !Step(d, a).pipe.stall
  {
    match a
    case Completes(ep, c, ctrl, connected) => CompletesUnmarks(d, ep, c, ctrl, connected);
    case DataNotReady(ep) => DataEventUnmarks(d, ep);
    case StatusNotReady(ep) => StatusEventUnmarks(d, ep);
    case GadgetQueues(r) => QueueUnmarks(d, r);
    case GadgetHalts =>
    case Returns(ret) =>
    case CallbackReturns => CallUnmarks(d);
  }

  lemma {:induction false} UnmarkedFrom(d: Dev, acts: seq<Action>)
    requires !d.pipe.stall && IsRun(d, acts, Anyhow())
    ensures !Run(d, acts, Anyhow()).pipe.stall
    decreases |acts|
  {
    if acts != [] {
      StepUnmarks(d, acts[0]);
      UnmarkedFrom(Step(d, acts[0]), acts[1..]);
    }
  }

  /** Over every run from the start, endpoint zero is never left marked as stalled: the stall is
      over as far as the driver is concerned with the restart it is asked for in. */
  lemma RunUnmarked(maxPacket: PacketSize, acts: seq<Action>)
    requires IsRun(Start(maxPacket), acts, Anyhow())
    ensures !Run(Start(maxPacket), acts, Anyhow()).pipe.stall
  {
    UnmarkedFrom(Start(maxPacket), acts);
  }

  // ---------------------------------------------------------------- delayed status

  /** The control endpoint, and the composite layer with its count of functions that
      still owe a continue call. */
  datatype System = System(dev: Dev, cdev: Composite.Cdev)

  datatype Move = Continue | SetupReturn | StatusEvent(ep: PhysEp)

  /** A continue call: the last one owed queues an empty status request. */
  function Continued(s: System): System {
    var (cdev, queues) := Composite.SetupContinue(s.cdev);
    System(if queues then Queue(s.dev, Request(0, 0, false)) else s.dev, cdev)
  }

  function Moved(s: System, m: Move): System {
    match m
    case Continue => Continued(s)
    case SetupReturn => s.(dev := SetupReturns(s.dev, DelayedStatus))
    case StatusEvent(ep) => s.(dev := NotReadyStatus(s.dev, ep))
  }

  /** The callback returns once; events are handled only after that. */
  predicate CanMove(s: System, m: Move) {
    match m
    case Continue => true
    case SetupReturn => s.dev.gadget.inSetup
    case StatusEvent(ep) => !s.dev.gadget.inSetup
  }

  predicate AreMoves(s: System, ms: seq<Move>)
    decreases |ms|
  {
    ms != [] ==> CanMove(s, ms[0]) && AreMoves(Moved(s, ms[0]), ms[1..])
  }

  function AfterMoves(s: System, ms: seq<Move>): System
    decreases |ms|
  {
    if ms == [] then s else AfterMoves(Moved(s, ms[0]), ms[1..])
  }

  function Continues(ms: seq<Move>): nat {
    if ms == [] then 0 else (if ms[0].Continue? then 1 else 0) + Continues(ms[1..])
  }

  function Returned(ms: seq<Move>): bool {
    ms != [] && (ms[0].SetupReturn? || Returned(ms[1..]))
  }

  function Asked(ms: seq<Move>): bool {
    ms != [] && (ms[0].StatusEvent? || Asked(ms[1..]))
  }

  /** The gadget driver is being asked about a SETUP without a data stage. */
  predicate InTwoStageSetup(d: Dev) {
    && d.ctl == Control(SetupPhase, NrdyStatus, false, false, false)
    && d.pipe.Quiet() && !d.pipe.xferPending && d.list == []
    && d.gadget == Gadget(true, false)
    && |d.log.current.stages| == 1 && IsSetup(d.log.current.stages[0])
  }

  /** A request queued while another is listed is refused: it changes nothing. */
  lemma SecondIsRefused(d: Dev, r: Request, r2: Request)
    ensures Queue(Queue(d, r), r2) == Queue(d, r)
    ensures d.list == [] ==> Queue(d, r).list == [r]
  {
  }

  /** Where the transfer stands after c continue calls, a return or not, and a status
      event or not. */
  predicate Stands(s: System, setup: Stage, k: nat, c: nat, returned: bool, asked: bool) {
    var now := s.dev.log.current.stages;
    && s.cdev.delayedStatus == (if c >= k then 0 else k - c)
    && !s.dev.ctl.threeStage && !s.dev.ctl.expectIn && !s.dev.pipe.xferPending
    && s.dev.gadget.inSetup == !returned
    && (asked ==> returned)
    && (if c >= k then |s.dev.list| == 1 else s.dev.list == [])
    && (if asked && c >= k then
          |now| == 2 && now[0] == setup && now[1].kind.STATUS2? && s.dev.ctl.next == Complete && !s.dev.ctl.delayed
        else
          && now == [setup] && s.dev.pipe.Quiet() && s.dev.ctl.next == NrdyStatus
          && s.dev.ctl.phase == (if asked then StatusPhase else SetupPhase)
          && (s.dev.ctl.delayed ==> returned)
          && (asked ==> s.dev.ctl.delayed)
          && (c < k && returned ==> s.dev.ctl.delayed))
  }

  lemma MoveStands(s: System, m: Move, setup: Stage, k: nat, c: nat, returned: bool, asked: bool)
    requires k >= 1 && Stands(s, setup, k, c, returned, asked) && CanMove(s, m)
    ensures Stands(Moved(s, m), setup, k, c + (if m.Continue? then 1 else 0),
                   returned || m.SetupReturn?, asked || m.StatusEvent?)
  {
  }

  lemma {:induction false} MovesStand(s: System, ms: seq<Move>, setup: Stage, k: nat, c: nat, returned: bool,
                                      asked: bool)
    requires k >= 1 && Stands(s, setup, k, c, returned, asked) && AreMoves(s, ms)
    ensures Stands(AfterMoves(s, ms), setup, k, c + Continues(ms), returned || Returned(ms), asked || Asked(ms))
    decreases |ms|
  {
    if ms != [] {
      var m := ms[0];
      MoveStands(s, m, setup, k, c, returned, asked);
      MovesStand(Moved(s, m), ms[1..], setup, k, c + (if m.Continue? then 1 else 0),
                 returned || m.SetupReturn?, asked || m.StatusEvent?);
    }
  }

  /** Whatever the order of the continue calls, the return of the setup callback and the
      status event: the status request is queued exactly by the k-th continue call, and
      exactly one status stage is started, exactly once all three have happened. */
  lemma DelayedStatusOnce(s: System, k: nat, ms: seq<Move>)
    requires InTwoStageSetup(s.dev) && s.cdev.delayedStatus == k >= 1 && AreMoves(s, ms)
    ensures var s' := AfterMoves(s, ms);
            var now := s'.dev.log.current.stages;
            && (s'.dev.list != [] <==> Continues(ms) >= k)
            && (if Continues(ms) >= k && Asked(ms)
                then |now| == 2 && now[..1] == s.dev.log.current.stages && now[1].kind.STATUS2?
                else now == s.dev.log.current.stages)
            && (Asked(ms) ==> Returned(ms))
  {
    MovesStand(s, ms, s.dev.log.current.stages[0], k, 0, false, false);
  }

  /** The whole of a SET_CONFIGURATION whose functions take the new configuration, some of
      them asking for a delay: the host's request is answered by exactly one status stage,
      started once every function that asked has continued. */
  lemma SwitchStatusOnce(dev: Dev, cdev: Composite.Cdev, config: nat, answers: seq<int>, ms: seq<Move>)
    requires InTwoStageSetup(dev)
    requires Composite.Inv(cdev) && |answers| == Composite.MAX_CONFIG_INTERFACES && config < |cdev.configs|
    requires !Composite.AlreadyActive(cdev, cdev.configs[config].value)
    requires forall i :: 0 <= i < cdev.configs[config].nextInterfaceId ==> answers[i] >= 0
    requires Composite.Delays(answers, cdev.configs[config].nextInterfaceId) >= 1
    ensures var (cdev', ret) := Composite.SetConfig(cdev, cdev.configs[config].value, answers);
            var k := Composite.Delays(answers, cdev.configs[config].nextInterfaceId);
            && ret == Composite.DELAYED_STATUS
            && (AreMoves(System(dev, cdev'), ms) ==>
                  var s := AfterMoves(System(dev, cdev'), ms);
                  && (s.dev.list != [] <==> Continues(ms) >= k)
                  && (if Continues(ms) >= k && Asked(ms)
                      then |s.dev.log.current.stages| == 2 && s.dev.log.current.stages[1].kind.STATUS2?
                      else s.dev.log.current.stages == dev.log.current.stages))
  {
    Composite.SwitchSucceeds(cdev, config, answers);
    var (cdev', ret) := Composite.SetConfig(cdev, cdev.configs[config].value, answers);
    var k := Composite.Delays(answers, cdev.configs[config].nextInterfaceId);
    if AreMoves(System(dev, cdev'), ms) {
      DelayedStatusOnce(System(dev, cdev'), k, ms);
    }
  }
}
