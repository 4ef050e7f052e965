/**
 Control transfers carried to their end: the status event starts one status stage, whose
 completion ends the transfer and arms the next SETUP stage.  Whole transfers, with and
 without a data stage, from the arrival of the SETUP packet on.
 */
module Ep0Status {
  import opened Octets
  import opened Bounce
  import opened Ep0Model
  import opened Ep0Proofs
  import opened Ep0Details
  import opened InDataStage

  /** The stages, wherever their TRBs were put. */
  function AnySlot(stages: seq<Stage>): (plain: seq<Stage>)
    ensures |plain| == |stages|
  {
    seq(|stages|, i requires 0 <= i < |stages| => stages[i].(slot := 0))
  }

  lemma AnySlotNext(stages: seq<Stage>, st: Stage)
    ensures AnySlot(stages + [st]) == AnySlot(stages) + [st.(slot := 0)]
  {
  }

  /** A run goes on by one more action, from the state it has led to. */
  lemma GoesOn(d0: Dev, acts: seq<Action>, d: Dev, a: Action) returns (d': Dev)
    requires Leads(d0, acts, d) && Enabled(d, a)
    ensures d' == Step(d, a) && Leads(d0, acts + [a], d')
  {
    d' := Step(d, a);
    LeadsOn(d0, acts, d, a);
  }

  lemma StaysThere(d: Dev)
    ensures Leads(d, [], d)
  {
  }

  // ---------------------------------------------------------------- the status stage

  /** The status stage of the transfer under way, on this endpoint. */
  function StatusStage(d: Dev, ep: PhysEp): Stage {
    Stage(if d.ctl.threeStage then STATUS3 else STATUS2, ep, 0, d.pipe.Slot(ep))
  }

  /** A status event starts exactly one status stage, on the endpoint it is about, if the driver
      is waiting for it and no delay is wanted, or the request for which it was delayed is
      listed; else it starts nothing. */
  lemma StatusStartsExactly(d: Dev, ep: PhysEp)
    requires Inv(d) && Enabled(d, StatusNotReady(ep))
    ensures var d' := Step(d, StatusNotReady(ep));
            && d'.list == d.list && d'.log.past == d.log.past
            && (d'.log.current.stages != d.log.current.stages
                <==> d.ctl.next == NrdyStatus && (d.ctl.delayed ==> d.list != []))
            && (d'.log.current.stages != d.log.current.stages ==>
                  && d'.log.current.stages == d.log.current.stages + [StatusStage(d, ep)]
                  && d'.ctl == d.ctl.(phase := StatusPhase, next := Complete, delayed := false)
                  && d'.pipe.Busy(ep))
    ensures Inv(Step(d, StatusNotReady(ep))) && Step(d, StatusNotReady(ep)).calls == []
  {
    StatusNotReadyKeeps(d, ep);
  }

  /** The transfer has ended, its stages these, and the SETUP stage of the next is armed. */
  ghost predicate EndsTransfer(d: Dev, threeStage: bool, expectIn: bool, stages: seq<Stage>, d': Dev) {
    && Inv(d') && Fresh(d') && d'.calls == [] && d'.maxPacket == d.maxPacket
    && |d'.log.past| == |d.log.past| + 1 && d'.log.past[..|d.log.past|] == d.log.past
    && d'.log.past[|d.log.past|].Completed?
    && d'.log.past[|d.log.past|].threeStage == threeStage && d'.log.past[|d.log.past|].expectIn == expectIn
    && d'.log.past[|d.log.past|].story.stages == stages
  }

  lemma StatusIsOver(d: Dev)
    requires Inv(d) || AllProper(d.log.past)
    requires StatusDone(d) && d.calls == []
    ensures EndsTransfer(d, d.ctl.threeStage, d.ctl.expectIn, d.log.current.stages, FinishStatus(d, false))
  {
    FinishStatusKeeps(d, false);
    OutStartFresh(Over(d, Completed(d.ctl.threeStage, d.ctl.expectIn, d.log.current)));
  }

  /** What its completion event and, if a request was listed, the return of that request's
      callback lead to. */
  function StatusEvents(d: Dev, ep: PhysEp, c: Completion, ctrl: Ctrl): seq<Action> {
    [Completes(ep, c, ctrl, true)] + if d.list == [] then [] else [CallbackReturns]
  }

  lemma StatusStep(d: Dev, ep: PhysEp, c: Completion, ctrl: Ctrl)
    requires Now(d) && d.calls == [] && d.ctl.phase.StatusPhase? && d.pipe.Busy(ep) && !c.badTestMode
    ensures Enabled(d, Completes(ep, c, ctrl, true))
    ensures var d1 := d.(pipe := d.pipe.Ended(ep));
            Step(d, Completes(ep, c, ctrl, true))
            == if d.list == [] then FinishStatus(d1, false) else Giveback(d1).(calls := [AfterStatus(false)])
  {
  }

  /** A status stage under way completes: the transfer is counted as completed, with all its
      stages, and the SETUP stage is armed. */
  lemma StatusEndsTransfer(d0: Dev, acts: seq<Action>, d: Dev, ep: PhysEp, c: Completion, ctrl: Ctrl)
    returns (d': Dev)
    requires Leads(d0, acts, d)
    requires Inv(d) && d.calls == [] && d.ctl.phase.StatusPhase? && d.pipe.Busy(ep) && !c.badTestMode
    ensures Leads(d0, acts + StatusEvents(d, ep, c, ctrl), d')
    ensures EndsTransfer(d, d.ctl.threeStage, d.ctl.expectIn, d.log.current.stages, d')
  {
    var a := Completes(ep, c, ctrl, true);
    var d1 := d.(pipe := d.pipe.Ended(ep));
    StatusGivesBack(d, ep);
    StatusStep(d, ep, c, ctrl);
    d' := GoesOn(d0, acts, d, a);
    if d.list == [] {
      StatusIsOver(d1);
      assert acts + [a] == acts + StatusEvents(d, ep, c, ctrl);
    } else {
      d' := StatusCallbackReturns(d0, acts + [a], d', Giveback(d1));
      assert acts + [a] + [CallbackReturns] == acts + StatusEvents(d, ep, c, ctrl);
    }
  }

  lemma StatusCallbackReturns(d0: Dev, acts: seq<Action>, d: Dev, d1: Dev) returns (d': Dev)
    requires Leads(d0, acts, d) && d == d1.(calls := [AfterStatus(false)]) && d1.calls == []
    requires StatusDone(d1) && AllProper(d1.log.past)
    ensures Leads(d0, acts + [CallbackReturns], d')
    ensures EndsTransfer(d1, d1.ctl.threeStage, d1.ctl.expectIn, d1.log.current.stages, d')
  {
    StatusIsOver(d1);
    assert d.(calls := d.calls[..0]) == d1;
    d' := GoesOn(d0, acts, d, CallbackReturns);
  }

  /** The status event and what follows it. */
  function StatusRun(d: Dev, ep: PhysEp, c: Completion, ctrl: Ctrl): seq<Action> {
    [StatusNotReady(ep)] + StatusEvents(d, ep, c, ctrl)
  }

  lemma StatusRuns(d0: Dev, acts: seq<Action>, d: Dev, ep: PhysEp, c: Completion, ctrl: Ctrl) returns (d': Dev)
    requires Leads(d0, acts, d)
    requires Inv(d) && Enabled(d, StatusNotReady(ep)) && !c.badTestMode
    requires d.ctl.next == NrdyStatus && (d.ctl.delayed ==> d.list != [])
    ensures Leads(d0, acts + StatusRun(d, ep, c, ctrl), d')
    ensures EndsTransfer(d, d.ctl.threeStage, d.ctl.expectIn, d.log.current.stages + [StatusStage(d, ep)], d')
  {
    StatusStartsExactly(d, ep);
    var d1 := GoesOn(d0, acts, d, StatusNotReady(ep));
    d' := StatusEndsTransfer(d0, acts + [StatusNotReady(ep)], d1, ep, c, ctrl);
    assert acts + [StatusNotReady(ep)] + StatusEvents(d, ep, c, ctrl) == acts + StatusRun(d, ep, c, ctrl);
  }

  // ---------------------------------------------------------------- the SETUP packet

  /** A SETUP packet is being served, and nothing has been queued for it. */
  predicate Served(d: Dev, ctrl: Ctrl) {
    && d.ctl == Control(SetupPhase, if ctrl.wLength == 0 then NrdyStatus else NrdyData, d.ctl.delayed,
                        ctrl.wLength != 0, ctrl.wLength != 0 && ctrl.dirIn)
    && d.pipe.Quiet() && !d.pipe.xferPending && !d.pipe.bounced && d.list == [] && d.calls == []
    && d.gadget == Gadget(true, false)
    && |d.log.current.stages| == 1 && IsSetup(d.log.current.stages[0])
  }

  /** The armed SETUP stage completes: whether a data stage follows, and which way, is read off
      its packet. */
  lemma SetupArrives(d: Dev, c: Completion, ctrl: Ctrl)
    requires Inv(d) && Fresh(d) && d.calls == [] && !d.gadget.inSetup
    ensures Enabled(d, Completes(Out, c, ctrl, true))
    ensures var d' := Step(d, Completes(Out, c, ctrl, true));
            && Inv(d') && Served(d', ctrl) && d'.ctl.delayed == d.ctl.delayed
            && d'.log == d.log && d'.maxPacket == d.maxPacket
    ensures ctrl.wLength == 0 && !d.ctl.delayed ==> InTwoStageSetup(Step(d, Completes(Out, c, ctrl, true)))
    ensures ctrl.wLength > 0 && ctrl.dirIn && !d.ctl.delayed ==>
              AskedForData(Step(d, Completes(Out, c, ctrl, true)))
  {
    CompletesKeeps(d, Out, c, ctrl, true);
  }

  function DataStage(ctrl: Ctrl, r: Request, slot: nat): Stage {
    Stage(DATA, if ctrl.dirIn then In else Out, r.length, slot)
  }

  /** The data stage is under way, the setup callback may be running. */
  predicate DataBusy(d: Dev, ctrl: Ctrl, r: Request) {
    && d.ctl.phase.DataPhase? && d.ctl.threeStage && d.ctl.expectIn == ctrl.dirIn
    && d.pipe.Busy(d.ctl.DataEp()) && d.list == [r] && d.calls == [] && !d.ctl.delayed
    && (ctrl.dirIn ==> !d.pipe.bounced)
  }

  /** With a data stage to come, queueing the request starts it the way the packet says, unless
      a delay was left over from before: then nothing starts. */
  lemma QueueStartsData(d: Dev, ctrl: Ctrl, r: Request)
    requires Inv(d) && Served(d, ctrl) && ctrl.wLength > 0
    ensures Enabled(d, GadgetQueues(r))
    ensures var d' := Step(d, GadgetQueues(r));
            && Inv(d') && d'.log.past == d.log.past && d'.maxPacket == d.maxPacket && d'.gadget.inSetup
            && d'.log.current.stages == (if d.ctl.delayed then d.log.current.stages
                                         else d.log.current.stages + [DataStage(ctrl, r, d.pipe.Slot(d.ctl.DataEp()))])
            && (!d.ctl.delayed ==> DataBusy(d', ctrl, r))
  {
    QueueKeeps(d, r);
  }

  /** The setup callback returns. */
  lemma HandledKeeps(d: Dev, ctrl: Ctrl, r: Request)
    requires Inv(d) && DataBusy(d, ctrl, r) && d.gadget.inSetup
    ensures Enabled(d, Returns(Handled))
    ensures var d' := Step(d, Returns(Handled));
            && Inv(d') && DataBusy(d', ctrl, r) && !d'.gadget.inSetup
            && d'.log == d.log && d'.maxPacket == d.maxPacket
  {
    ReturnsKeeps(d, Handled);
  }

  /** Nothing is left of an IN data stage, and no other SETUP packet waits. */
  predicate WentThrough(ctrl: Ctrl, c: Completion, r: Request) {
    !c.setupPending && (ctrl.dirIn ==> !(0 < c.remaining <= r.length))
  }

  /** The data stage completes, and its request is given back. */
  lemma DataGoesBack(d: Dev, ctrl: Ctrl, r: Request, c: Completion)
    requires Inv(d) && DataBusy(d, ctrl, r) && !d.gadget.inSetup && WentThrough(ctrl, c, r)
    ensures Enabled(d, Completes(d.ctl.DataEp(), c, ctrl, true))
    ensures var d' := Step(d, Completes(d.ctl.DataEp(), c, ctrl, true));
            && Inv(d') && d'.calls == [AfterData(d.ctl.DataEp(), r)] && !d'.gadget.inSetup
            && d'.ctl == d.ctl.(next := NrdyStatus) && d'.list == [] && d'.pipe.Quiet()
            && d'.log.current.stages == d.log.current.stages && d'.log.past == d.log.past
            && d'.maxPacket == d.maxPacket
  {
    CompletesKeeps(d, d.ctl.DataEp(), c, ctrl, true);
  }

  /** Its callback returns: a zero-length packet is started if one is due, and else the status
      stage awaited. */
  lemma DataCallbackReturns(d: Dev, ep: PhysEp, r: Request)
    requires Inv(d) && d.calls == [AfterData(ep, r)] && d.ctl.phase.DataPhase? && d.ctl.next == NrdyStatus
    requires d.list == [] && d.pipe.Quiet() && !d.gadget.inSetup
    ensures Enabled(d, CallbackReturns)
    ensures var d' := Step(d, CallbackReturns);
            && Inv(d') && d'.calls == [] && !d'.gadget.inSetup && d'.list == []
            && d'.ctl == (if ZeroDue(d.maxPacket, r) then d.ctl.(next := Complete) else d.ctl)
            && d'.pipe.Busy(ep) == ZeroDue(d.maxPacket, r)
            && d'.log.current.stages
            == d.log.current.stages
             + (if ZeroDue(d.maxPacket, r) then [Stage(DATA, ep, 0, d.pipe.Slot(ep))] else [])
            && d'.log.past == d.log.past && d'.maxPacket == d.maxPacket
  {
    CallReturnsKeeps(d);
    assert d.calls[..0] == [];
  }

  /** The zero-length packet completes. */
  lemma ZeroCompletes(d: Dev, ep: PhysEp, c: Completion, ctrl: Ctrl)
    requires Inv(d) && d.calls == [] && !d.gadget.inSetup && d.ctl.phase.DataPhase? && d.list == [] && d.pipe.Busy(ep)
    ensures Enabled(d, Completes(ep, c, ctrl, true))
    ensures var d' := Step(d, Completes(ep, c, ctrl, true));
            && Inv(d') && d'.calls == [] && !d'.gadget.inSetup && d'.list == []
            && d'.ctl == d.ctl.(next := NrdyStatus)
            && d'.log == d.log && d'.maxPacket == d.maxPacket
  {
    CompletesKeeps(d, ep, c, ctrl, true);
  }

  // ---------------------------------------------------------------- delays left over

  /** A delay is remembered only while the SETUP it was asked for is served. */
  predicate DelayFits(d: Dev) {
    d.ctl.delayed ==>
      && (d.calls != [] ==> d.calls[0].AfterData?)
      && match d.ctl.phase
         case SetupPhase => !d.pipe.busyOut && d.calls == []
         case DataPhase => true
         case StatusPhase => d.pipe.Quiet() && d.calls == []
  }

  /** The setup callback asks for a delay after the transfer it was called for has been cut, by
      a halt from that callback. */
  predicate DelaysLate(d: Dev, a: Action) {
    a == Returns(DelayedStatus) && Fresh(d)
  }

  lemma RestartForgets(d: Dev)
    ensures !Restart(d).ctl.delayed
  {
  }

  lemma CompletesForgets(d: Dev, ep: PhysEp, c: Completion, ctrl: Ctrl, connected: bool)
    requires Inv(d) && DelayFits(d) && d.calls == [] && d.pipe.Busy(ep)
    ensures DelayFits(XferComplete(d, ep, c, ctrl, connected))
  {
    if d.ctl.phase.DataPhase? && d.list != [] && !c.setupPending {
      var d1 := d.(pipe := d.pipe.Ended(ep), ctl := d.ctl.(next := NrdyStatus));
      RestartForgets(d1);
      RestartForgets(d1.(pipe := d1.pipe.(enqueue := 0)));
    }
  }

  lemma CallReturnsForgets(d: Dev)
    requires Inv(d) && DelayFits(d) && d.calls != []
    ensures DelayFits(CallReturns(d))
  {
    assert d.calls[..0] == [];
  }

  lemma ReturnsForgets(d: Dev, ret: SetupResult)
    requires Inv(d) && DelayFits(d) && d.gadget.inSetup && d.calls == []
    ensures DelayFits(SetupReturns(d, ret)) <==> !(ret.DelayedStatus? && Fresh(d))
  {
    RestartForgets(d.(gadget := d.gadget.(inSetup := false)));
  }

  lemma QueueForgets(d: Dev, r: Request)
    requires Inv(d) && DelayFits(d) && Serving(d) && !d.gadget.asked
    ensures DelayFits(Queue(d, r))
  {
  }

  lemma NotReadyForgets(d: Dev, ep: PhysEp)
    requires Inv(d) && DelayFits(d) && d.calls == []
    ensures DelayFits(NotReadyStatus(d, ep)) && DelayFits(NotReadyData(d, ep))
  {
    RestartForgets(EndData(d, d.ctl.DataEp()));
  }

  /** A step leaves such a delay behind exactly if it is that. */
  lemma StepForgetsExactly(d: Dev, a: Action)
    requires Inv(d) && DelayFits(d) && Enabled(d, a) && Own(d, a)
    ensures DelayFits(Step(d, a)) <==> !DelaysLate(d, a)
  {
    match a
    case Completes(ep, c, ctrl, connected) => CompletesForgets(d, ep, c, ctrl, connected);
    case CallbackReturns => CallReturnsForgets(d);
    case DataNotReady(ep) => NotReadyForgets(d, ep);
    case StatusNotReady(ep) => NotReadyForgets(d, ep);
    case GadgetQueues(r) => QueueForgets(d, r);
    case GadgetHalts => RestartForgets(d);
    case Returns(ret) => ReturnsForgets(d, ret);
  }

  ghost function Prompt(): (Dev, Action) -> bool {
    (d, a) => Spares(d, a) && Own(d, a) && !DelaysLate(d, a)
  }

  lemma {:induction false} ForgetsFrom(d: Dev, acts: seq<Action>)
    requires Inv(d) && DelayFits(d) && IsRun(d, acts, Prompt())
    ensures Inv(Run(d, acts, Prompt())) && DelayFits(Run(d, acts, Prompt()))
    decreases |acts|
  {
    if acts != [] {
      StepKeeps(d, acts[0]);
      StepForgetsExactly(d, acts[0]);
      ForgetsFrom(Step(d, acts[0]), acts[1..]);
    }
  }

  /** Over every run from the start without that, no delay is left over when a SETUP stage is
      armed: every transfer can begin as below. */
  lemma RunForgetsDelays(maxPacket: PacketSize, acts: seq<Action>)
    requires IsRun(Start(maxPacket), acts, Prompt())
    ensures var d := Run(Start(maxPacket), acts, Prompt());
            Inv(d) && (Fresh(d) ==> !d.ctl.delayed)
  {
    ForgetsFrom(Start(maxPacket), acts);
  }

  // ---------------------------------------------------------------- whole transfers

  /** What the controller reports of the stages of a transfer. */
  datatype Reports = Reports(setup: Completion, data: Completion, zero: Completion, status: Completion)

  function DataEpOf(ctrl: Ctrl): PhysEp {
    if ctrl.dirIn then In else Out
  }

  /** The SETUP packet and the request queued for it. */
  function RequestEvents(ctrl: Ctrl, r: Request, cs: Reports): seq<Action> {
    [Completes(Out, cs.setup, ctrl, true), GadgetQueues(r), Returns(Handled)]
  }

  /** Its data stage. */
  function DataEvents(ctrl: Ctrl, r: Request, cs: Reports, m: PacketSize): seq<Action> {
    [Completes(DataEpOf(ctrl), cs.data, ctrl, true), CallbackReturns]
    + if ZeroDue(m, r) then [Completes(DataEpOf(ctrl), cs.zero, ctrl, true)] else []
  }

  /** The stages of such a transfer before its status stage. */
  function DataPlan(ctrl: Ctrl, r: Request, m: PacketSize): seq<Stage> {
    [Stage(SETUP, Out, 8, 0), Stage(DATA, DataEpOf(ctrl), r.length, 0)]
    + if ZeroDue(m, r) then [Stage(DATA, DataEpOf(ctrl), 0, 0)] else []
  }

  lemma RequestRuns(d: Dev, ctrl: Ctrl, r: Request, cs: Reports) returns (d': Dev)
    requires Inv(d) && Fresh(d) && d.calls == [] && !d.gadget.inSetup && !d.ctl.delayed && ctrl.wLength > 0
    ensures Leads(d, RequestEvents(ctrl, r, cs), d')
    ensures Inv(d') && DataBusy(d', ctrl, r) && !d'.gadget.inSetup
    ensures d'.log.past == d.log.past && d'.maxPacket == d.maxPacket
    ensures AnySlot(d'.log.current.stages) == [Stage(SETUP, Out, 8, 0), Stage(DATA, DataEpOf(ctrl), r.length, 0)]
  {
    var a := Completes(Out, cs.setup, ctrl, true);
    StaysThere(d);
    SetupArrives(d, cs.setup, ctrl);
    var d1 := GoesOn(d, [], d, a);
    QueueStartsData(d1, ctrl, r);
    var d2 := GoesOn(d, [] + [a], d1, GadgetQueues(r));
    HandledKeeps(d2, ctrl, r);
    d' := GoesOn(d, [] + [a] + [GadgetQueues(r)], d2, Returns(Handled));
    assert [] + [a] + [GadgetQueues(r)] + [Returns(Handled)] == RequestEvents(ctrl, r, cs);
  }

  /** Waiting for the status event of a transfer with a data stage. */
  ghost predicate DataOver(d: Dev, ctrl: Ctrl, d': Dev) {
    && Inv(d') && d'.calls == [] && !d'.gadget.inSetup && d'.list == []
    && d'.ctl == Control(DataPhase, NrdyStatus, false, true, ctrl.dirIn)
    && d'.log.past == d.log.past && d'.maxPacket == d.maxPacket
  }

  lemma DataRuns(d0: Dev, acts: seq<Action>, d: Dev, ctrl: Ctrl, r: Request, cs: Reports) returns (d': Dev)
    requires Leads(d0, acts, d)
    requires Inv(d) && DataBusy(d, ctrl, r) && !d.gadget.inSetup && WentThrough(ctrl, cs.data, r)
    ensures Leads(d0, acts + DataEvents(ctrl, r, cs, d.maxPacket), d') && DataOver(d, ctrl, d')
    ensures AnySlot(d'.log.current.stages)
         == AnySlot(d.log.current.stages)
          + if ZeroDue(d.maxPacket, r) then [Stage(DATA, DataEpOf(ctrl), 0, 0)] else []
  {
    var ep := DataEpOf(ctrl);
    var a, b := Completes(ep, cs.data, ctrl, true), Completes(ep, cs.zero, ctrl, true);
    DataGoesBack(d, ctrl, r, cs.data);
    var d1 := GoesOn(d0, acts, d, a);
    DataCallbackReturns(d1, ep, r);
    d' := GoesOn(d0, acts + [a], d1, CallbackReturns);
    if ZeroDue(d.maxPacket, r) {
      var d2 := d';
      AnySlotNext(d1.log.current.stages, Stage(DATA, ep, 0, d1.pipe.Slot(ep)));
      ZeroCompletes(d2, ep, cs.zero, ctrl);
      d' := GoesOn(d0, acts + [a] + [CallbackReturns], d2, b);
      assert acts + [a] + [CallbackReturns] + [b] == acts + DataEvents(ctrl, r, cs, d.maxPacket);
    } else {
      assert acts + [a] + [CallbackReturns] == acts + DataEvents(ctrl, r, cs, d.maxPacket);
      assert d'.log.current.stages == d.log.current.stages;
    }
  }

  /** Every transfer with a data stage, either way, from an armed SETUP stage on: the SETUP
      packet arrives, the gadget driver queues a request and is done, the data go through,
      and the host asks for the status stage on any endpoint.  It has started exactly these
      stages and is counted as completed, and the next SETUP stage is armed. */
  lemma DataTransferRuns(d: Dev, ctrl: Ctrl, r: Request, cs: Reports, ep: PhysEp) returns (d': Dev)
    requires Inv(d) && Fresh(d) && d.calls == [] && !d.gadget.inSetup && !d.ctl.delayed
    requires ctrl.wLength > 0 && WentThrough(ctrl, cs.data, r) && !cs.status.badTestMode
    ensures Leads(d, RequestEvents(ctrl, r, cs) + DataEvents(ctrl, r, cs, d.maxPacket)
                     + [StatusNotReady(ep), Completes(ep, cs.status, ctrl, true)], d')
    ensures |d'.log.past| == |d.log.past| + 1
    ensures var stages := d'.log.past[|d.log.past|].story.stages;
            && EndsTransfer(d, true, ctrl.dirIn, stages, d')
            && AnySlot(stages) == DataPlan(ctrl, r, d.maxPacket) + [Stage(STATUS3, ep, 0, 0)]
  {
    var d1 := RequestRuns(d, ctrl, r, cs);
    var d2 := DataRuns(d, RequestEvents(ctrl, r, cs), d1, ctrl, r, cs);
    d' := StatusRuns(d, RequestEvents(ctrl, r, cs) + DataEvents(ctrl, r, cs, d.maxPacket), d2, ep, cs.status, ctrl);
    assert StatusRun(d2, ep, cs.status, ctrl) == [StatusNotReady(ep), Completes(ep, cs.status, ctrl, true)];
    AnySlotNext(d2.log.current.stages, StatusStage(d2, ep));
  }

  /** The packets on the wire do not depend on where the TRBs were put. */
  lemma {:induction false} OnWireAnySlot(stages: seq<Stage>, m: PacketSize)
    ensures OnWire(stages, m) == OnWire(AnySlot(stages), m)
    decreases |stages|
  {
    if stages != [] {
      var n := |stages| - 1;
      assert AnySlot(stages)[..n] == AnySlot(stages[..n]);
      OnWireAnySlot(stages[..n], m);
    }
  }

  lemma PlanOnWire(ctrl: Ctrl, r: Request, m: PacketSize, status: Stage)
    requires !status.kind.DATA?
    ensures OnWire(DataPlan(ctrl, r, m) + [status], m) == Sent(r, m)
  {
    var setup, data := Stage(SETUP, Out, 8, 0), Stage(DATA, DataEpOf(ctrl), r.length, 0);
    var zero := Stage(DATA, DataEpOf(ctrl), 0, 0);
    assert OnWire([], m) == [];
    OnWireNext([], setup, m);
    OnWireNext([setup], data, m);
    OnWireNext([setup, data], zero, m);
    assert [] + [setup] == [setup] && [setup] + [data] == [setup, data];
    assert [setup, data] + [] == [setup, data];
    OnWireNext(DataPlan(ctrl, r, m), status, m);
  }

  /** A clamped reply from the SETUP packet to the end of its transfer: what the host sees of
      the data ends with the last packet, for certain and not before, and the transfer
      completes. */
  lemma ReplyCompletes(d: Dev, id: nat, wLength: u16, size: nat, cs: Reports, ep: PhysEp) returns (d': Dev)
    requires Inv(d) && Fresh(d) && d.calls == [] && !d.gadget.inSetup && !d.ctl.delayed
    requires wLength > 0 && !cs.status.badTestMode
    requires WentThrough(Ctrl(wLength, true), cs.data, Clamped(id, wLength, size))
    ensures var ctrl, r := Ctrl(wLength, true), Clamped(id, wLength, size);
            Leads(d, RequestEvents(ctrl, r, cs) + DataEvents(ctrl, r, cs, d.maxPacket)
                     + [StatusNotReady(ep), Completes(ep, cs.status, ctrl, true)], d')
    ensures |d'.log.past| == |d.log.past| + 1
    ensures var stages := d'.log.past[|d.log.past|].story.stages;
            var ps := OnWire(stages, d.maxPacket);
            && EndsTransfer(d, true, true, stages, d')
            && ps != [] && SeenOver(ps, d.maxPacket, wLength)
            && forall k :: 0 < k < |ps| ==> !SeenOver(ps[..k], d.maxPacket, wLength)
  {
    var ctrl, r := Ctrl(wLength, true), Clamped(id, wLength, size);
    d' := DataTransferRuns(d, ctrl, r, cs, ep);
    OnWireAnySlot(d'.log.past[|d.log.past|].story.stages, d.maxPacket);
    PlanOnWire(ctrl, r, d.maxPacket, Stage(STATUS3, ep, 0, 0));
    ClampedEndsVisibly(id, wLength, size, d.maxPacket);
  }

  /** A request without a data stage that the gadget driver handles at once, with nothing
      queued for it. */
  lemma PlainTransferRuns(d: Dev, ctrl: Ctrl, cs: Reports, ep: PhysEp) returns (d': Dev)
    requires Inv(d) && Fresh(d) && d.calls == [] && !d.gadget.inSetup && !d.ctl.delayed
    requires ctrl.wLength == 0 && !cs.status.badTestMode
    ensures Leads(d, [Completes(Out, cs.setup, ctrl, true), Returns(Handled), StatusNotReady(ep),
                      Completes(ep, cs.status, ctrl, true)], d')
    ensures |d'.log.past| == |d.log.past| + 1
    ensures var stages := d'.log.past[|d.log.past|].story.stages;
            && EndsTransfer(d, false, false, stages, d')
            && AnySlot(stages) == [Stage(SETUP, Out, 8, 0), Stage(STATUS2, ep, 0, 0)]
  {
    var a := Completes(Out, cs.setup, ctrl, true);
    StaysThere(d);
    SetupArrives(d, cs.setup, ctrl);
    var d1 := GoesOn(d, [], d, a);
    ReturnsKeeps(d1, Handled);
    var d2 := GoesOn(d, [] + [a], d1, Returns(Handled));
    d' := ServedRuns(d, [] + [a] + [Returns(Handled)], d2, ctrl, cs, ep);
    assert [] + [a] + [Returns(Handled)] + StatusRun(d2, ep, cs.status, ctrl)
        == [a, Returns(Handled), StatusNotReady(ep), Completes(ep, cs.status, ctrl, true)];
  }

  /** And with a request queued for it, a leftover delay or not. */
  lemma QueuedTransferRuns(d: Dev, ctrl: Ctrl, r: Request, cs: Reports, ep: PhysEp) returns (d': Dev)
    requires Inv(d) && Fresh(d) && d.calls == [] && !d.gadget.inSetup
    requires ctrl.wLength == 0 && !cs.status.badTestMode
    ensures Leads(d, RequestEvents(ctrl, r, cs) + [StatusNotReady(ep), Completes(ep, cs.status, ctrl, true),
                                                   CallbackReturns], d')
    ensures |d'.log.past| == |d.log.past| + 1
    ensures var stages := d'.log.past[|d.log.past|].story.stages;
            && EndsTransfer(d, false, false, stages, d')
            && AnySlot(stages) == [Stage(SETUP, Out, 8, 0), Stage(STATUS2, ep, 0, 0)]
  {
    var a := Completes(Out, cs.setup, ctrl, true);
    StaysThere(d);
    SetupArrives(d, cs.setup, ctrl);
    var d1 := GoesOn(d, [], d, a);
    QueueKeeps(d1, r);
    var d2 := GoesOn(d, [] + [a], d1, GadgetQueues(r));
    ReturnsKeeps(d2, Handled);
    var d3 := GoesOn(d, [] + [a] + [GadgetQueues(r)], d2, Returns(Handled));
    assert [] + [a] + [GadgetQueues(r)] + [Returns(Handled)] == RequestEvents(ctrl, r, cs);
    d' := ServedRuns(d, RequestEvents(ctrl, r, cs), d3, ctrl, cs, ep);
    assert StatusRun(d3, ep, cs.status, ctrl)
        == [StatusNotReady(ep), Completes(ep, cs.status, ctrl, true), CallbackReturns];
  }

  /** A SETUP without a data stage has been handled. */
  lemma ServedRuns(d: Dev, acts: seq<Action>, d1: Dev, ctrl: Ctrl, cs: Reports, ep: PhysEp) returns (d': Dev)
    requires Leads(d, acts, d1) && Inv(d1) && d1.calls == [] && !d1.gadget.inSetup && !cs.status.badTestMode
    requires d1.ctl == Control(SetupPhase, NrdyStatus, false, false, false)
    requires |d1.log.current.stages| == 1 && IsSetup(d1.log.current.stages[0])
    requires d1.log.past == d.log.past && d1.maxPacket == d.maxPacket
    ensures Leads(d, acts + StatusRun(d1, ep, cs.status, ctrl), d')
    ensures |d'.log.past| == |d.log.past| + 1
    ensures var stages := d'.log.past[|d.log.past|].story.stages;
            && EndsTransfer(d, false, false, stages, d')
            && AnySlot(stages) == [Stage(SETUP, Out, 8, 0), Stage(STATUS2, ep, 0, 0)]
  {
    d' := StatusRuns(d, acts, d1, ep, cs.status, ctrl);
    AnySlotNext(d1.log.current.stages, StatusStage(d1, ep));
  }
}
