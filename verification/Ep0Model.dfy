/**
 Control transfers on endpoint zero: the SETUP, DATA and STATUS stages of section 8.5.3
 of USB 2.0, as the DWC3 driver runs them over two physical endpoints (0 is OUT, 1 is
 IN) that share one pair of TRBs.
 */
module Ep0Model {
  import opened Octets
  import opened Bounce

  const EAGAIN: int := -11

  type PacketSize = n: nat | 0 < n <= BOUNCE_SIZE witness 1

  /** The physical endpoints 0 and 1. */
  datatype PhysEp = Out | In

  datatype Phase = SetupPhase | DataPhase | StatusPhase
  datatype Next = Complete | NrdyData | NrdyStatus
  datatype Kind = SETUP | DATA | STATUS2 | STATUS3

  /** A started stage: its kind, the physical endpoint, its length, and the slot its
      first TRB was written to (the controller always starts reading at slot 0). */
  datatype Stage = Stage(kind: Kind, ep: PhysEp, len: u32, slot: nat)

  datatype Request = Request(id: nat, length: u32, zero: bool)

  /** What the driver remembers of the transfer. */
  datatype Control = Control(phase: Phase, next: Next, delayed: bool, threeStage: bool, expectIn: bool)
  {
    function DataEp(): PhysEp {
      if expectIn then In else Out
    }

    /** The endpoint of the status stage: opposite to the data stage, IN without one. */
    function StatusEp(): PhysEp {
      if expectIn then Out else In
    }
  }

  /** The endpoint flags, whether each endpoint holds a transfer resource of the controller,
      and the state of the two TRBs and of the bounce buffer. */
  datatype Pipe = Pipe(busyOut: bool, busyIn: bool, heldOut: bool, heldIn: bool, stall: bool, xferPending: bool,
                       enqueue: nat, bounced: bool)
  {
    predicate Busy(ep: PhysEp) {
      if ep.Out? then busyOut else busyIn
    }

    predicate Quiet() {
      !busyOut && !busyIn
    }

    predicate Held(ep: PhysEp) {
      if ep.Out? then heldOut else heldIn
    }

    /** A transfer is started: the controller gives it a resource. */
    function Started(ep: PhysEp): Pipe {
      if ep.Out? then this.(busyOut := true, heldOut := true) else this.(busyIn := true, heldIn := true)
    }

    /** A transfer has completed: its resource is given up. */
    function Ended(ep: PhysEp): Pipe {
      if ep.Out? then this.(busyOut := false, heldOut := false) else this.(busyIn := false, heldIn := false)
    }

    /** The resource is given up while the endpoint stays busy. */
    function Released(ep: PhysEp): Pipe {
      if ep.Out? then this.(heldOut := false) else this.(heldIn := false)
    }

    /** The TRB index of an endpoint: only endpoint 0 ever chains TRBs. */
    function Slot(ep: PhysEp): nat {
      if ep.Out? then enqueue else 0
    }
  }

  /** What has happened in a control transfer: the stages started, whether a request was
      queued for it, and given back, and whether a STALL or an END TRANSFER was issued. */
  datatype Story = Story(stages: seq<Stage>, queued: bool, returned: bool, stalled: bool, ended: bool)

  const UNTOLD := Story([], false, false, false, false)

  /** A control transfer that is over: completed, or cut short by a restart. */
  datatype Transfer =
    | Completed(threeStage: bool, expectIn: bool, story: Story)
    | Cut(threeStage: bool, expectIn: bool, story: Story)

  /** The current transfer, the transfers before it, and whether a START TRANSFER has ever
      been issued on an endpoint that still held one. */
  datatype Log = Log(current: Story, past: seq<Transfer>, overlap: bool)

  /** `inSetup`: the gadget driver's setup callback has been called and has not returned.
      `asked`: it has queued its request for the current transfer. */
  datatype Gadget = Gadget(inSetup: bool, asked: bool)

  /** What the driver does once a completion callback has returned. */
  datatype Cont =
    | AfterData(ep: PhysEp, r: Request)
    | AfterStatus(badTestMode: bool)
    | AfterRestart

  /** `calls` has an entry for every completion callback that has not returned, the
      innermost last. */
  datatype Dev = Dev(ctl: Control, pipe: Pipe, list: seq<Request>, maxPacket: PacketSize,
                     gadget: Gadget, calls: seq<Cont>, log: Log)

  // ---------------------------------------------------------------- starting stages

  /** Start one TRB, unless the endpoint is busy. */
  function StartTrans(d: Dev, ep: PhysEp, kind: Kind, len: u32, slot: nat): Dev {
    if d.pipe.Busy(ep) then d
    else d.(pipe := d.pipe.Started(ep),
            ctl := d.ctl.(next := Complete),
            log := Recorded(d.log, Stage(kind, ep, len, slot), d.pipe.Held(ep)))
  }

  /** A SETUP stage begins the next transfer. */
  function Recorded(log: Log, st: Stage, over: bool): Log {
    log.(current := if st.kind.SETUP? then UNTOLD.(stages := [st])
                    else log.current.(stages := log.current.stages + [st]),
         overlap := log.overlap || over)
  }

  /** Does an OUT data stage of this length end in the bounce buffer? */
  predicate Unaligned(maxPacket: PacketSize, len: u32) {
    len % maxPacket != 0
  }

  /** The TRBs for the data stage of a request.  An unaligned OUT request ends in the
      bounce buffer, with a chained TRB before that if it is long. */
  function DoData(d: Dev, r: Request): Dev {
    var ep := d.ctl.DataEp();
    var slot := d.pipe.Slot(ep);
    var bounce := r.length != 0 && Unaligned(d.maxPacket, r.length) && ep.Out?;
    var chain := bounce && r.length > BOUNCE_SIZE && !d.pipe.Busy(ep);
    var pipe := d.pipe.(enqueue := if chain then d.pipe.enqueue + 1 else d.pipe.enqueue,
                        bounced := d.pipe.bounced || bounce);
    StartTrans(d.(pipe := pipe), ep, DATA, r.length, slot)
  }

  function DoStatus(d: Dev, ep: PhysEp): Dev {
    StartTrans(d, ep, if d.ctl.threeStage then STATUS3 else STATUS2, 0, d.pipe.Slot(ep))
  }

  /** A transfer is over, if it was not already. */
  function Over(d: Dev, t: Transfer): Dev {
    d.(log := d.log.(current := UNTOLD, past := if d.log.current.stages == [] then d.log.past else d.log.past + [t]))
  }

  /** Arm the SETUP stage of the next transfer. */
  function OutStart(d: Dev): Dev {
    StartTrans(d.(ctl := d.ctl.(phase := SetupPhase)), Out, SETUP, 8, d.pipe.Slot(Out))
  }

  /** Give back the request at the head of the list, if there is one. */
  function Giveback(d: Dev): Dev {
    if d.list == [] then d
    else d.(list := d.list[1..], pipe := d.pipe.(bounced := false),
            log := d.log.(current := d.log.current.(returned := true)))
  }

  /** Stall endpoint zero, or end a stall.  Outside of the protocol's own stalls it is
      refused while a request is listed; being an OUT endpoint, it need not be idle. */
  function SetHalt(d: Dev, value: bool, protocol: bool): (Dev, int) {
    if !value then (d.(pipe := d.pipe.(stall := false)), 0)
    else if !protocol && d.list != [] then (d, EAGAIN)
    else (d.(pipe := d.pipe.(stall := true), log := d.log.(current := d.log.current.(stalled := true))), 0)
  }

  /** Stall and wait for the next SETUP.  What was listed is given back only after the
      stall has been asked for, and the SETUP stage armed only after that callback. */
  function Restart(d: Dev): (d': Dev)
    ensures !d'.pipe.stall && !d'.pipe.xferPending
  {
    var d1 := SetHalt(d.(pipe := d.pipe.(busyIn := false)), true, false).0;
    var d2 := d1.(pipe := d1.pipe.(busyOut := false, stall := false, xferPending := false),
                  ctl := d1.ctl.(delayed := false));
    var cut := Cut(d.ctl.threeStage, d.ctl.expectIn, d1.log.current);
    if d2.list == [] then OutStart(Over(d2, cut))
    else Over(Giveback(d2), cut).(calls := d2.calls + [AfterRestart])
  }

  /** END TRANSFER, if the endpoint holds a resource. */
  function EndData(d: Dev, ep: PhysEp): Dev {
    if !d.pipe.Held(ep) then d
    else d.(pipe := d.pipe.Released(ep), log := d.log.(current := d.log.current.(ended := true)))
  }

  // ---------------------------------------------------------------- the gadget driver's queue

  /** What queueing does once the request is listed. */
  function Listed(d: Dev, r: Request): Dev {
    if d.pipe.xferPending then
      if d.ctl.phase != DataPhase then d
      else var d1 := DoData(d, r); d1.(pipe := d1.pipe.(xferPending := false))
    else if d.ctl.delayed then
      var d1 := d.(ctl := d.ctl.(delayed := false));
      if d.ctl.phase.StatusPhase? then DoStatus(d1, d.ctl.StatusEp()) else d1
    else if d.ctl.threeStage then DoData(d.(ctl := d.ctl.(phase := DataPhase)), r)
    else d
  }

  /** Refused while another request is listed. */
  function Queue(d: Dev, r: Request): Dev {
    if d.list != [] then d
    else
      Listed(d.(list := [r], gadget := d.gadget.(asked := true),
                log := d.log.(current := d.log.current.(queued := true))), r)
  }

  // ---------------------------------------------------------------- events

  /** What a completion event and the TRBs it is about tell. */
  datatype Completion = Completion(setupPending: bool, remaining: nat, badTestMode: bool)

  /** The eight bytes of a SETUP packet, as far as they matter here. */
  datatype Ctrl = Ctrl(wLength: nat, dirIn: bool)

  /** What the gadget driver's setup callback returns. */
  datatype SetupResult = Failed | Handled | DelayedStatus

  /** A SETUP packet has arrived.  `connected`: there is a gadget driver and the pullup
      is on, so it is asked. */
  function InspectSetup(d: Dev, ctrl: Ctrl, connected: bool): Dev {
    if !connected then Restart(d)
    else if ctrl.wLength == 0 then
      d.(gadget := Gadget(true, false), ctl := d.ctl.(threeStage := false, expectIn := false, next := NrdyStatus))
    else
      d.(gadget := Gadget(true, false), ctl := d.ctl.(threeStage := true, expectIn := ctrl.dirIn, next := NrdyData))
  }

  function SetupReturns(d: Dev, ret: SetupResult): Dev {
    var d1 := d.(gadget := d.gadget.(inSetup := false));
    match ret
    case Failed => Restart(d1)
    case Handled => d1
    case DelayedStatus => d1.(ctl := d1.ctl.(delayed := true))
  }

  /** Is a zero-length packet due behind the data of this request?  It is if the request
      asks for one and ends on a packet boundary. */
  predicate ZeroDue(maxPacket: PacketSize, r: Request) {
    !Unaligned(maxPacket, r.length) && r.length != 0 && r.zero
  }

  /** A data stage that went through: its request is given back. */
  function DataDone(d: Dev, ep: PhysEp, r: Request): Dev {
    Giveback(d).(calls := d.calls + [AfterData(ep, r)])
  }

  /** And the zero-length packet started, if one is due. */
  function FinishData(d: Dev, ep: PhysEp, r: Request): Dev {
    if ZeroDue(d.maxPacket, r) then StartTrans(d.(ctl := d.ctl.(next := Complete)), ep, DATA, 0, d.pipe.Slot(ep)) else d
  }

  function CompleteData(d: Dev, ep: PhysEp, c: Completion): Dev {
    var d1 := d.(ctl := d.ctl.(next := NrdyStatus));
    if d.list == [] then d1
    else if c.setupPending then Giveback(d1)
    else
      var r := d.list[0];
      var d2 := if d.pipe.bounced && r.length > BOUNCE_SIZE then d1.(pipe := d1.pipe.(enqueue := 0)) else d1;
      if ep.In? && 0 < c.remaining <= r.length then Restart(d2) else DataDone(d2, ep, r)
  }

  function CompleteStatus(d: Dev, c: Completion): Dev {
    if d.list == [] then FinishStatus(d, c.badTestMode)
    else Giveback(d).(calls := d.calls + [AfterStatus(c.badTestMode)])
  }

  /** The transfer has completed, unless its callback has cut it. */
  function FinishStatus(d: Dev, badTestMode: bool): Dev {
    if badTestMode then Restart(d)
    else if d.ctl.phase.StatusPhase? then
      OutStart(Over(d, Completed(d.ctl.threeStage, d.ctl.expectIn, d.log.current)))
    else OutStart(d)
  }

  /** The innermost completion callback returns. */
  function CallReturns(d: Dev): Dev
    requires d.calls != []
  {
    var n := |d.calls| - 1;
    var d1 := d.(calls := d.calls[..n]);
    match d.calls[n]
    case AfterData(ep, r) => FinishData(d1, ep, r)
    case AfterStatus(badTestMode) => FinishStatus(d1, badTestMode)
    case AfterRestart => OutStart(d1)
  }

  /** XferComplete on physical endpoint `ep`. */
  function XferComplete(d: Dev, ep: PhysEp, c: Completion, ctrl: Ctrl, connected: bool): Dev {
    var d1 := d.(pipe := d.pipe.Ended(ep));
    match d.ctl.phase
    case SetupPhase => InspectSetup(d1, ctrl, connected)
    case DataPhase => CompleteData(d1, ep, c)
    case StatusPhase => CompleteStatus(d1, c)
  }

  function NotReadyData(d: Dev, ep: PhysEp): Dev {
    if d.ctl.DataEp() != ep then Restart(EndData(d, d.ctl.DataEp())) else d
  }

  function NotReadyStatus(d: Dev, ep: PhysEp): Dev {
    if d.ctl.next != NrdyStatus then d
    else
      var d1 := d.(ctl := d.ctl.(phase := StatusPhase));
      if d.ctl.delayed then
        if d.list != [] then DoStatus(d1.(ctl := d1.ctl.(delayed := false)), ep) else d1
      else DoStatus(d1, ep)
  }

  // ---------------------------------------------------------------- runs

  datatype Action =
    | Completes(ep: PhysEp, c: Completion, ctrl: Ctrl, connected: bool)
    | DataNotReady(ep: PhysEp)
    | StatusNotReady(ep: PhysEp)
    | GadgetQueues(r: Request)
    | GadgetHalts
    | Returns(ret: SetupResult)
    | CallbackReturns

  /** Is a SETUP being served?  Its packet is in, its status stage has not started. */
  predicate Serving(d: Dev) {
    match d.ctl.phase
    case SetupPhase => !d.pipe.busyOut
    case DataPhase => true
    case StatusPhase => d.pipe.Quiet()
  }

  /** Who may do what: the controller completes what was started and not ended, events are
      handled while no callback runs, and the gadget driver queues one request for a SETUP
      while that is being served. */
  predicate Enabled(d: Dev, a: Action) {
    match a
    case Completes(ep, c, ctrl, connected) => !d.gadget.inSetup && d.calls == [] && d.pipe.Held(ep)
    case DataNotReady(ep) => !d.gadget.inSetup && d.calls == []
    case StatusNotReady(ep) => !d.gadget.inSetup && d.calls == []
    case GadgetQueues(r) => Serving(d) && !d.gadget.asked
    case GadgetHalts => true
    case Returns(ret) => d.gadget.inSetup && d.calls == []
    case CallbackReturns => d.calls != []
  }

  function Step(d: Dev, a: Action): Dev
    requires Enabled(d, a)
  {
    match a
    case Completes(ep, c, ctrl, connected) => XferComplete(d, ep, c, ctrl, connected)
    case DataNotReady(ep) => NotReadyData(d, ep)
    case StatusNotReady(ep) => NotReadyStatus(d, ep)
    case GadgetQueues(r) => Queue(d, r)
    case GadgetHalts => Restart(d)
    case Returns(ret) => SetupReturns(d, ret)
    case CallbackReturns => CallReturns(d)
  }

  /** The state the driver starts in: the first SETUP stage armed. */
  function Start(maxPacket: PacketSize): Dev {
    Dev(Control(SetupPhase, Complete, false, false, false), Pipe(true, false, true, false, false, false, 0, false), [],
        maxPacket, Gadget(false, false), [], Log(UNTOLD.(stages := [Stage(SETUP, Out, 8, 0)]), [], false))
  }

  /** A run in which every action may happen, and satisfies `guard`. */
  ghost predicate IsRun(d: Dev, acts: seq<Action>, guard: (Dev, Action) -> bool)
    decreases |acts|
  {
    acts != [] ==> Enabled(d, acts[0]) && guard(d, acts[0]) && IsRun(Step(d, acts[0]), acts[1..], guard)
  }

  /** The state it leads to. */
  ghost function Run(d: Dev, acts: seq<Action>, guard: (Dev, Action) -> bool): Dev
    requires IsRun(d, acts, guard)
    decreases |acts|
  {
    if acts == [] then d else Run(Step(d, acts[0]), acts[1..], guard)
  }
}
