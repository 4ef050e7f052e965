/**
 One non-control endpoint of the DWC3 driver as a state machine: the TRB ring, the
 two request lists that feed it, the endpoint flags, and the steps of the driver,
 of the gadget driver above it and of the controller below it.  The functions here
 are the specification the imperative endpoint of Endpoint.dfy is proved against.
 */
module EndpointModel {
  import opened Octets
  import opened TrbRing

  const EAGAIN: int := -11
  const EBUSY: int := -16
  const EINVAL: int := -22
  const EINPROGRESS: int := -36
  const ECONNRESET: int := -54
  const ESHUTDOWN: int := -58

  datatype EpKind = Bulk | Interrupt | Isoc

  datatype Buf = Buf(dma: nat, len: nat)

  /** A transfer request.  `bufs` is the linked chain of packet buffers (`buf_num` of
      them, possibly none, in which case `dma` and `length` describe the data).  `own`
      tells that it was allocated for this endpoint.  The driver sets `startSlot` and
      `queued` when it prepares the first TRB. */
  datatype Request = Request(id: nat, own: bool, bufs: seq<Buf>, dma: nat, length: nat,
                             noInterrupt: bool, streamId: nat,
                             startSlot: nat, queued: bool, actual: nat, status: int)

  /** TRBs a request occupies: one per buffer, and one for a request with no chain. */
  function Width(r: Request): (w: nat)
    ensures w >= 1
  {
    if |r.bufs| > 0 then |r.bufs| else 1
  }

  datatype Config = Config(kind: EpKind, hasDesc: bool, dirIn: bool, streamCapable: bool)

  /** The ring and its two lists: requests waiting for TRBs (`pending`), and requests
      that have them (`queued`). */
  datatype Ring = Ring(enqueue: nat, dequeue: nat, pool: seq<Trb>,
                       pending: seq<Request>, queued: seq<Request>)
  {
    predicate Indexable() {
      |pool| == TRB_NUM && enqueue < SLOTS && dequeue < SLOTS
    }
  }

  datatype Flags = Flags(enabled: bool, busy: bool, xferPending: bool, missedIsoc: bool, cmdBusy: bool,
                         stall: bool, wedge: bool)

  datatype Cmd =
    | StartTransfer(slot: nat)
    | UpdateTransfer
    | EndTransfer
    | SetStall
    | ClearStall
    | XferCompleteSeen
    | Disabled

  datatype Done = Done(id: nat, status: int, actual: nat)

  /** What has happened so far: commands and completions in order, requests accepted
      and requests given back. */
  datatype History = History(log: seq<Cmd>, accepted: seq<nat>, given: seq<Done>)

  /** The status bits of a transfer event. */
  datatype Event = Event(busErr: bool, short: bool, ioc: bool, lst: bool)

  /** Where the handling of a transfer event stands.  Completion callbacks run, with
      the lock dropped, between one given-back request and the next. */
  datatype Phase =
    | Idle
    | Cleaning(event: Event, complete: bool)
    | Finishing(complete: bool, ranDry: bool)

  /** Which of its two loops a disable is in. */
  datatype Part = RingPart | PendingPart

  /** `removing` has an entry for every disable that has not ended, the innermost last: its
      completion callbacks may call anything, another disable included. */
  datatype Ep = Ep(config: Config, ring: Ring, flags: Flags, resourceIndex: nat, pullups: bool,
                   phase: Phase, removing: seq<Part>, hist: History)

  // ---------------------------------------------------------------- preparing TRBs

  /** The i-th TRB of a request.  `last` tells that the batch ends with this request. */
  function MakeTrb(c: Config, r: Request, i: nat, last: bool): Trb
    requires i < Width(r)
  {
    var chain := i + 1 < Width(r);
    var chained := |r.bufs| > 0;
    Trb(if chained then r.bufs[i].dma else r.dma,
        (if chained then r.bufs[i].len else r.length) % 0x100_0000, 0,
        if c.kind.Isoc? then (if i == 0 then IsocFirst else IsocNext) else Normal,
        true,
        !c.kind.Isoc? && last && !chain,
        chain,
        c.kind.Isoc?, c.kind.Isoc?,
        !r.noInterrupt && !chain,
        if c.kind.Bulk? && c.streamCapable then r.streamId % 0x1_0000 else 0)
  }

  /** The pool after TRBs i, i+1, ... of a request have been written from `start` on. */
  function WriteTrbs(c: Config, pool: seq<Trb>, start: nat, r: Request, i: nat, last: bool): (pool': seq<Trb>)
    requires |pool| == TRB_NUM && i <= Width(r)
    ensures |pool'| == TRB_NUM
    decreases Width(r) - i
  {
    if i == Width(r) then pool
    else WriteTrbs(c, pool[RingSlot(start, i) := MakeTrb(c, r, i, last)], start, r, i + 1, last)
  }

  /** Does the batch end with the request at the head of the pending list?  It does
      when it takes the last free slot, and when the driver sees that no request
      follows.  For a request with exactly one buffer the driver looks at the pending
      list while that request is still on it, so it never sees the list empty. */
  predicate EndsBatch(s: Ring, left: nat)
    requires s.pending != []
  {
    || left == Width(s.pending[0])
    || (|s.pending| == 1 && |s.pending[0].bufs| != 1)
  }

  /** Move the first pending request to the ring. */
  function SetUp(c: Config, s: Ring, last: bool): (s': Ring)
    requires s.pending != [] && s.Indexable()
    ensures s'.Indexable()
  {
    var r := s.pending[0];
    Ring(RingSlot(s.enqueue, Width(r)), s.dequeue, WriteTrbs(c, s.pool, s.enqueue, r, 0, last),
         s.pending[1..], s.queued + [r.(startSlot := s.enqueue, queued := true)])
  }

  function PrepareFrom(c: Config, s: Ring, left: nat): (s': Ring)
    requires s.Indexable()
    ensures s'.Indexable()
    decreases |s.pending|
  {
    if s.pending == [] || left < Width(s.pending[0]) then s
    else
      var last := EndsBatch(s, left);
      var s1 := SetUp(c, s, last);
      if last then s1 else PrepareFrom(c, s1, left - Width(s.pending[0]))
  }

  function FreeSlots(s: Ring): (left: nat)
    requires s.Indexable()
  {
    TrbsLeft(s.enqueue, s.dequeue, s.pool[PrevSlot(s.enqueue)].hwo)
  }

  function Prepare(c: Config, s: Ring): (s': Ring)
    requires s.Indexable()
    ensures s'.Indexable()
  {
    PrepareFrom(c, s, FreeSlots(s))
  }

  // ---------------------------------------------------------------- commands

  /** The ring a command is issued on: a new transfer is prepared only if nothing is
      on the ring yet, a running one takes up whatever fits. */
  function Loaded(c: Config, s: Ring, startNew: bool): (s': Ring)
    requires s.Indexable()
    ensures s'.Indexable()
  {
    if startNew && s.queued != [] then s else Prepare(c, s)
  }

  function Logged(h: History, cmd: Cmd): History {
    h.(log := h.log + [cmd])
  }

  /** Start a new transfer, or tell the controller about TRBs added to the running one. */
  function Kick(s: Ep, startNew: bool, index: nat): (res: (Ep, int))
    requires s.ring.Indexable()
    ensures res.0.ring.Indexable() && res.0.removing == s.removing && res.0.phase == s.phase
  {
    if !s.pullups then (s, ESHUTDOWN)
    else if startNew && s.flags.busy then (s, EBUSY)
    else
      var ring := Loaded(s.config, s.ring, startNew);
      if ring.queued == [] then (s.(ring := ring, flags := s.flags.(xferPending := true)), 0)
      else if startNew then
        (s.(ring := ring, flags := s.flags.(busy := true), resourceIndex := index,
            hist := Logged(s.hist, StartTransfer(ring.queued[0].startSlot))), 0)
      else
        (s.(ring := ring, flags := s.flags.(busy := true), hist := Logged(s.hist, UpdateTransfer)), 0)
  }

  function StopActive(s: Ep): Ep {
    if s.resourceIndex == 0 then s
    else s.(resourceIndex := 0, flags := s.flags.(busy := false, cmdBusy := true),
            hist := Logged(s.hist, EndTransfer))
  }

  const NO_FLAGS := Flags(false, false, false, false, false, false, false)
  const ONLY_ENABLED := NO_FLAGS.(enabled := true)
  const ONLY_PENDING := NO_FLAGS.(xferPending := true)

  // ---------------------------------------------------------------- giving back

  function Finished(r: Request, status: int): Done {
    Done(r.id, if r.status == EINPROGRESS then status else r.status, r.actual)
  }

  function Without(rs: seq<Request>, k: nat): seq<Request>
    requires k < |rs|
  {
    rs[..k] + rs[k + 1..]
  }

  function Given(h: History, r: Request, status: int): History {
    h.(given := h.given + [Finished(r, status)])
  }

  /** Take the k-th queued request off the ring: the dequeue index moves by its TRBs. */
  function TakeOff(s: Ring, k: nat): Ring
    requires k < |s.queued|
  {
    s.(dequeue := RingSlot(s.dequeue, Width(s.queued[k])), queued := Without(s.queued, k))
  }

  function GiveQueued(s: Ep, k: nat, status: int): Ep
    requires k < |s.ring.queued|
  {
    s.(ring := TakeOff(s.ring, k),
       hist := Given(s.hist, s.ring.queued[k], status))
  }

  function GivePending(s: Ep, k: nat, status: int): Ep
    requires k < |s.ring.pending|
  {
    s.(ring := s.ring.(pending := Without(s.ring.pending, k)),
       hist := Given(s.hist, s.ring.pending[k], status))
  }

  // ---------------------------------------------------------------- the gadget driver's calls

  /** The value a call returns.  One path of the queueing function returns a local
      variable it never assigned. */
  datatype Ret = Code(code: int) | Unassigned

  function HideBusy(res: (Ep, int)): (Ep, Ret) {
    (res.0, Code(if res.1 == EBUSY then 0 else res.1))
  }

  /** The request is accepted: it joins the pending list. */
  function Accept(s: Ep, r: Request): Ep {
    s.(ring := s.ring.(pending := s.ring.pending + [r.(actual := 0, status := EINPROGRESS)]),
       hist := s.hist.(accepted := s.hist.accepted + [r.id]))
  }

  /** What queueing does once the request is on the pending list. */
  function AfterAccept(s: Ep, index: nat): (res: (Ep, Ret))
    requires s.ring.Indexable()
    ensures res.0.ring.Indexable() && res.0.removing == s.removing && res.0.phase == s.phase
  {
    var kind := s.config.kind;
    if kind.Bulk? && !s.flags.busy then HideBusy(Kick(s, true, index))
    else if s.flags.xferPending then
      if kind.Isoc? then
        (if s.ring.queued == [] then StopActive(s).(flags := ONLY_ENABLED) else s, Code(0))
      else
        var (s1, ret) := Kick(s, true, index);
        HideBusy((if ret == 0 then s1.(flags := s1.flags.(xferPending := false)) else s1, ret))
    else if kind.Isoc? && s.flags.busy && !s.flags.missedIsoc then HideBusy(Kick(s, false, index))
    else if s.config.streamCapable then HideBusy(Kick(s, true, index))
    else (s, Unassigned)
  }

  function EpQueue(s: Ep, r: Request, index: nat): (res: (Ep, Ret))
    requires s.ring.Indexable()
    ensures res.0.ring.Indexable() && res.0.removing == s.removing && res.0.phase == s.phase
  {
    if !s.config.hasDesc then (s, Code(ESHUTDOWN))
    else if !r.own then (s, Code(EINVAL))
    else if !s.pullups then (s, Code(ESHUTDOWN))
    else AfterAccept(Accept(s, r), index)
  }

  /** The position of a request on a list, or the length of the list. */
  function IndexOf(rs: seq<Request>, id: nat): (k: nat)
    ensures k <= |rs|
    ensures k < |rs| ==> rs[k].id == id
    ensures forall j :: 0 <= j < k ==> rs[j].id != id
  {
    if rs == [] then 0
    else if rs[0].id == id then 0
    else 1 + IndexOf(rs[1..], id)
  }

  function EpDequeue(s: Ep, id: nat): (res: (Ep, int))
    ensures s.ring.Indexable() ==> res.0.ring.Indexable()
    ensures res.0.removing == s.removing && res.0.phase == s.phase
  {
    var k := IndexOf(s.ring.pending, id);
    var j := IndexOf(s.ring.queued, id);
    if k < |s.ring.pending| then (GivePending(s, k, ECONNRESET), 0)
    else if j < |s.ring.queued| then (GiveQueued(StopActive(s), j, ECONNRESET), 0)
    else (s, EINVAL)
  }

  /** Stall the endpoint, or end a stall.  Outside of the protocol's own stalls it is
      refused while anything is listed, and while an IN endpoint is busy. */
  function EpSetHalt(s: Ep, value: bool, protocol: bool): (Ep, int) {
    if s.config.kind.Isoc? then (s, EINVAL)
    else if !value then
      (s.(flags := s.flags.(stall := false, wedge := false), hist := Logged(s.hist, ClearStall)), 0)
    else if !protocol && ((s.config.dirIn && s.flags.busy) || s.ring.queued != [] || s.ring.pending != []) then
      (s, EAGAIN)
    else (s.(flags := s.flags.(stall := true), hist := Logged(s.hist, SetStall)), 0)
  }

  /** A stall only the gadget driver ends. */
  function EpSetWedge(s: Ep): (Ep, int) {
    EpSetHalt(s.(flags := s.flags.(wedge := true)), true, false)
  }

  /** A disable begins: what runs is ended, if anything is on the ring. */
  function BeginDisable(s: Ep): Ep {
    if s.ring.queued == [] then s.(removing := s.removing + [PendingPart])
    else
      var s1 := StopActive(s);
      s1.(removing := s1.removing + [RingPart])
  }

  /** Does the innermost disable under way still have something to give back? */
  predicate GivesBack(s: Ep)
    requires s.removing != []
  {
    (s.removing[|s.removing| - 1].RingPart? && s.ring.queued != []) || s.ring.pending != []
  }

  /** The innermost disable goes on to its next call of a completion callback, or to its
      end: first it gives back what is on the ring, and once that is empty, what is
      pending, whatever the callbacks have put on the ring since. */
  function RemoveStep(s: Ep): Ep
    requires s.removing != []
  {
    var n := |s.removing| - 1;
    if s.removing[n].RingPart? && s.ring.queued != [] then GiveQueued(s, 0, ESHUTDOWN)
    else if s.ring.pending != [] then GivePending(s.(removing := s.removing[..n] + [PendingPart]), 0, ESHUTDOWN)
    else EndDisable(s)
  }

  function EndDisable(s: Ep): Ep
    requires s.removing != []
  {
    var s1 := s.(removing := s.removing[..|s.removing| - 1]);
    var s2 := if s1.flags.stall then EpSetHalt(s1, false, false).0 else s1;
    s2.(config := s2.config.(hasDesc := false, streamCapable := false),
        flags := NO_FLAGS.(cmdBusy := s2.flags.cmdBusy),
        hist := Logged(s2.hist, Disabled))
  }

  /** The pool of a freshly enabled endpoint: cleared, with the link TRB at its end. */
  function EmptyPool(): (pool: seq<Trb>)
    ensures Linked(pool)
    ensures forall j :: 0 <= j < SLOTS ==> pool[j] == ZERO_TRB
  {
    seq(SLOTS, _ => ZERO_TRB) + [LINK_TRB]
  }

  function EpEnable(s: Ep, config: Config): Ep {
    if s.flags.enabled then s
    else s.(config := config.(hasDesc := true),
            flags := s.flags.(enabled := true, cmdBusy := false),
            ring := s.ring.(enqueue := 0, dequeue := 0, pool := EmptyPool()))
  }

  // ---------------------------------------------------------------- transfer events

  datatype WalkResult = WalkResult(done: bool, actual: nat, missedIsoc: bool)

  /** Read back one TRB: the whole request length, less what is left of this TRB, is
      added to the byte count.  A short packet, or a mark the event speaks of, ends it. */
  function ReadTrb(dirIn: bool, trb: Trb, length: nat, e: Event, actual: nat, missedIsoc: bool): WalkResult {
    WalkResult(
      || (!dirIn && trb.count != 0 && e.short)
      || (e.lst && (trb.lst || trb.hwo))
      || (e.ioc && trb.ioc),
      (actual + length - trb.count) % U32,
      if dirIn then trb.count != 0 && (trb.sts == 1 || missedIsoc) else missedIsoc)
  }

  /** Read back the TRBs of a request from the i-th on, until one of them ends the event. */
  function WalkTrbs(dirIn: bool, pool: seq<Trb>, r: Request, i: nat, e: Event,
                    actual: nat, missedIsoc: bool): WalkResult
    requires |pool| == TRB_NUM && i < Width(r)
    decreases Width(r) - i
  {
    var one := ReadTrb(dirIn, pool[CleanupSlot(r.startSlot, i)], r.length, e, actual, missedIsoc);
    if one.done || i + 1 == Width(r) then one
    else WalkTrbs(dirIn, pool, r, i + 1, e, one.actual, one.missedIsoc)
  }

  /** One turn of the clean-up loop: the first queued request is read back and given
      back whole, however few of its TRBs were looked at. */
  function CleanStep(s: Ep): (s': Ep)
    requires s.ring.Indexable() && s.phase.Cleaning?
    ensures s'.ring.Indexable() && s'.removing == s.removing
  {
    if s.ring.queued == [] then s.(phase := Finishing(s.phase.complete, true))
    else
      var r := s.ring.queued[0];
      var walk := WalkTrbs(s.config.dirIn, s.ring.pool, r, 0, s.phase.event, r.actual, s.flags.missedIsoc);
      var s1 := s.(ring := s.ring.(queued := [r.(actual := walk.actual)] + s.ring.queued[1..]),
                   flags := s.flags.(missedIsoc := walk.missedIsoc));
      var s2 := GiveQueued(s1, 0, if s.phase.event.busErr then ECONNRESET else 0);
      if walk.done then s2.(phase := Finishing(s.phase.complete, false)) else s2
  }

  /** An isochronous endpoint that ran out of prepared requests. */
  function IsocUnderrun(s: Ep): Ep {
    if s.ring.pending == [] then s.(flags := ONLY_PENDING)
    else StopActive(s).(flags := ONLY_ENABLED)
  }

  /** What follows the clean-up loop: the isochronous special case, then the busy flag. */
  function Settle(s: Ep): Ep
    requires s.phase.Finishing?
  {
    var s1 := if !s.phase.ranDry && s.config.hasDesc && s.pullups && s.config.kind.Isoc? && s.ring.queued == []
              then IsocUnderrun(s) else s;
    if !s.config.hasDesc || s.phase.complete || s.config.kind.Isoc?
    then s1.(phase := Idle, flags := s1.flags.(busy := false))
    else s1.(phase := Idle)
  }

  function FinishStep(s: Ep, index: nat): (s': Ep)
    requires s.ring.Indexable() && s.phase.Finishing?
    ensures s'.ring.Indexable() && s'.removing == s.removing
  {
    var s1 := Settle(s);
    if !s1.config.hasDesc || !s1.pullups || s1.config.kind.Isoc? then s1
    else Kick(s1, s.phase.complete, index).0
  }

  function NotReady(s: Ep, active: bool, index: nat): (s': Ep)
    requires s.ring.Indexable()
    ensures s'.ring.Indexable() && s'.removing == s.removing
  {
    if s.config.kind.Isoc? then
      if s.ring.pending == [] then s.(flags := s.flags.(xferPending := true)) else Kick(s, true, index).0
    else if s.config.hasDesc then Kick(s, !active, index).0
    else s
  }

  function RetireTrb(s: Ring, slot: nat, count: nat, sts: nat): Ring
    requires s.Indexable()
  {
    if slot < SLOTS && s.pool[slot].hwo && count < 0x100_0000
    then s.(pool := s.pool[slot := s.pool[slot].(hwo := false, count := count, sts := sts)])
    else s
  }

  // ---------------------------------------------------------------- steps and runs

  datatype Action =
    | Queue(req: Request, index: nat)
    | Cancel(id: nat)
    | Halt(value: bool)
    | Wedge
    | Disable
    | Remove
    | Enable(config: Config)
    | Pullup(on: bool)
    | XferComplete(event: Event)
    | XferInProgress(event: Event)
    | Clean
    | Finish(index: nat)
    | XferNotReady(active: bool, index: nat)
    | CommandComplete
    | Retire(slot: nat, count: nat, sts: nat)

  /** Can the action happen now?  A transfer event is taken up only when no other is
      being handled and the endpoint is enabled; the gadget driver may call, and the
      controller may retire any TRB it owns, at any time. */
  predicate Enabled(s: Ep, a: Action) {
    match a
    case XferComplete(_) => s.phase.Idle? && s.flags.enabled
    case XferInProgress(_) => s.phase.Idle? && s.flags.enabled
    case XferNotReady(_, _) => s.phase.Idle? && s.flags.enabled
    case CommandComplete => s.phase.Idle?
    case Halt(_) => s.config.hasDesc
    case Wedge => s.config.hasDesc
    case Remove => s.removing != []
    case Clean => s.phase.Cleaning?
    case Finish(_) => s.phase.Finishing?
    case _ => true
  }

  function Step(s: Ep, a: Action): (s': Ep)
    requires s.ring.Indexable() && Enabled(s, a)
    ensures s'.ring.Indexable()
  {
    match a
    case Queue(r, index) => EpQueue(s, r, index).0
    case Cancel(id) => EpDequeue(s, id).0
    case Halt(value) => EpSetHalt(s, value, false).0
    case Wedge => EpSetWedge(s).0
    case Disable => if s.flags.enabled then RemoveStep(BeginDisable(s)) else s
    case Remove => RemoveStep(s)
    case Enable(config) => EpEnable(s, config)
    case Pullup(on) => s.(pullups := on)
    case XferComplete(e) =>
      var s1 := s.(resourceIndex := 0, hist := Logged(s.hist, XferCompleteSeen));
      if s.config.kind.Isoc? then s1 else s1.(phase := Cleaning(e, true))
    case XferInProgress(e) => s.(phase := Cleaning(e, false))
    case Clean => CleanStep(s)
    case Finish(index) => FinishStep(s, index)
    case XferNotReady(active, index) => NotReady(s, active, index)
    case CommandComplete => s.(flags := s.flags.(cmdBusy := false))
    case Retire(slot, count, sts) => s.(ring := RetireTrb(s.ring, slot, count, sts))
  }

  /** A disabled endpoint with nothing listed, before anything has happened. */
  function Start(): (s: Ep)
    ensures s.ring.Indexable()
  {
    Ep(Config(Bulk, false, false, false), Ring(0, 0, seq(TRB_NUM, _ => ZERO_TRB), [], []), NO_FLAGS, 0, false,
       Idle, [], History([], [], []))
  }

  // ---------------------------------------------------------------- with given callbacks

  /** What a completion callback may call here. */
  datatype GadgetCall =
    | Queueing(req: Request, index: nat)
    | Cancelling(id: nat)
    | Halting(value: bool)
    | Wedging

  function OneCall(s: Ep, c: GadgetCall): (s': Ep)
    requires s.ring.Indexable()
    ensures s'.ring.Indexable() && s'.removing == s.removing && s'.phase == s.phase
  {
    match c
    case Queueing(r, index) => EpQueue(s, r, index).0
    case Cancelling(id) => EpDequeue(s, id).0
    case Halting(value) => if s.config.hasDesc then EpSetHalt(s, value, false).0 else s
    case Wedging => if s.config.hasDesc then EpSetWedge(s).0 else s
  }

  function Calls(s: Ep, cs: seq<GadgetCall>): (s': Ep)
    requires s.ring.Indexable()
    ensures s'.ring.Indexable() && s'.removing == s.removing && s'.phase == s.phase
    decreases |cs|
  {
    if cs == [] then s else Calls(OneCall(s, cs[0]), cs[1..])
  }

  /** The innermost disable run to its end, the k-th completion callback making the calls
      of css[k]. */
  function Removed(s: Ep, css: seq<seq<GadgetCall>>): (s': Ep)
    requires s.ring.Indexable() && s.removing != []
    ensures s'.ring.Indexable()
    decreases |css|, |s.ring.queued| + |s.ring.pending|
  {
    if !GivesBack(s) then EndDisable(s)
    else if css == [] then Removed(RemoveStep(s), [])
    else Removed(Calls(RemoveStep(s), css[0]), css[1..])
  }

  function EpDisable(s: Ep, css: seq<seq<GadgetCall>>): (s': Ep)
    requires s.ring.Indexable()
    ensures s'.ring.Indexable()
  {
    if s.flags.enabled then Removed(BeginDisable(s), css) else s
  }

  /** The clean-up loop run to its end likewise. */
  function Drained(s: Ep, css: seq<seq<GadgetCall>>): (s': Ep)
    requires s.ring.Indexable() && s.phase.Cleaning?
    ensures s'.ring.Indexable() && s'.phase.Finishing? && s'.phase.complete == s.phase.complete
    decreases |css|, |s.ring.queued|
  {
    if s.ring.queued == [] then CleanStep(s)
    else
      var s1 := CleanStep(s);
      var s2 := if css == [] then s1 else Calls(s1, css[0]);
      if !s2.phase.Cleaning? then s2
      else if css == [] then Drained(s2, [])
      else Drained(s2, css[1..])
  }
}
