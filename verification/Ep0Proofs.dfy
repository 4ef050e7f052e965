/**
 What every run of the control endpoint keeps: the stages started for each transfer are
 those of section 8.5.3 of USB 2.0, one endpoint is busy at a time, one request listed.
 */
module Ep0Proofs {
  import opened Bounce
  import opened Ep0Model

  predicate IsSetup(st: Stage) {
    st.kind.SETUP? && st.ep.Out? && st.len == 8
  }

  /** The stages before the status stage: the SETUP, and for a three-stage transfer the
      data stage in the announced direction, with at most one zero-length packet more. */
  predicate BeforeStatus(threeStage: bool, expectIn: bool, stages: seq<Stage>) {
    var ep := if expectIn then In else Out;
    && |stages| >= 1 && IsSetup(stages[0])
    && (!threeStage ==> |stages| == 1)
    && (threeStage ==>
          && (|stages| == 2 || |stages| == 3)
          && stages[1].kind.DATA? && stages[1].ep == ep
          && (|stages| == 3 ==> stages[2].kind.DATA? && stages[2].ep == ep && stages[2].len == 0))
  }

  /** A whole transfer: SETUP STATUS2, or SETUP DATA (DATA of length 0) STATUS3. */
  predicate Whole(threeStage: bool, expectIn: bool, stages: seq<Stage>) {
    var n := |stages| - 1;
    && n >= 1
    && BeforeStatus(threeStage, expectIn, stages[..n])
    && stages[n].kind == (if threeStage then STATUS3 else STATUS2) && stages[n].len == 0
  }

  /** A transfer cut short anywhere. */
  predicate Part(threeStage: bool, expectIn: bool, stages: seq<Stage>) {
    || (|stages| == 1 && IsSetup(stages[0]))
    || BeforeStatus(threeStage, expectIn, stages)
    || Whole(threeStage, expectIn, stages)
  }

  /** How the request of a transfer goes with its stages. */
  predicate Fits(threeStage: bool, story: Story) {
    && (story.returned ==> story.queued)
    && (|story.stages| == 1 ==> !story.returned)
    && (threeStage && |story.stages| >= 2 ==> story.queued)
    && (threeStage && |story.stages| >= 3 ==> story.returned)
  }

  /** A STALL is sent exactly when no request is waiting. */
  predicate StallFits(story: Story) {
    story.stalled <==> !story.queued || story.returned
  }

  predicate Proper(t: Transfer) {
    match t
    case Completed(three, expectIn, story) =>
      Whole(three, expectIn, story.stages) && Fits(three, story) && !story.stalled
    case Cut(three, expectIn, story) =>
      Part(three, expectIn, story.stages) && Fits(three, story) && StallFits(story)
  }

  /** The phases of a transfer, and what goes with each. */
  predicate InStage(d: Dev) {
    var c, p, now := d.ctl, d.pipe, d.log.current.stages;
    match c.phase
    case SetupPhase =>
      && |now| == 1 && IsSetup(now[0]) && !p.busyIn
      && (p.busyOut ==> c.next == Complete && d.list == [])
      && (!p.busyOut ==> c.next == (if c.threeStage then NrdyData else NrdyStatus))
      && (!p.busyOut ==> (d.gadget.asked <==> d.list != []))
    case DataPhase =>
      && c.threeStage && d.gadget.asked && BeforeStatus(true, c.expectIn, now)
      && !p.Busy(c.StatusEp())
      && (p.Busy(c.DataEp()) ==> c.next == Complete && (|now| == 2 <==> d.list != []))
      && (!p.Busy(c.DataEp()) ==> c.next == NrdyStatus && d.list == [])
    case StatusPhase =>
      && !d.gadget.inSetup
      && (!p.Quiet() ==> c.next == Complete && Whole(c.threeStage, c.expectIn, now))
      && (p.Quiet() ==>
            && c.next == NrdyStatus && c.delayed && d.list == [] && BeforeStatus(c.threeStage, c.expectIn, now)
            && (c.threeStage ==> d.gadget.asked))
  }

  /** The transfer under way: one request listed at most, one endpoint busy at most. */
  predicate Now(d: Dev) {
    && !(d.pipe.busyOut && d.pipe.busyIn)
    && !d.pipe.xferPending
    && (d.pipe.busyOut ==> d.pipe.heldOut) && (d.pipe.busyIn ==> d.pipe.heldIn)
    && (d.pipe.bounced ==> !d.ctl.expectIn)
    && Told(d)
    && InStage(d)
  }

  /** The request listed is the one the story tells of, and waits for what is left of it. */
  predicate Told(d: Dev) {
    && |d.list| <= 1
    && (d.list != [] <==> d.log.current.queued && !d.log.current.returned)
    && (d.pipe.bounced ==> d.list != [])
    && (d.log.current.queued ==> d.gadget.asked)
    && !d.log.current.stalled
    && Fits(d.ctl.threeStage, d.log.current)
  }

  ghost predicate AllProper(past: seq<Transfer>) {
    forall i :: 0 <= i < |past| ==> Proper(past[i])
  }

  /** The SETUP stage of a transfer is armed, and nothing else has happened in it. */
  predicate Fresh(d: Dev) {
    Now(d) && d.ctl.phase.SetupPhase? && d.pipe.busyOut
  }

  /** Between a transfer that was cut and the SETUP stage of the next. */
  predicate Between(d: Dev) {
    d.log.current == UNTOLD && d.list == [] && d.pipe.Quiet() && !d.pipe.xferPending && !d.pipe.bounced
  }

  /** The status stage is over, and the transfer not yet counted as completed. */
  predicate StatusDone(d: Dev) {
    && d.ctl.phase.StatusPhase? && d.list == [] && d.pipe.Quiet() && !d.pipe.xferPending && !d.gadget.inSetup
    && Told(d) && Proper(Completed(d.ctl.threeStage, d.ctl.expectIn, d.log.current))
  }

  /** Data has gone through, and its request has been given back. */
  predicate DataDelivered(d: Dev, ep: PhysEp) {
    && Now(d) && d.ctl.phase.DataPhase? && d.list == [] && d.pipe.Quiet() && ep == d.ctl.DataEp()
    && |d.log.current.stages| == 2 && d.log.current.returned && !d.gadget.inSetup
  }

  /** A completion callback runs: what it was called after, or what a halt from it has made
      of that. */
  predicate Waiting(d: Dev, k: Cont) {
    && d.list == [] && d.gadget.asked
    && match k
       case AfterRestart => Fresh(d) || Between(d)
       case AfterData(ep, r) => DataDelivered(d, ep) || (Fresh(d) && !(ep.In? && ZeroDue(d.maxPacket, r)))
       case AfterStatus(_) => StatusDone(d) || Fresh(d)
  }

  ghost predicate Inv(d: Dev) {
    && AllProper(d.log.past)
    && |d.calls| <= 1
    && if d.calls == [] then Now(d) else Waiting(d, d.calls[0])
  }

  lemma StatusMakesWhole(three: bool, expectIn: bool, stages: seq<Stage>, st: Stage)
    requires BeforeStatus(three, expectIn, stages)
    requires st.kind == (if three then STATUS3 else STATUS2) && st.len == 0
    ensures Whole(three, expectIn, stages + [st])
  {
    assert (stages + [st])[..|stages|] == stages;
  }

  /** The stages started so far are part of a proper transfer. */
  predicate CurrentOk(d: Dev) {
    Part(d.ctl.threeStage, d.ctl.expectIn, d.log.current.stages) && Told(d)
  }

  lemma NowIsPart(d: Dev)
    requires Now(d)
    ensures CurrentOk(d)
  {
  }

  lemma ProperAppend(past: seq<Transfer>, t: Transfer)
    requires AllProper(past) && Proper(t)
    ensures AllProper(past + [t])
  {
  }

  /** The next SETUP stage armed, or armed already. */
  lemma OutStartFresh(d: Dev)
    requires Between(d) || Fresh(d)
    ensures Fresh(OutStart(d)) && OutStart(d).log.past == d.log.past
    ensures OutStart(d).calls == d.calls && OutStart(d).gadget == d.gadget && OutStart(d).maxPacket == d.maxPacket
  {
  }

  lemma OverProper(d: Dev, t: Transfer)
    requires AllProper(d.log.past) && (d.log.current.stages != [] ==> Proper(t))
    ensures AllProper(Over(d, t).log.past)
    ensures |Over(d, t).log.past| == |d.log.past| + if d.log.current.stages == [] then 0 else 1
  {
    if d.log.current.stages != [] {
      ProperAppend(d.log.past, t);
    }
  }

  /** What can be restarted: a transfer under way, or none. */
  predicate Restartable(d: Dev) {
    Between(d) || CurrentOk(d)
  }

  /** The stall is asked for before anything is given back. */
  lemma CutIsProper(d: Dev)
    requires CurrentOk(d)
    ensures var d1 := SetHalt(d.(pipe := d.pipe.(busyIn := false)), true, false).0;
            && Proper(Cut(d.ctl.threeStage, d.ctl.expectIn, d1.log.current))
            && d1.list == d.list && d1.pipe.bounced == d.pipe.bounced && d1.log.past == d.log.past
  {
  }

  /** A restart with nothing listed. */
  lemma RestartFresh(d: Dev)
    requires Restartable(d) && AllProper(d.log.past) && d.list == []
    ensures var d' := Restart(d);
            && Fresh(d') && AllProper(d'.log.past)
            && |d'.log.past| == |d.log.past| + (if d.log.current.stages == [] then 0 else 1)
            && d'.calls == d.calls && d'.gadget == d.gadget && d'.maxPacket == d.maxPacket
  {
    var d1 := SetHalt(d.(pipe := d.pipe.(busyIn := false)), true, false).0;
    var d2 := d1.(pipe := d1.pipe.(busyOut := false, stall := false, xferPending := false),
                  ctl := d1.ctl.(delayed := false));
    var cut := Cut(d.ctl.threeStage, d.ctl.expectIn, d1.log.current);
    if CurrentOk(d) {
      CutIsProper(d);
    }
    OverProper(d2, cut);
    assert Between(Over(d2, cut));
    OutStartFresh(Over(d2, cut));
  }

  /** A restart that gives a request back first. */
  lemma RestartWaits(d: Dev)
    requires CurrentOk(d) && AllProper(d.log.past) && d.list != [] && d.calls == []
    ensures Inv(Restart(d))
  {
    var d1 := SetHalt(d.(pipe := d.pipe.(busyIn := false)), true, false).0;
    var d2 := d1.(pipe := d1.pipe.(busyOut := false, stall := false, xferPending := false),
                  ctl := d1.ctl.(delayed := false));
    CutIsProper(d);
    OverProper(Giveback(d2), Cut(d.ctl.threeStage, d.ctl.expectIn, d1.log.current));
    assert Between(Restart(d));
  }

  lemma RestartKeeps(d: Dev)
    requires CurrentOk(d) && AllProper(d.log.past) && d.calls == []
    ensures Inv(Restart(d))
  {
    if d.list == [] {
      RestartFresh(d);
    } else {
      RestartWaits(d);
    }
  }

  lemma DoStatusKeeps(d: Dev, ep: PhysEp)
    requires d.pipe.Quiet() && !d.pipe.xferPending && !d.gadget.inSetup && d.ctl.phase.StatusPhase?
    requires (d.pipe.bounced ==> !d.ctl.expectIn) && Told(d) && (d.ctl.threeStage ==> d.list == [])
    requires BeforeStatus(d.ctl.threeStage, d.ctl.expectIn, d.log.current.stages)
    ensures Now(DoStatus(d, ep)) && DoStatus(d, ep).log.past == d.log.past
  {
    var st := Stage(if d.ctl.threeStage then STATUS3 else STATUS2, ep, 0, d.pipe.Slot(ep));
    StatusMakesWhole(d.ctl.threeStage, d.ctl.expectIn, d.log.current.stages, st);
  }

  lemma QueueKeeps(d: Dev, r: Request)
    requires Inv(d) && Serving(d) && !d.gadget.asked
    ensures Inv(Queue(d, r))
  {
    assert d.calls == [];
    if d.ctl.phase.StatusPhase? {
      DoStatusKeeps(d.(list := [r], gadget := d.gadget.(asked := true), ctl := d.ctl.(delayed := false),
                       log := d.log.(current := d.log.current.(queued := true))),
                    d.ctl.StatusEp());
    }
  }

  lemma StatusCompletes(d: Dev, ep: PhysEp, c: Completion)
    requires Inv(d) && !d.gadget.inSetup && d.calls == [] && d.pipe.Busy(ep) && d.ctl.phase.StatusPhase?
    ensures Inv(CompleteStatus(d.(pipe := d.pipe.Ended(ep)), c))
  {
    StatusGivesBack(d, ep);
    if d.list == [] {
      FinishStatusKeeps(d.(pipe := d.pipe.Ended(ep)), c.badTestMode);
    }
  }

  lemma StatusGivesBack(d: Dev, ep: PhysEp)
    requires Now(d) && d.pipe.Busy(ep) && d.ctl.phase.StatusPhase?
    ensures var d1 := Giveback(d.(pipe := d.pipe.Ended(ep)));
            StatusDone(d1) && d1.log.past == d.log.past && d1.calls == d.calls
    ensures d.list != [] ==> d.gadget.asked
  {
  }

  lemma FinishStatusKeeps(d: Dev, badTestMode: bool)
    requires AllProper(d.log.past) && d.calls == []
    requires StatusDone(d) || Fresh(d)
    ensures Inv(FinishStatus(d, badTestMode))
  {
    if badTestMode {
      StatusDoneRestartable(d);
      RestartFresh(d);
    } else if d.ctl.phase.StatusPhase? {
      var t := Completed(d.ctl.threeStage, d.ctl.expectIn, d.log.current);
      OverProper(d, t);
      OutStartFresh(Over(d, t));
    } else {
      OutStartFresh(d);
    }
  }

  lemma StatusDoneRestartable(d: Dev)
    requires StatusDone(d) || Fresh(d)
    ensures CurrentOk(d) && d.list == []
  {
  }

  lemma DataCompletes(d: Dev, ep: PhysEp, c: Completion)
    requires Inv(d) && !d.gadget.inSetup && d.calls == [] && d.pipe.Busy(ep) && d.ctl.phase.DataPhase?
    ensures Inv(CompleteData(d.(pipe := d.pipe.Ended(ep)), ep, c))
  {
    NowIsPart(d);
    var d1 := d.(pipe := d.pipe.Ended(ep), ctl := d.ctl.(next := NrdyStatus));
    if d.list != [] && !c.setupPending {
      var d2 := if d.pipe.bounced && d.list[0].length > BOUNCE_SIZE then d1.(pipe := d1.pipe.(enqueue := 0)) else d1;
      RestartKeeps(d2);
      DataDoneKeeps(d2, ep, d.list[0]);
    }
  }

  /** The request of a data stage that went through is given back. */
  lemma DataDoneKeeps(d: Dev, ep: PhysEp, r: Request)
    requires |d.list| == 1 && d.pipe.Quiet() && !d.pipe.xferPending && d.ctl.phase.DataPhase? && Told(d)
    requires d.ctl.threeStage && d.ctl.next == NrdyStatus && d.gadget.asked && ep == d.ctl.DataEp()
    requires !d.gadget.inSetup && d.calls == [] && AllProper(d.log.past)
    requires BeforeStatus(true, d.ctl.expectIn, d.log.current.stages) && |d.log.current.stages| == 2
    ensures Inv(DataDone(d, ep, r))
  {
    assert DataDelivered(DataDone(d, ep, r), ep);
  }

  /** And its callback returns, without or after a halt from it. */
  lemma FinishDataKeeps(d: Dev, ep: PhysEp, r: Request)
    requires AllProper(d.log.past) && d.calls == []
    requires DataDelivered(d, ep) || (Fresh(d) && !(ep.In? && ZeroDue(d.maxPacket, r)))
    ensures Inv(FinishData(d, ep, r))
  {
  }

  lemma CompletesKeeps(d: Dev, ep: PhysEp, c: Completion, ctrl: Ctrl, connected: bool)
    requires Inv(d) && !d.gadget.inSetup && d.calls == [] && d.pipe.Busy(ep)
    ensures Inv(XferComplete(d, ep, c, ctrl, connected))
  {
    match d.ctl.phase
    case SetupPhase => RestartKeeps(d.(pipe := d.pipe.Ended(ep)));
    case DataPhase => DataCompletes(d, ep, c);
    case StatusPhase => StatusCompletes(d, ep, c);
  }

  lemma StatusNotReadyKeeps(d: Dev, ep: PhysEp)
    requires Inv(d) && !d.gadget.inSetup && d.calls == []
    ensures Inv(NotReadyStatus(d, ep))
  {
    if d.ctl.next == NrdyStatus && !(d.ctl.delayed && d.list == []) {
      DoStatusKeeps(d.(ctl := d.ctl.(phase := StatusPhase, delayed := false)), ep);
    }
  }

  lemma DataNotReadyKeeps(d: Dev, ep: PhysEp)
    requires Inv(d) && d.calls == []
    ensures Inv(NotReadyData(d, ep))
  {
    NowIsPart(d);
    RestartKeeps(EndData(d, d.ctl.DataEp()));
  }

  lemma ReturnsKeeps(d: Dev, ret: SetupResult)
    requires Inv(d) && d.gadget.inSetup && d.calls == []
    ensures Inv(SetupReturns(d, ret))
  {
    NowIsPart(d);
    if ret.Failed? {
      RestartKeeps(d.(gadget := d.gadget.(inSetup := false)));
    }
  }

  /** The gadget driver halts the endpoint, from a completion callback or not. */
  lemma HaltKeeps(d: Dev)
    requires Inv(d) && Spares(d, GadgetHalts)
    ensures Inv(Restart(d))
  {
    if d.calls == [] {
      NowIsPart(d);
      RestartKeeps(d);
    } else {
      WaitingRestartable(d);
      RestartFresh(d);
    }
  }

  lemma WaitingRestartable(d: Dev)
    requires Inv(d) && d.calls != []
    ensures Restartable(d) && d.list == []
    ensures !Fresh(d) && !d.calls[0].AfterRestart? ==> d.log.current.stages != []
    ensures Fresh(d) ==> d.log.current.stages != []
  {
  }

  lemma CallReturnsKeeps(d: Dev)
    requires Inv(d) && d.calls != []
    ensures Inv(CallReturns(d))
  {
    var k, d1 := d.calls[0], d.(calls := []);
    assert d.calls == [k] && d.calls[..0] == [];
    match k
    case AfterData(ep, r) => FinishDataKeeps(d1, ep, r);
    case AfterStatus(badTestMode) => FinishStatusKeeps(d1, badTestMode);
    case AfterRestart => OutStartFresh(d1);
  }

  /** The gadget driver does not halt the endpoint from the callback of an IN data stage
      behind which a zero-length packet is due. */
  predicate Spares(d: Dev, a: Action) {
    a.GadgetHalts? && d.calls != [] ==>
      match d.calls[|d.calls| - 1]
      case AfterData(ep, r) => !(ep.In? && ZeroDue(d.maxPacket, r))
      case AfterStatus(_) => true
      case AfterRestart => true
  }

  /** What completes is what the driver has started last, not a transfer left over. */
  predicate Own(d: Dev, a: Action) {
    a.Completes? ==> d.pipe.Busy(a.ep)
  }

  lemma StepKeeps(d: Dev, a: Action)
    requires Inv(d) && Enabled(d, a) && Spares(d, a) && Own(d, a)
    ensures Inv(Step(d, a))
  {
    match a
    case Completes(ep, c, ctrl, connected) => CompletesKeeps(d, ep, c, ctrl, connected);
    case DataNotReady(ep) => DataNotReadyKeeps(d, ep);
    case StatusNotReady(ep) => StatusNotReadyKeeps(d, ep);
    case GadgetQueues(r) => QueueKeeps(d, r);
    case GadgetHalts => HaltKeeps(d);
    case Returns(ret) => ReturnsKeeps(d, ret);
    case CallbackReturns => CallReturnsKeeps(d);
  }

  ghost function Tame(): (Dev, Action) -> bool {
    (d, a) => Spares(d, a) && Own(d, a)
  }

  lemma {:induction false} RunKeeps(d: Dev, acts: seq<Action>)
    requires Inv(d) && IsRun(d, acts, Tame())
    ensures Inv(Run(d, acts, Tame()))
    decreases |acts|
  {
    if acts != [] {
      StepKeeps(d, acts[0]);
      RunKeeps(Step(d, acts[0]), acts[1..]);
    }
  }

  /** Over every run from the start: each transfer, completed or cut short, has started the
      stages of section 8.5.3 of USB 2.0 in order, the current one, if there is one, a part
      of them; at most one of the two physical endpoints is busy, and at most one request
      is listed. */
  lemma StagesOfEveryTransfer(maxPacket: PacketSize, acts: seq<Action>)
    requires IsRun(Start(maxPacket), acts, Tame())
    ensures var d := Run(Start(maxPacket), acts, Tame());
            && (forall i :: 0 <= i < |d.log.past| ==> Proper(d.log.past[i]))
            && (d.log.current.stages == [] || Part(d.ctl.threeStage, d.ctl.expectIn, d.log.current.stages))
            && (d.log.current.stages == [] ==> d.calls == [AfterRestart])
            && !(d.pipe.busyOut && d.pipe.busyIn) && |d.list| <= 1
  {
    RunKeeps(Start(maxPacket), acts);
    InvIsPart(Run(Start(maxPacket), acts, Tame()));
  }

  lemma InvIsPart(d: Dev)
    requires Inv(d)
    ensures Restartable(d) && (d.log.current.stages == [] ==> d.calls == [AfterRestart])
    ensures !(d.pipe.busyOut && d.pipe.busyIn) && |d.list| <= 1
  {
    if d.calls == [] {
      NowIsPart(d);
    } else {
      assert d.calls == [d.calls[0]];
    }
  }

  /** The one kind of halt left out breaks that: with the callback's return the zero-length
      packet is started in the next transfer, and both endpoints are busy.  It does so
      exactly then. */
  lemma HaltBreaksExactly(d: Dev)
    requires Inv(d) && |d.calls| == 1 && d.calls[0].AfterData? && DataDelivered(d, d.calls[0].ep)
    ensures Restart(d).calls == d.calls
    ensures var d' := CallReturns(Restart(d));
            && (Inv(d') <==> Spares(d, GadgetHalts))
            && (d'.pipe.busyOut && d'.pipe.busyIn <==> !Spares(d, GadgetHalts))
            && (!Spares(d, GadgetHalts) ==>
                  |d'.log.current.stages| == 2 && IsSetup(d'.log.current.stages[0])
                  && d'.log.current.stages[1].kind.DATA? && d'.log.current.stages[1].len == 0)
  {
    NowIsPart(d);
    RestartFresh(d);
    if Spares(d, GadgetHalts) {
      HaltKeeps(d);
      CallReturnsKeeps(Restart(d));
    }
  }

  // ---------------------------------------------------------------- concrete runs

  ghost function Anyhow(): (Dev, Action) -> bool {
    (d, a) => true
  }

  /** The actions lead from one state to the other. */
  ghost predicate Leads(d: Dev, acts: seq<Action>, d': Dev) {
    IsRun(d, acts, Anyhow()) && Run(d, acts, Anyhow()) == d'
  }

  lemma {:induction false} LeadsOn(d: Dev, acts: seq<Action>, d': Dev, a: Action)
    requires Leads(d, acts, d') && Enabled(d', a)
    ensures Leads(d, acts + [a], Step(d', a))
    decreases |acts|
  {
    if acts == [] {
      assert [a][1..] == [];
    } else {
      LeadsOn(Step(d, acts[0]), acts[1..], d', a);
      assert (acts + [a])[1..] == acts[1..] + [a];
    }
  }

  /** One more action of a list. */
  lemma LeadsNext(d0: Dev, acts: seq<Action>, k: nat, d: Dev) returns (d': Dev)
    requires k < |acts| && Leads(d0, acts[..k], d) && Enabled(d, acts[k])
    ensures d' == Step(d, acts[k]) && Leads(d0, acts[..k + 1], d')
  {
    d' := Step(d, acts[k]);
    assert acts[..k + 1] == acts[..k] + [acts[k]];
    LeadsOn(d0, acts[..k], d, acts[k]);
  }

  /** A run that gets there: a reply of one full packet with a zero-length packet due. */
  lemma HaltBreaksByRun(maxPacket: PacketSize, id: nat)
    ensures var out := Completion(false, 0, false);
            var get := Ctrl(maxPacket + 1, true);
            var acts := [Completes(Out, out, get, true), GadgetQueues(Request(id, maxPacket, true)), Returns(Handled),
                         Completes(In, out, get, true), GadgetHalts, CallbackReturns];
            exists d :: Leads(Start(maxPacket), acts, d) && d.pipe.busyOut && d.pipe.busyIn
  {
    var out := Completion(false, 0, false);
    var get := Ctrl(maxPacket + 1, true);
    var acts := [Completes(Out, out, get, true), GadgetQueues(Request(id, maxPacket, true)), Returns(Handled),
                 Completes(In, out, get, true), GadgetHalts, CallbackReturns];
    var d0 := Start(maxPacket);
    var d1 := LeadsNext(d0, acts, 0, d0);
    var d2 := LeadsNext(d0, acts, 1, d1);
    var d3 := LeadsNext(d0, acts, 2, d2);
    var d4 := LeadsNext(d0, acts, 3, d3);
    assert d4.ctl.phase.DataPhase? && d4.list == [] && d4.pipe.Quiet() && d4.calls == [AfterData(In, d3.list[0])];
    var d6 := HaltByRun(acts, d0, d4, d3.list[0]);
    assert acts[..6] == acts;
  }

  lemma HaltByRun(acts: seq<Action>, d0: Dev, d: Dev, r: Request) returns (d': Dev)
    requires |acts| == 6 && acts[4] == GadgetHalts && acts[5] == CallbackReturns && Leads(d0, acts[..4], d)
    requires d.calls == [AfterData(In, r)] && ZeroDue(d.maxPacket, r) && d.list == [] && d.pipe.Quiet()
    ensures Leads(d0, acts[..6], d') && d'.pipe.busyOut && d'.pipe.busyIn
  {
    var d5 := LeadsNext(d0, acts, 4, d);
    d' := LeadsNext(d0, acts, 5, d5);
  }

  /** Over every run from the start, which of the transfers cut short were answered with a
      STALL.  One cut before its second stage: exactly if no request had been queued for
      it.  A three-stage transfer cut in or right after its first data stage: exactly if
      the request had been given back by then; cut later: always.  A two-stage transfer
      cut in its status stage: exactly if no request is waiting for that.  None of those
      that completed. */
  lemma StallsOfEveryTransfer(maxPacket: PacketSize, acts: seq<Action>, i: nat)
    requires IsRun(Start(maxPacket), acts, Tame()) && i < |Run(Start(maxPacket), acts, Tame()).log.past|
    ensures var t := Run(Start(maxPacket), acts, Tame()).log.past[i];
            var n := |t.story.stages|;
            && n >= 1
            && (t.Completed? ==> !t.story.stalled)
            && (t.Cut? && n == 1 ==> (t.story.stalled <==> !t.story.queued))
            && (t.Cut? && n == 2 && t.threeStage ==> (t.story.stalled <==> t.story.returned))
            && (t.Cut? && n >= 3 && t.threeStage ==> t.story.stalled)
            && (t.Cut? && n == 2 && !t.threeStage ==> (t.story.stalled <==> !t.story.queued || t.story.returned))
  {
    StagesOfEveryTransfer(maxPacket, acts);
    assert Proper(Run(Start(maxPacket), acts, Tame()).log.past[i]);
  }
}
