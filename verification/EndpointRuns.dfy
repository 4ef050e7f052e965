/**
 Whole runs of an endpoint: any sequence of calls by the gadget driver, events, and
 TRBs retired by the controller, in any order.
 */
module EndpointRuns {
  import opened TrbRing
  import opened EndpointModel
  import opened EndpointRing

  /** Can all actions of a run happen, one after the other, and does each satisfy
      `guard` in the state it happens in?  */
  ghost predicate RunIn(s: Ep, acts: seq<Action>, guard: (Ep, Action) -> bool)
    requires s.ring.Indexable()
    decreases |acts|
  {
    acts != [] ==>
      && Enabled(s, acts[0])
      && guard(s, acts[0])
      && RunIn(Step(s, acts[0]), acts[1..], guard)
  }

  /** The state a run leads to. */
  ghost function After(s: Ep, acts: seq<Action>, guard: (Ep, Action) -> bool): Ep
    requires s.ring.Indexable() && RunIn(s, acts, guard)
    decreases |acts|
  {
    if acts == [] then s else After(Step(s, acts[0]), acts[1..], guard)
  }

  // ---------------------------------------------------------------- the ring

  ghost predicate EpInv(s: Ep) {
    && RingInv(s.ring)
    && (s.config.hasDesc ==> Linked(s.ring.pool))
    && (s.flags.enabled ==> s.config.hasDesc)
    && (s.config.hasDesc && !s.flags.enabled ==>
          s.config.kind.Isoc? && s.flags.xferPending && s.ring.queued == [])
  }

  /** Where the driver adds TRBs behind ones already on the ring, a full ring must show
      it: the TRB before `enqueue` is still owned by the controller. */
  predicate FullIsSeen(s: Ep, a: Action) {
    var adds := match a
      case Finish(_) => s.phase.Finishing? && !s.phase.complete && !s.config.kind.Isoc?
      case XferNotReady(active, _) => active && !s.config.kind.Isoc?
      case Queue(_, _) => s.config.kind.Isoc? && s.flags.busy && !s.flags.missedIsoc
      case _ => false;
    adds && s.ring.Indexable() ==> SeenFull(s.ring)
  }

  /** The endpoint is enabled only with nothing on the ring. */
  predicate EnablesEmpty(s: Ep, a: Action) {
    a.Enable? && !s.flags.enabled ==> s.ring.queued == []
  }

  /** Only the first of the queued requests is ever cancelled. */
  predicate CancelsHeadOnly(s: Ep, a: Action) {
    a.Cancel? && IndexOf(s.ring.pending, a.id) == |s.ring.pending| ==>
      IndexOf(s.ring.queued, a.id) == 0 || IndexOf(s.ring.queued, a.id) == |s.ring.queued|
  }

  lemma LoadedKeeps(c: Config, s: Ring, startNew: bool)
    requires RingInv(s) && (startNew || SeenFull(s))
    ensures var s' := Loaded(c, s, startNew);
            && RingInv(s')
            && (Linked(s.pool) ==> Linked(s'.pool))
            && (Contiguous(s) ==> Contiguous(s'))
  {
    if !(startNew && s.queued != []) {
      PrepareKeeps(c, s);
    }
  }

  lemma KickKeeps(s: Ep, startNew: bool, index: nat)
    requires EpInv(s) && s.config.hasDesc && s.flags.enabled && (startNew || SeenFull(s.ring))
    ensures EpInv(Kick(s, startNew, index).0)
    ensures Contiguous(s.ring) ==> Contiguous(Kick(s, startNew, index).0.ring)
  {
    LoadedKeeps(s.config, s.ring, startNew);
  }

  /** A disable, up to any of its calls of a completion callback. */
  lemma RemoveKeeps(s: Ep)
    requires EpInv(s) && s.removing != []
    ensures EpInv(RemoveStep(s))
    ensures Contiguous(s.ring) ==> Contiguous(RemoveStep(s).ring)
  {
    if s.removing[|s.removing| - 1].RingPart? && s.ring.queued != [] {
      GiveFirstKeeps(s, ESHUTDOWN);
    }
  }

  lemma GiveFirstKeeps(s: Ep, status: int)
    requires EpInv(s) && s.ring.queued != []
    ensures EpInv(GiveQueued(s, 0, status))
    ensures Contiguous(s.ring) ==> Contiguous(GiveQueued(s, 0, status).ring)
  {
    TakeOffKeeps(s.ring, 0);
    if Contiguous(s.ring) {
      TakeOffFirst(s.ring);
    }
  }

  lemma DisableKeeps(s: Ep)
    requires EpInv(s) && s.flags.enabled
    ensures EpInv(RemoveStep(BeginDisable(s)))
    ensures Contiguous(s.ring) ==> Contiguous(RemoveStep(BeginDisable(s)).ring)
  {
    assert EpInv(BeginDisable(s));
    RemoveKeeps(BeginDisable(s));
  }

  /** Enabling puts both indices to 0, whatever is still on the ring: the ring invariant
      survives exactly if nothing is, or as much as fills it. */
  lemma EnableKeepsInvariant(s: Ep, config: Config)
    requires EpInv(s) && !s.flags.enabled
    ensures RingInv(EpEnable(s, config).ring) <==> s.ring.queued == [] || Used(s.ring.queued) == SLOTS
  {
    if s.ring.queued != [] && Used(s.ring.queued) < SLOTS {
      assert RingSlot(0, Used(s.ring.queued)) == Used(s.ring.queued);
    }
  }

  lemma EnableKeeps(s: Ep, config: Config)
    requires EpInv(s) && EnablesEmpty(s, Enable(config))
    ensures EpInv(EpEnable(s, config))
    ensures Contiguous(s.ring) ==> Contiguous(EpEnable(s, config).ring)
  {
    if !s.flags.enabled {
      EnableKeepsInvariant(s, config);
    }
  }

  lemma AfterAcceptKeeps(s: Ep, index: nat)
    requires EpInv(s) && s.config.hasDesc
    requires s.config.kind.Isoc? && s.flags.busy && !s.flags.missedIsoc ==> SeenFull(s.ring)
    requires !s.flags.enabled ==> s.config.kind.Isoc? && s.flags.xferPending
    ensures EpInv(AfterAccept(s, index).0)
    ensures Contiguous(s.ring) ==> Contiguous(AfterAccept(s, index).0.ring)
  {
    if s.config.kind.Isoc? && s.flags.xferPending {
      assert AfterAccept(s, index).0.ring == s.ring;
    } else if s.config.kind.Isoc? && s.flags.busy && !s.flags.missedIsoc {
      KickKeeps(s, false, index);
    } else {
      KickKeeps(s, true, index);
    }
  }

  /** Whatever is read back, a turn of the clean-up loop takes the whole first request
      off the ring: a short packet in its first TRB still frees all its slots. */
  lemma CleanStepTakesOff(s: Ep)
    requires s.ring.Indexable() && s.phase.Cleaning? && s.ring.queued != []
    ensures var s' := CleanStep(s);
            && s'.ring == TakeOff(s.ring, 0)
            && s'.config == s.config && s'.pullups == s.pullups && s'.resourceIndex == s.resourceIndex
            && s'.flags == s.flags.(missedIsoc := s'.flags.missedIsoc)
            && s'.hist.log == s.hist.log && s'.hist.accepted == s.hist.accepted
            && (s'.phase == s.phase || s'.phase == Finishing(s.phase.complete, false))
            && |s'.hist.given| == |s.hist.given| + 1
            && s'.hist.given[..|s.hist.given|] == s.hist.given
            && s'.hist.given[|s.hist.given|].id == s.ring.queued[0].id
  {
    var r := s.ring.queued[0];
    var walk := WalkTrbs(s.config.dirIn, s.ring.pool, r, 0, s.phase.event, r.actual, s.flags.missedIsoc);
    var q := [r.(actual := walk.actual)] + s.ring.queued[1..];
    assert Without(q, 0) == s.ring.queued[1..] == Without(s.ring.queued, 0);
    assert Width(q[0]) == Width(r);
  }

  lemma CleanStepKeeps(s: Ep)
    requires EpInv(s) && s.phase.Cleaning?
    ensures EpInv(CleanStep(s))
    ensures Contiguous(s.ring) ==> Contiguous(CleanStep(s).ring)
  {
    if s.ring.queued != [] {
      CleanStepTakesOff(s);
      TakeOffKeeps(s.ring, 0);
      if Contiguous(s.ring) {
        TakeOffFirst(s.ring);
      }
    }
  }

  lemma FinishStepKeeps(s: Ep, index: nat)
    requires EpInv(s) && s.phase.Finishing?
    requires !s.phase.complete && !s.config.kind.Isoc? ==> SeenFull(s.ring)
    ensures EpInv(FinishStep(s, index))
    ensures Contiguous(s.ring) ==> Contiguous(FinishStep(s, index).ring)
  {
    var s1 := Settle(s);
    assert EpInv(s1);
    if s1.config.hasDesc && s1.pullups && !s1.config.kind.Isoc? {
      KickKeeps(s1, s.phase.complete, index);
    }
  }

  lemma CancelPendingKeeps(s: Ep, i: nat)
    requires EpInv(s) && i < |s.ring.pending|
    ensures EpInv(GivePending(s, i, ECONNRESET))
    ensures Contiguous(s.ring) ==> Contiguous(GivePending(s, i, ECONNRESET).ring)
  {
  }

  lemma CancelQueuedKeeps(s: Ep, j: nat)
    requires EpInv(s) && j < |s.ring.queued|
    ensures EpInv(GiveQueued(StopActive(s), j, ECONNRESET))
    ensures Contiguous(s.ring) && j == 0 ==> Contiguous(GiveQueued(StopActive(s), j, ECONNRESET).ring)
  {
    TakeOffKeeps(s.ring, j);
    if Contiguous(s.ring) {
      TakeOffKeepsSlots(s.ring, j);
    }
  }

  lemma CancelKeeps(s: Ep, id: nat)
    requires EpInv(s)
    ensures EpInv(EpDequeue(s, id).0)
    ensures Contiguous(s.ring) && CancelsHeadOnly(s, Cancel(id)) ==> Contiguous(EpDequeue(s, id).0.ring)
  {
    var i, j := IndexOf(s.ring.pending, id), IndexOf(s.ring.queued, id);
    if i < |s.ring.pending| {
      CancelPendingKeeps(s, i);
    } else if j < |s.ring.queued| {
      CancelQueuedKeeps(s, j);
    }
  }

  lemma QueueKeeps(s: Ep, r: Request, index: nat)
    requires EpInv(s) && FullIsSeen(s, Queue(r, index))
    ensures EpInv(EpQueue(s, r, index).0)
    ensures Contiguous(s.ring) ==> Contiguous(EpQueue(s, r, index).0.ring)
  {
    if s.config.hasDesc && s.pullups {
      assert EpInv(Accept(s, r));
      AfterAcceptKeeps(Accept(s, r), index);
    }
  }

  lemma NotReadyKeeps(s: Ep, active: bool, index: nat)
    requires EpInv(s) && s.flags.enabled && FullIsSeen(s, XferNotReady(active, index))
    ensures EpInv(NotReady(s, active, index))
    ensures Contiguous(s.ring) ==> Contiguous(NotReady(s, active, index).ring)
  {
    KickKeeps(s, !active || s.config.kind.Isoc?, index);
  }

  /** What the gadget driver calls. */
  lemma CallKeepsRing(s: Ep, a: Action)
    requires EpInv(s) && Enabled(s, a) && FullIsSeen(s, a) && EnablesEmpty(s, a)
    requires a.Queue? || a.Cancel? || a.Halt? || a.Wedge? || a.Disable? || a.Remove? || a.Enable? || a.Pullup?
    ensures EpInv(Step(s, a))
    ensures Contiguous(s.ring) && CancelsHeadOnly(s, a) ==> Contiguous(Step(s, a).ring)
  {
    match a
    case Queue(r, index) => QueueKeeps(s, r, index);
    case Cancel(id) => CancelKeeps(s, id);
    case Halt(value) =>
    case Wedge =>
    case Disable =>
      if s.flags.enabled {
        DisableKeeps(s);
      }
    case Remove => RemoveKeeps(s);
    case Enable(config) => EnableKeeps(s, config);
    case Pullup(on) =>
  }

  lemma StepKeepsRing(s: Ep, a: Action)
    requires EpInv(s) && Enabled(s, a) && FullIsSeen(s, a) && EnablesEmpty(s, a)
    ensures EpInv(Step(s, a))
    ensures Contiguous(s.ring) && CancelsHeadOnly(s, a) ==> Contiguous(Step(s, a).ring)
  {
    if a.XferComplete? || a.XferInProgress? || a.CommandComplete? {
      assert Step(s, a).ring == s.ring;
    } else if a.Clean? {
      CleanStepKeeps(s);
    } else if a.Finish? {
      FinishStepKeeps(s, a.index);
    } else if a.XferNotReady? {
      NotReadyKeeps(s, a.active, a.index);
    } else if a.Retire? {
      RetireKeeps(s, a.slot, a.count, a.sts);
    } else {
      CallKeepsRing(s, a);
    }
  }

  lemma RetireKeeps(s: Ep, slot: nat, count: nat, sts: nat)
    requires EpInv(s)
    ensures EpInv(s.(ring := RetireTrb(s.ring, slot, count, sts)))
    ensures Contiguous(s.ring) ==> Contiguous(RetireTrb(s.ring, slot, count, sts))
  {
  }

  /** Guards of the two ring theorems. */
  ghost function Sound(): (Ep, Action) -> bool {
    (s, a) => FullIsSeen(s, a) && EnablesEmpty(s, a)
  }

  ghost function SoundHeadOnly(): (Ep, Action) -> bool {
    (s, a) => FullIsSeen(s, a) && EnablesEmpty(s, a) && CancelsHeadOnly(s, a)
  }

  lemma {:induction false} RingKeptFrom(s: Ep, acts: seq<Action>)
    requires EpInv(s) && RunIn(s, acts, Sound())
    ensures EpInv(After(s, acts, Sound()))
    decreases |acts|
  {
    if acts != [] {
      StepKeepsRing(s, acts[0]);
      RingKeptFrom(Step(s, acts[0]), acts[1..]);
    }
  }

  lemma {:induction false} SlotsKeptFrom(s: Ep, acts: seq<Action>)
    requires EpInv(s) && Contiguous(s.ring) && RunIn(s, acts, SoundHeadOnly())
    ensures EpInv(After(s, acts, SoundHeadOnly()))
    ensures Contiguous(After(s, acts, SoundHeadOnly()).ring)
    decreases |acts|
  {
    if acts != [] {
      StepKeepsRing(s, acts[0]);
      SlotsKeptFrom(Step(s, acts[0]), acts[1..]);
    }
  }

  lemma StartIsInOrder()
    ensures EpInv(Start()) && Contiguous(Start().ring) && InOrder(Start()) && Conserved(Start())
  {
  }

  /** In every run from the start in which the driver never adds TRBs behind a full ring
      the controller has already worked off, and the endpoint is never enabled with
      something left on the ring, the indices stay as far apart as the queued
      requests are wide, and these never exceed the 1023 slots, whatever is cancelled. */
  lemma RunKeepsRing(acts: seq<Action>)
    requires RunIn(Start(), acts, Sound())
    ensures EpInv(After(Start(), acts, Sound()))
  {
    StartIsInOrder();
    RingKeptFrom(Start(), acts);
  }

  /** If moreover no queued request but the first is cancelled, queued requests stay
      side by side from `dequeue` on. */
  lemma RunKeepsSlots(acts: seq<Action>)
    requires RunIn(Start(), acts, SoundHeadOnly())
    ensures EpInv(After(Start(), acts, SoundHeadOnly()))
    ensures Contiguous(After(Start(), acts, SoundHeadOnly()).ring)
  {
    StartIsInOrder();
    SlotsKeptFrom(Start(), acts);
  }

  // ---------------------------------------------------------------- given back once, in order

  function Ids(rs: seq<Request>): (ids: seq<nat>)
    ensures |ids| == |rs|
  {
    seq(|rs|, i requires 0 <= i < |rs| => rs[i].id)
  }

  function DoneIds(ds: seq<Done>): (ids: seq<nat>)
    ensures |ids| == |ds|
  {
    seq(|ds|, i requires 0 <= i < |ds| => ds[i].id)
  }

  /** Requests accepted and not given back yet, oldest first. */
  function Listed(s: Ep): seq<nat> {
    Ids(s.ring.queued) + Ids(s.ring.pending)
  }

  /** Requests come back in the order they were accepted, each exactly once. */
  ghost predicate InOrder(s: Ep) {
    s.hist.accepted == DoneIds(s.hist.given) + Listed(s)
  }

  /** Nothing accepted is lost, nothing is given back twice. */
  ghost predicate Conserved(s: Ep) {
    multiset(s.hist.accepted) == multiset(DoneIds(s.hist.given)) + multiset(Listed(s))
  }

  /** A change of state that leaves the order of requests alone. */
  ghost predicate SameOrder(s: Ep, s': Ep) {
    && s'.hist.accepted == s.hist.accepted
    && DoneIds(s'.hist.given) + Listed(s') == DoneIds(s.hist.given) + Listed(s)
  }

  lemma GiveFirstSameOrder(s: Ep, status: int)
    requires s.ring.queued != []
    ensures SameOrder(s, GiveQueued(s, 0, status))
  {
    var s' := GiveQueued(s, 0, status);
    assert DoneIds(s'.hist.given) == DoneIds(s.hist.given) + [s.ring.queued[0].id];
    assert Ids(s.ring.queued) == [s.ring.queued[0].id] + Ids(s'.ring.queued);
  }

  /** A giveback of a disable: of the first queued request, or of the first pending one. */
  lemma RemoveSameOrder(s: Ep)
    requires s.removing != [] && InTurn(s, Remove)
    ensures SameOrder(s, RemoveStep(s))
  {
    if s.removing[|s.removing| - 1].RingPart? && s.ring.queued != [] {
      GiveFirstSameOrder(s, ESHUTDOWN);
    } else if s.ring.pending != [] {
      var s' := RemoveStep(s);
      assert DoneIds(s'.hist.given) == DoneIds(s.hist.given) + [s.ring.pending[0].id];
      assert Ids(s.ring.pending) == [s.ring.pending[0].id] + Ids(s'.ring.pending);
    }
  }

  /** A disable gives back a pending request only once the ring is empty. */
  predicate InTurn(s: Ep, a: Action) {
    a.Remove? && s.removing != [] && s.removing[|s.removing| - 1].PendingPart? && s.ring.pending != [] ==>
      s.ring.queued == []
  }

  /** It keeps the order exactly then, the requests at the head of the two lists being
      different ones. */
  lemma RemoveInOrderExactly(s: Ep)
    requires InOrder(s) && s.removing != []
    requires s.ring.queued != [] && s.ring.pending != [] ==> s.ring.queued[0].id != s.ring.pending[0].id
    ensures InOrder(RemoveStep(s)) <==> InTurn(s, Remove)
  {
    if InTurn(s, Remove) {
      RemoveSameOrder(s);
      SameOrderKeeps(s, RemoveStep(s));
    } else {
      var s' := RemoveStep(s);
      var n := |s.hist.given|;
      assert DoneIds(s'.hist.given)[n] == s.ring.pending[0].id;
      assert s.hist.accepted[n] == Listed(s)[0] == s.ring.queued[0].id;
      assert (DoneIds(s'.hist.given) + Listed(s'))[n] == s.ring.pending[0].id;
    }
  }

  /** Whatever the order, nothing is lost. */
  lemma GiveQueuedConserves(s: Ep, k: nat, status: int)
    requires Conserved(s) && k < |s.ring.queued|
    ensures Conserved(GiveQueued(s, k, status))
  {
    TakenOut(s.ring.queued, k);
    assert DoneIds(GiveQueued(s, k, status).hist.given) == DoneIds(s.hist.given) + [s.ring.queued[k].id];
  }

  lemma GivePendingConserves(s: Ep, k: nat, status: int)
    requires Conserved(s) && k < |s.ring.pending|
    ensures Conserved(GivePending(s, k, status))
  {
    TakenOut(s.ring.pending, k);
    assert DoneIds(GivePending(s, k, status).hist.given) == DoneIds(s.hist.given) + [s.ring.pending[k].id];
  }

  lemma RemoveConserves(s: Ep)
    requires Conserved(s) && s.removing != []
    ensures Conserved(RemoveStep(s))
  {
    if s.ring.queued != [] {
      GiveQueuedConserves(s, 0, ESHUTDOWN);
    }
    if s.ring.pending != [] {
      GivePendingConserves(s.(removing := s.removing[..|s.removing| - 1] + [PendingPart]), 0, ESHUTDOWN);
    }
  }

  /** Preparing moves requests from the head of one list to the tail of the other. */
  lemma {:induction false} PrepareFromOrder(c: Config, s: Ring, left: nat)
    requires s.Indexable()
    ensures var s' := PrepareFrom(c, s, left);
            Ids(s'.queued) + Ids(s'.pending) == Ids(s.queued) + Ids(s.pending)
    decreases |s.pending|
  {
    if s.pending != [] && Width(s.pending[0]) <= left {
      var last := EndsBatch(s, left);
      var s1 := SetUp(c, s, last);
      assert Ids(s1.queued) == Ids(s.queued) + [s.pending[0].id];
      assert Ids(s.pending) == [s.pending[0].id] + Ids(s1.pending);
      if !last {
        PrepareFromOrder(c, s1, left - Width(s.pending[0]));
      }
    }
  }

  lemma KickSameOrder(s: Ep, startNew: bool, index: nat)
    requires s.ring.Indexable()
    ensures SameOrder(s, Kick(s, startNew, index).0)
  {
    PrepareFromOrder(s.config, s.ring, FreeSlots(s.ring));
  }

  lemma AcceptInOrder(s: Ep, r: Request)
    ensures InOrder(s) ==> InOrder(Accept(s, r))
    ensures Conserved(s) ==> Conserved(Accept(s, r))
  {
    assert Ids(Accept(s, r).ring.pending) == Ids(s.ring.pending) + [r.id];
    assert Listed(Accept(s, r)) == Listed(s) + [r.id];
  }

  lemma CleanSameOrder(s: Ep)
    requires s.ring.Indexable() && s.phase.Cleaning?
    ensures SameOrder(s, CleanStep(s))
  {
    if s.ring.queued != [] {
      var s' := CleanStep(s);
      CleanStepTakesOff(s);
      assert DoneIds(s'.hist.given) == DoneIds(s.hist.given) + [s.ring.queued[0].id];
      assert Ids(s.ring.queued) == [s.ring.queued[0].id] + Ids(s'.ring.queued);
    }
  }

  /** Every step but a queueing call, a cancellation and a giveback out of turn leaves the
      order alone. */
  lemma StepSameOrder(s: Ep, a: Action)
    requires s.ring.Indexable() && Enabled(s, a) && !a.Queue? && !a.Cancel? && InTurn(s, a)
    ensures SameOrder(s, Step(s, a))
  {
    match a
    case Disable => DisableSameOrder(s);
    case Remove => RemoveSameOrder(s);
    case Clean => CleanSameOrder(s);
    case Finish(index) => FinishSameOrder(s, index);
    case XferNotReady(active, index) => NotReadySameOrder(s, active, index);
    case Halt(value) =>
    case Wedge =>
    case Enable(config) =>
    case Pullup(on) =>
    case XferComplete(e) =>
    case XferInProgress(e) =>
    case CommandComplete =>
    case Retire(slot, count, sts) =>
  }

  lemma DisableSameOrder(s: Ep)
    requires s.ring.Indexable()
    ensures SameOrder(s, if s.flags.enabled then RemoveStep(BeginDisable(s)) else s)
  {
    if s.flags.enabled {
      RemoveSameOrder(BeginDisable(s));
    }
  }

  lemma FinishSameOrder(s: Ep, index: nat)
    requires s.ring.Indexable() && s.phase.Finishing?
    ensures SameOrder(s, FinishStep(s, index))
  {
    KickSameOrder(Settle(s), s.phase.complete, index);
  }

  lemma NotReadySameOrder(s: Ep, active: bool, index: nat)
    requires s.ring.Indexable()
    ensures SameOrder(s, NotReady(s, active, index))
  {
    KickSameOrder(s, !active, index);
    KickSameOrder(s, true, index);
  }

  lemma AfterAcceptSameOrder(s: Ep, index: nat)
    requires s.ring.Indexable()
    ensures SameOrder(s, AfterAccept(s, index).0)
  {
    KickSameOrder(s, true, index);
    KickSameOrder(s, false, index);
  }

  lemma SameOrderKeeps(s: Ep, s': Ep)
    requires SameOrder(s, s')
    ensures InOrder(s) ==> InOrder(s')
    ensures Conserved(s) ==> Conserved(s')
  {
    assert multiset(DoneIds(s'.hist.given) + Listed(s')) == multiset(DoneIds(s.hist.given) + Listed(s));
  }

  lemma QueueOrder(s: Ep, r: Request, index: nat)
    requires s.ring.Indexable()
    ensures InOrder(s) ==> InOrder(EpQueue(s, r, index).0)
    ensures Conserved(s) ==> Conserved(EpQueue(s, r, index).0)
  {
    AcceptInOrder(s, r);
    AfterAcceptSameOrder(Accept(s, r), index);
    SameOrderKeeps(Accept(s, r), AfterAccept(Accept(s, r), index).0);
  }

  lemma CancelConserves(s: Ep, id: nat)
    requires Conserved(s)
    ensures Conserved(EpDequeue(s, id).0)
  {
    var k, j := IndexOf(s.ring.pending, id), IndexOf(s.ring.queued, id);
    if k < |s.ring.pending| {
      GivePendingConserves(s, k, ECONNRESET);
    } else if j < |s.ring.queued| {
      GiveQueuedConserves(StopActive(s), j, ECONNRESET);
    }
  }

  lemma TakenOut(rs: seq<Request>, k: nat)
    requires k < |rs|
    ensures multiset(Ids(rs)) == multiset(Ids(Without(rs, k))) + multiset{rs[k].id}
  {
    assert Ids(rs) == Ids(rs[..k]) + [rs[k].id] + Ids(rs[k + 1..]);
    assert Ids(Without(rs, k)) == Ids(rs[..k]) + Ids(rs[k + 1..]);
  }

  /** Nothing is cancelled, or given back out of turn. */
  predicate Orderly(s: Ep, a: Action) {
    !a.Cancel? && InTurn(s, a)
  }

  ghost function InOrderly(): (Ep, Action) -> bool {
    (s, a) => Orderly(s, a)
  }

  ghost function Unguarded(): (Ep, Action) -> bool {
    (s, a) => true
  }

  lemma {:induction false} OrderKeptFrom(s: Ep, acts: seq<Action>)
    requires InOrder(s) && s.ring.Indexable() && RunIn(s, acts, InOrderly())
    ensures InOrder(After(s, acts, InOrderly()))
    decreases |acts|
  {
    if acts != [] {
      var a := acts[0];
      if a.Queue? {
        QueueOrder(s, a.req, a.index);
      } else {
        StepSameOrder(s, a);
        SameOrderKeeps(s, Step(s, a));
      }
      OrderKeptFrom(Step(s, acts[0]), acts[1..]);
    }
  }

  lemma {:induction false} ConservedFrom(s: Ep, acts: seq<Action>)
    requires Conserved(s) && s.ring.Indexable() && RunIn(s, acts, Unguarded())
    ensures Conserved(After(s, acts, Unguarded()))
    decreases |acts|
  {
    if acts != [] {
      var a := acts[0];
      if a.Queue? {
        QueueOrder(s, a.req, a.index);
      } else if a.Cancel? {
        CancelConserves(s, a.id);
      } else if a.Remove? {
        RemoveConserves(s);
      } else {
        StepSameOrder(s, a);
        SameOrderKeeps(s, Step(s, a));
      }
      ConservedFrom(Step(s, acts[0]), acts[1..]);
    }
  }

  /** In runs from the start without cancellation, in which a disable gives back what is
      pending only once the ring is empty, requests are given back exactly once and in the
      order they were accepted, by whatever path: completion, short packet, disabling. */
  lemma RunGivesBackInOrder(acts: seq<Action>)
    requires RunIn(Start(), acts, InOrderly())
    ensures InOrder(After(Start(), acts, InOrderly()))
  {
    StartIsInOrder();
    OrderKeptFrom(Start(), acts);
  }

  /** In every run from the start, what was accepted is what was given back and what is
      still listed. */
  lemma RunConserves(acts: seq<Action>)
    requires RunIn(Start(), acts, Unguarded())
    ensures Conserved(After(Start(), acts, Unguarded()))
  {
    StartIsInOrder();
    ConservedFrom(Start(), acts);
  }
}
