/**
 Disabling an endpoint.  The driver gives back every request, calling a completion
 callback for each, in two loops: first what is on the ring, then what is pending.  A
 callback may queue again, and the second loop never looks back at the ring.
 */
module EndpointRemoval {
  import opened TrbRing
  import opened EndpointModel
  import opened EndpointRing
  import opened EndpointRuns
  import opened EndpointOpened

  // ---------------------------------------------------------------- what puts requests on an empty ring

  /** Does the action, nothing being on the ring, go on to prepare what is pending? */
  predicate Kicks(s: Ep, a: Action) {
    match a
    case Queue(r, _) =>
      && s.config.hasDesc && r.own && s.pullups
      && (if s.config.kind.Bulk? && !s.flags.busy then true
          else if s.flags.xferPending then !s.config.kind.Isoc? && !s.flags.busy
          else if s.config.kind.Isoc? && s.flags.busy && !s.flags.missedIsoc then true
          else s.config.streamCapable && !s.flags.busy)
    case Finish(_) =>
      && s.config.hasDesc && s.pullups && !s.config.kind.Isoc? && s.ring.pending != []
    case XferNotReady(active, _) =>
      && s.pullups && s.ring.pending != []
      && (if s.config.kind.Isoc? then !s.flags.busy else s.config.hasDesc && (active || !s.flags.busy))
    case _ => false
  }

  /** And does the request at the head of the pending list then get its TRBs? */
  predicate Loads(s: Ep, a: Action)
    requires s.ring.Indexable()
  {
    && Kicks(s, a)
    && (if s.ring.pending != [] then Width(s.ring.pending[0]) <= SLOTS else a.Queue? && Width(a.req) <= SLOTS)
    && !s.ring.pool[PrevSlot(s.ring.enqueue)].hwo
  }

  lemma KickLoads(s: Ep, startNew: bool, index: nat)
    requires RingInv(s.ring) && s.ring.queued == []
    ensures Kick(s, startNew, index).0.ring.queued != []
       <==> && s.pullups && !(startNew && s.flags.busy)
            && s.ring.pending != [] && Width(s.ring.pending[0]) <= SLOTS
            && !s.ring.pool[PrevSlot(s.ring.enqueue)].hwo
  {
    if s.ring.pending != [] {
      PrepareProgress(s.config, s.ring);
    }
  }

  lemma QueueLoads(s: Ep, r: Request, index: nat)
    requires RingInv(s.ring) && s.ring.queued == []
    ensures EpQueue(s, r, index).0.ring.queued != [] <==> Loads(s, Queue(r, index))
  {
    KickLoads(Accept(s, r), true, index);
    KickLoads(Accept(s, r), false, index);
  }

  /** Something comes on the empty ring exactly so. */
  lemma LoadsExactly(s: Ep, a: Action)
    requires EpInv(s) && s.ring.queued == [] && Enabled(s, a)
    ensures Step(s, a).ring.queued != [] <==> Loads(s, a)
  {
    match a
    case Queue(r, index) => QueueLoads(s, r, index);
    case Cancel(id) =>
    case Halt(value) =>
    case Wedge =>
    case Disable =>
    case Remove =>
    case Enable(config) =>
    case Pullup(on) =>
    case XferComplete(e) =>
    case XferInProgress(e) =>
    case Clean =>
    case Finish(index) => KickLoads(Settle(s), s.phase.complete, index);
    case XferNotReady(active, index) =>
      KickLoads(s, true, index);
      KickLoads(s, !active, index);
    case CommandComplete =>
    case Retire(slot, count, sts) =>
  }

  // ---------------------------------------------------------------- what a disable leaves behind

  /** When a disable ends nothing is pending.  Something is left on the ring exactly if it
      is there then, which takes the second loop. */
  lemma EndLeaves(s: Ep)
    requires s.ring.Indexable() && s.removing != [] && !GivesBack(s)
    ensures RemoveStep(s) == EndDisable(s) && RemoveStep(s).ring == s.ring && s.ring.pending == []
    ensures s.ring.queued != [] ==> s.removing[|s.removing| - 1].PendingPart?
  {
  }

  /** No disable is in its second loop with anything on the ring, and nothing is listed on
      an endpoint without its descriptor. */
  ghost predicate RemovalInv(s: Ep) {
    && EpInv(s)
    && (PendingPart in s.removing ==> s.ring.queued == [])
    && (!s.config.hasDesc ==> s.ring.queued == [] && s.ring.pending == [])
  }

  /** While a disable is in its second loop, nothing is put on the ring. */
  predicate LoadsNothing(s: Ep, a: Action) {
    PendingPart in s.removing && s.ring.Indexable() ==> !Loads(s, a)
  }

  lemma RemoveKeepsRemoval(s: Ep)
    requires RemovalInv(s) && s.removing != []
    ensures RemovalInv(RemoveStep(s))
  {
    RemoveKeeps(s);
    var n := |s.removing| - 1;
    assert s.removing == s.removing[..n] + [s.removing[n]];
    if !GivesBack(s) {
      EndLeaves(s);
      assert s.removing[n].PendingPart? ==> PendingPart in s.removing;
    }
  }

  lemma DisableKeepsRemoval(s: Ep)
    requires RemovalInv(s) && s.flags.enabled
    ensures RemovalInv(RemoveStep(BeginDisable(s)))
  {
    assert RemovalInv(BeginDisable(s));
    RemoveKeepsRemoval(BeginDisable(s));
  }

  lemma StepKeepsRemoval(s: Ep, a: Action)
    requires RemovalInv(s) && Enabled(s, a) && FullIsSeen(s, a) && LoadsNothing(s, a)
    ensures RemovalInv(Step(s, a))
  {
    if a.Disable? {
      if s.flags.enabled {
        DisableKeepsRemoval(s);
      }
    } else if a.Remove? {
      RemoveKeepsRemoval(s);
    } else {
      StepKeepsRing(s, a);
      OthersKeepRemoving(s, a);
      if s.ring.queued == [] {
        LoadsExactly(s, a);
      }
      if !s.config.hasDesc {
        OthersListNothing(s, a);
      }
    }
  }

  lemma OthersKeepRemoving(s: Ep, a: Action)
    requires s.ring.Indexable() && Enabled(s, a) && !a.Disable? && !a.Remove?
    ensures Step(s, a).removing == s.removing
    ensures s.config.hasDesc ==> Step(s, a).config.hasDesc
  {
    if a.Queue? {
      QueueKeepsConfig(s, a.req, a.index);
    } else if a.Finish? {
      FinishKeepsConfig(s, a.index);
    }
  }

  lemma QueueKeepsConfig(s: Ep, r: Request, index: nat)
    requires s.ring.Indexable()
    ensures EpQueue(s, r, index).0.config == s.config
  {
  }

  lemma FinishKeepsConfig(s: Ep, index: nat)
    requires s.ring.Indexable() && s.phase.Finishing?
    ensures FinishStep(s, index).config == s.config
  {
  }

  /** Without a descriptor nothing comes on either list. */
  lemma OthersListNothing(s: Ep, a: Action)
    requires EpInv(s) && Enabled(s, a) && !a.Disable? && !a.Remove?
    requires !s.config.hasDesc && s.ring.queued == [] && s.ring.pending == []
    ensures Step(s, a).ring.queued == [] && Step(s, a).ring.pending == []
  {
    match a
    case Queue(r, index) =>
    case Cancel(id) =>
    case Halt(value) =>
    case Wedge =>
    case Enable(config) =>
    case Pullup(on) =>
    case XferComplete(e) =>
    case XferInProgress(e) =>
    case Clean =>
    case Finish(index) =>
    case XferNotReady(active, index) =>
    case CommandComplete =>
    case Retire(slot, count, sts) =>
  }

  ghost function Undisturbed(): (Ep, Action) -> bool {
    (s, a) => FullIsSeen(s, a) && LoadsNothing(s, a)
  }

  lemma {:induction false} RemovalKeptFrom(s: Ep, acts: seq<Action>)
    requires RemovalInv(s) && RunIn(s, acts, Undisturbed())
    ensures RemovalInv(After(s, acts, Undisturbed()))
    decreases |acts|
  {
    if acts != [] {
      StepKeepsRemoval(s, acts[0]);
      RemovalKeptFrom(Step(s, acts[0]), acts[1..]);
    }
  }

  /** In every run from the start in which nothing is put on the ring while a disable is in
      its second loop: every disable that has ended left nothing listed, and the ring
      invariant survives every enable. */
  lemma RunEndsDisables(acts: seq<Action>)
    requires RunIn(Start(), acts, Undisturbed())
    ensures var s := After(Start(), acts, Undisturbed());
            && EpInv(s)
            && (!s.config.hasDesc ==> s.ring.queued == [] && s.ring.pending == [])
            && (!s.flags.enabled ==> s.ring.queued == [])
  {
    RemovalKeptFrom(Start(), acts);
  }

  /** The second loop leaves the ring as it finds it, and nothing pending. */
  lemma {:induction false} SecondLoopSparesRing(s: Ep)
    requires s.ring.Indexable() && s.removing != [] && s.removing[|s.removing| - 1].PendingPart?
    ensures var s' := Removed(s, []);
            && s'.ring.queued == s.ring.queued && s'.ring.pending == [] && !s'.config.hasDesc
            && s'.ring.enqueue == s.ring.enqueue && s'.ring.dequeue == s.ring.dequeue
    decreases |s.ring.pending|
  {
    if GivesBack(s) {
      SecondLoopSparesRing(RemoveStep(s));
    }
  }

  /** A request queued from a completion callback of the second loop: the disable, run to
      its end from there, leaves something listed exactly if the request, or one pending
      before it, is put on the ring. */
  lemma CallbackLeavesExactly(s: Ep, r: Request, index: nat)
    requires EpInv(s) && s.ring.queued == []
    requires s.removing != [] && s.removing[|s.removing| - 1].PendingPart?
    ensures var s' := Removed(EpQueue(s, r, index).0, []);
            && s'.ring.pending == []
            && (s'.ring.queued != [] <==> Loads(s, Queue(r, index)))
  {
    QueueLoads(s, r, index);
    SecondLoopSparesRing(EpQueue(s, r, index).0);
  }

  // ---------------------------------------------------------------- a run that leaves something

  /** A plain request, for one TRB. */
  predicate Plain(r: Request) {
    r.own && r.bufs == []
  }

  /** A running transfer, its TRB retired, and more requests pending behind it. */
  ghost predicate Running(s: Ep, r: Request, more: seq<Request>) {
    && RingInv(s.ring) && |s.ring.queued| == 1 && s.ring.queued[0].id == r.id
    && s.ring.queued[0].bufs == [] && s.ring.pending == more
    && s.ring.dequeue == 0 && s.ring.enqueue == 1 && !s.ring.pool[0].hwo
    && s.config.hasDesc && s.config.kind.Bulk? && s.flags == ONLY_ENABLED.(busy := true)
    && s.resourceIndex == 1 && s.pullups && s.removing == []
    && s.hist.given == []
  }

  function Accepted(r: Request): Request {
    r.(actual := 0, status := EINPROGRESS)
  }

  lemma FirstRunning(c: Config, r: Request)
    requires c.kind.Bulk? && !c.streamCapable && Plain(r)
    ensures var s1 := Step(Opened(c), Queue(r, 1));
            var s2 := Step(s1, Retire(0, 0, 0));
            Running(s2, r, []) && s2.hist.accepted == [r.id] && !s2.config.streamCapable
  {
    FirstQueued(c, r, 1);
    var s1 := Step(Opened(c), Queue(r, 1));
    UsedOne(s1.ring.queued);
    assert RingSlot(0, 1) == 1 && RingSlot(0, 0) == 0;
  }

  /** One more request while the transfer runs. */
  lemma OneMoreRunning(s: Ep, r: Request, more: seq<Request>, r': Request)
    requires Running(s, r, more) && !s.config.streamCapable && r'.own
    ensures var s' := Step(s, Queue(r', 1));
            && Running(s', r, more + [Accepted(r')]) && !s'.config.streamCapable
            && s'.hist.accepted == s.hist.accepted + [r'.id]
  {
  }

  /** Disabling ends the transfer and gives its request back. */
  ghost predicate Disabling(s: Ep, c: Config, pending: seq<Request>, part: Part, pool: seq<Trb>) {
    && RingInv(s.ring) && s.ring.queued == [] && s.ring.pending == pending
    && s.ring.enqueue == 1 && s.ring.dequeue == 1 && s.ring.pool == pool
    && s.config == c && s.pullups && s.removing == [part]
    && s.flags.enabled && !s.flags.busy && !s.flags.xferPending && !s.flags.stall && |s.hist.log| >= 1
  }

  lemma DisableRunning(s: Ep, r: Request, more: seq<Request>)
    requires Running(s, r, more)
    ensures var s1 := Step(s, Disable);
            && Disabling(s1, s.config, more, RingPart, s.ring.pool) && s1.hist.accepted == s.hist.accepted
            && |s1.hist.given| == 1 && s1.hist.given[0].id == r.id
  {
    var s0 := BeginDisable(s);
    assert s0.ring == s.ring && s0.removing == [RingPart];
    UsedOne(s.ring.queued);
    assert RingSlot(0, 1) == 1;
    TakeOffKeeps(s.ring, 0);
    assert Without(s.ring.queued, 0) == [];
  }

  /** The next step gives back the first of those pending. */
  lemma RemovePending(s: Ep, c: Config, more: seq<Request>, part: Part, pool: seq<Trb>)
    requires Disabling(s, c, more, part, pool) && more != []
    ensures var s1 := Step(s, Remove);
            && Disabling(s1, c, more[1..], PendingPart, pool) && s1.hist.accepted == s.hist.accepted
            && |s1.hist.given| == |s.hist.given| + 1 && s1.hist.given[..|s.hist.given|] == s.hist.given
            && s1.hist.given[|s.hist.given|].id == more[0].id
  {
    assert Without(more, 0) == more[1..];
  }

  /** Two requests, the second pending; the endpoint is disabled, and the callback of the
      second request's giveback queues a third.  The disable ends with that one on the
      ring, a transfer started for it; and when the endpoint is enabled the indices no
      longer fit what is on the ring. */
  lemma DisableLeavesRequest(c: Config, r1: Request, r2: Request, r3: Request)
    requires c.kind.Bulk? && !c.streamCapable && Plain(r1) && r2.own && r3.own && Width(r3) < SLOTS
    ensures var acts := [Pullup(true), Enable(c), Queue(r1, 1), Retire(0, 0, 0), Queue(r2, 1), Disable, Remove,
                         Queue(r3, 1), Remove];
            exists s :: Leads(Start(), acts, s) && LeftOver(s, r3) && !RingInv(EpEnable(s, c).ring)
  {
    var acts := [Pullup(true), Enable(c), Queue(r1, 1), Retire(0, 0, 0), Queue(r2, 1), Disable, Remove, Queue(r3, 1),
                 Remove];
    var s4 := TwoQueuedByRun(c, r1, r2, acts);
    var s6 := RemovedByRun(acts, 5, s4, r1, [Accepted(r2)]);
    QueueInSecondLoop(s6, r3);
    var s7 := LeadsNext(acts, 7, s6);
    var s8 := LeadsNext(acts, 8, s7);
    StillListed(s8, r3, c);
  }

  /** The endpoint disabled, up to the callback of the second request. */
  lemma RemovedByRun(acts: seq<Action>, k: nat, s: Ep, r: Request, more: seq<Request>) returns (s': Ep)
    requires k + 1 < |acts| && acts[k] == Disable && acts[k + 1] == Remove
    requires Leads(Start(), acts[..k], s) && Running(s, r, more) && more != []
    ensures Leads(Start(), acts[..k + 2], s')
    ensures Disabling(s', s.config, more[1..], PendingPart, s.ring.pool) && s'.hist.accepted == s.hist.accepted
    ensures |s'.hist.given| == 2
  {
    DisableRunning(s, r, more);
    var s1 := LeadsNext(acts, k, s);
    RemovePending(s1, s.config, more, RingPart, s.ring.pool);
    s' := LeadsNext(acts, k + 1, s1);
  }

  lemma TwoQueuedByRun(c: Config, r1: Request, r2: Request, acts: seq<Action>) returns (s: Ep)
    requires c.kind.Bulk? && !c.streamCapable && Plain(r1) && r2.own
    requires |acts| >= 5 && acts[0] == Pullup(true) && acts[1] == Enable(c) && acts[2] == Queue(r1, 1)
    requires acts[3] == Retire(0, 0, 0) && acts[4] == Queue(r2, 1)
    ensures Leads(Start(), acts[..5], s)
    ensures Running(s, r1, [Accepted(r2)]) && !s.config.streamCapable && s.hist.accepted == [r1.id, r2.id]
  {
    QueuedByRun(c, r1, 1, acts);
    FirstRunning(c, r1);
    var s1 := Step(Opened(c), Queue(r1, 1));
    var s2 := LeadsNext(acts, 3, s1);
    OneMoreRunning(s2, r1, [], r2);
    s := LeadsNext(acts, 4, s2);
    assert [] + [Accepted(r2)] == [Accepted(r2)];
  }

  /** A request is left on the ring of a disabled endpoint, its transfer started after the
      last END TRANSFER. */
  ghost predicate LeftOver(s: Ep, r: Request) {
    && s.ring.Indexable() && !s.flags.enabled && !s.config.hasDesc && s.removing == []
    && |s.ring.queued| == 1 && s.ring.queued[0].id == r.id && Width(s.ring.queued[0]) == Width(r)
    && s.ring.pending == []
    && |s.hist.log| >= 3 && s.hist.log[|s.hist.log| - 1].Disabled? && s.hist.log[|s.hist.log| - 2].StartTransfer?
  }

  lemma QueueInSecondLoop(s: Ep, r: Request)
    requires RingInv(s.ring) && s.ring.queued == [] && s.ring.pending == [] && r.own && Width(r) < SLOTS
    requires s.ring.enqueue == 1 && !s.ring.pool[0].hwo && |s.hist.log| >= 1
    requires s.config.hasDesc && s.config.kind.Bulk? && s.pullups && s.removing == [PendingPart]
    requires s.flags.enabled && !s.flags.busy && !s.flags.stall
    ensures var s1 := Step(s, Queue(r, 1));
            && Enabled(s1, Remove) && LeftOver(Step(s1, Remove), r)
  {
    QueueOnIdle(s, r, 1);
  }

  lemma StillListed(s: Ep, r: Request, c: Config)
    requires LeftOver(s, r) && Width(r) < SLOTS
    ensures !RingInv(EpEnable(s, c).ring)
  {
    UsedOne(s.ring.queued);
    assert RingSlot(0, Width(r)) == Width(r);
  }

  // ---------------------------------------------------------------- a run that gives back out of order

  /** Of two pending requests only the first fits the empty ring. */
  lemma PrepareFirstOnly(c: Config, s: Ring, a: Request, b: Request)
    requires RingInv(s) && s.queued == [] && s.pending == [a, b] && !s.pool[PrevSlot(s.enqueue)].hwo
    requires Width(a) <= SLOTS < Width(a) + Width(b)
    ensures var s' := Prepare(c, s);
            |s'.queued| == 1 && s'.queued[0].id == a.id && s'.pending == [b]
  {
    var s1 := SetUp(c, s, EndsBatch(s, SLOTS));
    assert s1.pending == [b];
    FreeSlotsExact(s);
    assert FreeSlots(s) == SLOTS;
    assert PrepareFrom(c, s1, SLOTS - Width(a)) == s1;
    assert Prepare(c, s) == PrepareFrom(c, s, SLOTS) == s1;
  }

  lemma QueueBehindPending(s: Ep, c: Config, a: Request, r: Request, pool: seq<Trb>)
    requires Disabling(s, c, [a], PendingPart, pool) && c.hasDesc && c.kind.Bulk? && !pool[0].hwo
    requires r.own && Width(a) <= SLOTS < Width(a) + Width(r)
    ensures var s1 := Step(s, Queue(r, 1));
            && Enabled(s1, Remove)
            && var s2 := Step(s1, Remove);
            && |s2.ring.queued| == 1 && s2.ring.queued[0].id == a.id && s2.ring.pending == []
            && s2.hist.accepted == s.hist.accepted + [r.id] && |s2.hist.given| == |s.hist.given| + 1
            && s2.hist.given[|s.hist.given|].id == r.id
  {
    PrepareFirstOnly(c, Accept(s, r).ring, a, Accepted(r));
  }

  /** A request queued from a callback of the second loop starts the transfer of one queued
      before it, does not itself fit the ring beside that, and is given back first. */
  lemma DisableReorders(c: Config, r1: Request, r2: Request, r3: Request, r4: Request)
    requires c.kind.Bulk? && !c.streamCapable && Plain(r1) && r2.own && r3.own && r4.own
    requires Width(r3) <= SLOTS < Width(r3) + Width(r4) && r3.id != r4.id
    ensures var acts := [Pullup(true), Enable(c), Queue(r1, 1), Retire(0, 0, 0), Queue(r2, 1), Queue(r3, 1), Disable,
                         Remove, Queue(r4, 1), Remove];
            exists s :: Leads(Start(), acts, s) && !InOrder(s)
                        && s.hist.accepted == [r1.id, r2.id, r3.id, r4.id]
                        && |s.hist.given| == 3 && s.hist.given[2].id == r4.id
  {
    var acts := [Pullup(true), Enable(c), Queue(r1, 1), Retire(0, 0, 0), Queue(r2, 1), Queue(r3, 1), Disable, Remove,
                 Queue(r4, 1), Remove];
    var s4 := TwoQueuedByRun(c, r1, r2, acts);
    OneMoreRunning(s4, r1, [Accepted(r2)], r3);
    var s5 := LeadsNext(acts, 5, s4);
    assert [Accepted(r2)] + [Accepted(r3)] == [Accepted(r2), Accepted(r3)];
    var s8 := RemovedByRun(acts, 6, s5, r1, [Accepted(r2), Accepted(r3)]);
    assert [Accepted(r2), Accepted(r3)][1..] == [Accepted(r3)];
    var s10 := ReorderedByRun(acts, s8, s5.config, Accepted(r3), r4, s5.ring.pool);
    OutOfOrder(s10, r4.id);
  }

  lemma ReorderedByRun(acts: seq<Action>, s: Ep, c: Config, a: Request, r: Request, pool: seq<Trb>) returns (s': Ep)
    requires |acts| == 10 && acts[8] == Queue(r, 1) && acts[9] == Remove
    requires Leads(Start(), acts[..8], s) && Disabling(s, c, [a], PendingPart, pool)
    requires c.hasDesc && c.kind.Bulk? && !pool[0].hwo && r.own && Width(a) <= SLOTS < Width(a) + Width(r)
    ensures Leads(Start(), acts, s')
    ensures s'.hist.accepted == s.hist.accepted + [r.id] && |s'.hist.given| == |s.hist.given| + 1
    ensures s'.hist.given[|s.hist.given|].id == r.id
  {
    QueueBehindPending(s, c, a, r, pool);
    var s1 := LeadsNext(acts, 8, s);
    s' := LeadsNext(acts, 9, s1);
  }

  lemma OutOfOrder(s: Ep, id: nat)
    requires |s.hist.given| == 3 && s.hist.given[2].id == id
    requires |s.hist.accepted| == 4 && s.hist.accepted[2] != id
    ensures !InOrder(s)
  {
    assert (DoneIds(s.hist.given) + Listed(s))[2] == id;
  }
}
