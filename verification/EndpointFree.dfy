/**
 Free slots.  As long as only requests are given back whose TRBs the controller has all
 retired, it owns no TRB outside of the queued requests, and the driver's count of free
 slots is right.
 */
module EndpointFree {
  import opened TrbRing
  import opened EndpointModel
  import opened EndpointRing
  import opened EndpointRuns

  /** The controller owns TRBs of queued requests only. */
  ghost predicate FreeUnowned(s: Ring)
    requires s.Indexable()
  {
    forall x :: 0 <= x < SLOTS && !Occupied(s, x) ==> !s.pool[x].hwo
  }

  /** Has the controller retired every TRB of the request? */
  ghost predicate Retired(s: Ring, r: Request)
    requires s.Indexable()
  {
    forall i :: 0 <= i < Width(r) ==> !TrbOf(s, r, i).hwo
  }

  /** While the endpoint is being disabled, nothing is claimed. */
  ghost predicate FreeInv(s: Ep) {
    && EpInv(s) && Contiguous(s.ring)
    && FreeClaim(s)
  }

  ghost predicate FreeClaim(s: Ep)
    requires s.ring.Indexable()
  {
    s.config.hasDesc && s.removing == [] ==> FreeUnowned(s.ring)
  }

  /** A queued request that is taken off the ring for itself, by clean-up or by being
      cancelled, has all its TRBs retired. */
  ghost predicate GivesBackRetired(s: Ep, a: Action) {
    var takesOff := a.Clean? || (a.Cancel? && IndexOf(s.ring.pending, a.id) == |s.ring.pending|
                                 && IndexOf(s.ring.queued, a.id) < |s.ring.queued|);
    s.ring.Indexable() && s.ring.queued != [] && takesOff ==> Retired(s.ring, s.ring.queued[0])
  }

  ghost function Careful(): (Ep, Action) -> bool {
    (s, a) => FullIsSeen(s, a) && EnablesEmpty(s, a) && CancelsHeadOnly(s, a) && GivesBackRetired(s, a)
  }

  /** A batch writes only slots that its requests then occupy. */
  lemma {:induction false} PrepareFromOccupies(c: Config, s: Ring, left: nat, x: nat)
    requires RingInv(s) && left <= SLOTS - Used(s.queued) && x < SLOTS
    ensures var s' := PrepareFrom(c, s, left);
            && s'.Indexable()
            && (Occupied(s, x) ==> Occupied(s', x))
            && (!Occupied(s', x) ==> s'.pool[x] == s.pool[x])
    decreases |s.pending|
  {
    if s.pending != [] && Width(s.pending[0]) <= left {
      var last, w := EndsBatch(s, left), Width(s.pending[0]);
      SetUpKeepsRing(c, s, last);
      SetUpOccupies(c, s, last, x);
      if !last {
        PrepareFromOccupies(c, SetUp(c, s, last), left - w, x);
      }
    }
  }

  lemma SetUpOccupies(c: Config, s: Ring, last: bool, x: nat)
    requires RingInv(s) && s.pending != [] && Width(s.pending[0]) <= SLOTS - Used(s.queued) && x < SLOTS
    requires Used(SetUp(c, s, last).queued) == Used(s.queued) + Width(s.pending[0])
    ensures var s' := SetUp(c, s, last);
            && (Occupied(s, x) ==> Occupied(s', x))
            && (!Occupied(s', x) ==> s'.pool[x] == s.pool[x])
  {
    WriteTrbsAt(c, s.pool, s.enqueue, s.pending[0], 0, last, x);
    DistFrom(s.dequeue, Used(s.queued), x);
  }

  lemma PrepareKeepsFree(c: Config, s: Ring)
    requires RingInv(s) && SeenFull(s) && FreeUnowned(s)
    ensures RingInv(Prepare(c, s)) && FreeUnowned(Prepare(c, s))
  {
    PrepareKeeps(c, s);
    FreeSlotsExact(s);
    var s' := Prepare(c, s);
    forall x | 0 <= x < SLOTS && !Occupied(s', x)
      ensures !s'.pool[x].hwo
    {
      PrepareFromOccupies(c, s, FreeSlots(s), x);
    }
  }

  lemma TakeOffKeepsFree(s: Ring)
    requires RingInv(s) && Contiguous(s) && s.queued != [] && FreeUnowned(s) && Retired(s, s.queued[0])
    ensures FreeUnowned(TakeOff(s, 0))
  {
    var s', w := TakeOff(s, 0), Width(s.queued[0]);
    TakeOffKeeps(s, 0);
    HeadAtDequeue(s);
    forall x | 0 <= x < SLOTS && !Occupied(s', x)
      ensures !s'.pool[x].hwo
    {
      DistFrom(s.dequeue, w, x);
      if Dist(s.dequeue, x) < w {
        assert !TrbOf(s, s.queued[0], Dist(s.dequeue, x)).hwo;
      }
    }
  }

  lemma KickKeepsFree(s: Ep, startNew: bool, index: nat)
    requires FreeInv(s) && s.config.hasDesc && s.removing == [] && (startNew || SeenFull(s.ring))
    ensures FreeUnowned(Kick(s, startNew, index).0.ring)
  {
    if !startNew || s.ring.queued == [] {
      PrepareKeepsFree(s.config, s.ring);
    }
  }

  lemma QueueKeepsFree(s: Ep, r: Request, index: nat)
    requires FreeInv(s) && FullIsSeen(s, Queue(r, index))
    ensures FreeClaim(EpQueue(s, r, index).0)
  {
    if s.config.hasDesc && s.pullups && s.removing == [] {
      var s1 := Accept(s, r);
      assert FreeInv(s1);
      KickKeepsFree(s1, true, index);
      if s.config.kind.Isoc? && s.flags.busy && !s.flags.missedIsoc {
        KickKeepsFree(s1, false, index);
      }
    }
  }

  lemma CancelKeepsFree(s: Ep, id: nat)
    requires FreeInv(s) && Careful()(s, Cancel(id))
    ensures FreeClaim(EpDequeue(s, id).0)
  {
    if IndexOf(s.ring.pending, id) == |s.ring.pending| && IndexOf(s.ring.queued, id) < |s.ring.queued| {
      if s.config.hasDesc && s.removing == [] {
        TakeOffKeepsFree(s.ring);
      }
    }
  }

  lemma CleanKeepsFree(s: Ep)
    requires FreeInv(s) && s.phase.Cleaning? && (s.ring.queued != [] ==> Retired(s.ring, s.ring.queued[0]))
    ensures FreeClaim(CleanStep(s))
  {
    if s.ring.queued != [] && s.config.hasDesc && s.removing == [] {
      CleanStepTakesOff(s);
      TakeOffKeepsFree(s.ring);
    }
  }

  lemma FinishKeepsFree(s: Ep, index: nat)
    requires FreeInv(s) && s.phase.Finishing? && FullIsSeen(s, Finish(index))
    ensures FreeClaim(FinishStep(s, index))
  {
    var s1 := Settle(s);
    if s1.config.hasDesc && s1.pullups && !s1.config.kind.Isoc? && s.removing == [] {
      assert FreeInv(s1);
      KickKeepsFree(s1, s.phase.complete, index);
    }
  }

  lemma EnableKeepsFree(s: Ep, config: Config)
    requires FreeInv(s)
    ensures FreeClaim(EpEnable(s, config))
  {
  }

  lemma RetireKeepsFree(s: Ring, slot: nat, count: nat, sts: nat)
    requires s.Indexable() && FreeUnowned(s)
    ensures FreeUnowned(RetireTrb(s, slot, count, sts))
  {
    var s' := RetireTrb(s, slot, count, sts);
    forall x | 0 <= x < SLOTS && !Occupied(s', x)
      ensures !s'.pool[x].hwo
    {
      assert !Occupied(s, x);
    }
  }

  lemma StepKeepsFree(s: Ep, a: Action)
    requires FreeInv(s) && Enabled(s, a) && Careful()(s, a)
    ensures FreeInv(Step(s, a))
  {
    StepKeepsRing(s, a);
    match a
    case Queue(r, index) => QueueKeepsFree(s, r, index);
    case Cancel(id) => CancelKeepsFree(s, id);
    case Halt(value) =>
    case Wedge =>
    case Disable =>
      if s.flags.enabled {
        RemoveKeepsFree(BeginDisable(s));
      }
    case Remove => RemoveKeepsFree(s);
    case Enable(config) => EnableKeepsFree(s, config);
    case Pullup(on) =>
    case XferComplete(e) =>
    case XferInProgress(e) =>
    case Clean => CleanKeepsFree(s);
    case Finish(index) => FinishKeepsFree(s, index);
    case XferNotReady(active, index) =>
      if s.config.hasDesc && s.removing == [] {
        KickKeepsFree(s, !active || s.config.kind.Isoc?, index);
      }
    case CommandComplete =>
    case Retire(slot, count, sts) =>
      if s.config.hasDesc && s.removing == [] {
        RetireKeepsFree(s.ring, slot, count, sts);
      }
  }

  /** When the outermost disable ends, the endpoint is left without its descriptor. */
  lemma RemoveKeepsFree(s: Ep)
    requires s.ring.Indexable() && s.removing != []
    ensures RemoveStep(s).ring.Indexable() && FreeClaim(RemoveStep(s))
  {
  }

  lemma {:induction false} FreeKeptFrom(s: Ep, acts: seq<Action>)
    requires FreeInv(s) && RunIn(s, acts, Careful())
    ensures FreeInv(After(s, acts, Careful()))
    decreases |acts|
  {
    if acts != [] {
      StepKeepsFree(s, acts[0]);
      FreeKeptFrom(Step(s, acts[0]), acts[1..]);
    }
  }

  /** In every run from the start that gives back only requests whose TRBs were retired,
      free slots are the driver's. */
  lemma RunKeepsFree(acts: seq<Action>)
    requires RunIn(Start(), acts, Careful())
    ensures FreeInv(After(Start(), acts, Careful()))
  {
    StartIsInOrder();
    FreeKeptFrom(Start(), acts);
  }

  /** After such a run, on an endpoint not being disabled, the free slots are counted
      right, and the request at the head of the pending list gets its TRBs exactly if it
      fits. */
  lemma RunPreparesWhatFits(acts: seq<Action>)
    requires RunIn(Start(), acts, Careful())
    ensures var s := After(Start(), acts, Careful());
            && RingInv(s.ring)
            && (s.config.hasDesc && s.removing == [] && SeenFull(s.ring) ==>
                  && FreeSlots(s.ring) == SLOTS - Used(s.ring.queued)
                  && (s.ring.pending != [] ==>
                        (Prepare(s.config, s.ring).queued != s.ring.queued
                         <==> Width(s.ring.pending[0]) <= SLOTS - Used(s.ring.queued))))
  {
    RunKeepsFree(acts);
    var s := After(Start(), acts, Careful());
    if s.config.hasDesc && s.removing == [] && SeenFull(s.ring) {
      FreeSlotsExact(s.ring);
      assert s.ring.queued == [] ==> !Occupied(s.ring, PrevSlot(s.ring.enqueue));
      if s.ring.pending != [] {
        PrepareProgress(s.config, s.ring);
      }
    }
  }
}
