/**
 What a request reports when it is given back: the status of the path that gave it back,
 and the count of the bytes its own TRBs have moved.
 */
module EndpointReports {
  import opened Octets
  import opened TrbRing
  import opened EndpointModel
  import opened EndpointRing
  import opened EndpointRuns
  import opened EndpointBytes
  import opened EndpointCommands

  /** Nothing has been said about the request yet. */
  predicate IsFresh(r: Request) {
    r.status == EINPROGRESS && r.actual == 0
  }

  ghost predicate AllFresh(rs: seq<Request>) {
    forall i :: 0 <= i < |rs| ==> IsFresh(rs[i])
  }

  ghost predicate ListedFresh(s: Ring) {
    AllFresh(s.pending) && AllFresh(s.queued)
  }

  // ---------------------------------------------------------------- what is listed is in progress

  lemma MovedFresh(s: Ring, s': Ring)
    requires ListedFresh(s) && MovesOver(s, s')
    ensures ListedFresh(s')
  {
    var n := |s.queued|;
    forall i | 0 <= i < |s'.queued|
      ensures IsFresh(s'.queued[i])
    {
      if i < n {
        assert s'.queued[i] == s'.queued[..n][i];
      } else {
        assert IsMoved(s.pending[i - n], s'.queued[i]);
      }
    }
  }

  lemma KickFresh(s: Ep, startNew: bool, index: nat)
    requires s.ring.Indexable() && ListedFresh(s.ring)
    ensures ListedFresh(Kick(s, startNew, index).0.ring)
    ensures Kick(s, startNew, index).0.hist.given == s.hist.given
  {
    PrepareFromMoves(s.config, s.ring, FreeSlots(s.ring));
    MovedFresh(s.ring, Prepare(s.config, s.ring));
  }

  lemma AfterAcceptFresh(s: Ep, index: nat)
    requires s.ring.Indexable() && ListedFresh(s.ring)
    ensures ListedFresh(AfterAccept(s, index).0.ring)
    ensures AfterAccept(s, index).0.hist.given == s.hist.given
  {
    KickFresh(s, true, index);
    KickFresh(s, false, index);
  }

  lemma QueueFresh(s: Ep, r: Request, index: nat)
    requires s.ring.Indexable() && ListedFresh(s.ring)
    ensures ListedFresh(EpQueue(s, r, index).0.ring)
    ensures EpQueue(s, r, index).0.hist.given == s.hist.given
  {
    AfterAcceptFresh(Accept(s, r), index);
  }

  // ---------------------------------------------------------------- cancelled and disabled

  lemma TakenOutFresh(rs: seq<Request>, k: nat)
    requires AllFresh(rs) && k < |rs|
    ensures AllFresh(Without(rs, k))
  {
  }

  /** A cancelled request reports ECONNRESET and no bytes; anything else is refused. */
  lemma CancelReports(s: Ep, id: nat)
    requires ListedFresh(s.ring)
    ensures var (s', ret) := EpDequeue(s, id);
            && ListedFresh(s'.ring)
            && (id in Listed(s) ==> ret == 0 && s'.hist.given == s.hist.given + [Done(id, ECONNRESET, 0)])
            && (id !in Listed(s) ==> ret == EINVAL && s' == s)
  {
    var k, j := IndexOf(s.ring.pending, id), IndexOf(s.ring.queued, id);
    var n := |s.ring.queued|;
    if k < |s.ring.pending| {
      TakenOutFresh(s.ring.pending, k);
      assert Listed(s)[n + k] == id;
    } else if j < n {
      TakenOutFresh(s.ring.queued, j);
      assert Listed(s)[j] == id;
    } else {
      forall i | 0 <= i < |Listed(s)|
        ensures Listed(s)[i] != id
      {
        assert Listed(s)[i] == if i < n then s.ring.queued[i].id else s.ring.pending[i - n].id;
      }
    }
  }

  /** The request a disable gives back next. */
  function NextOut(s: Ep): Request
    requires s.removing != [] && GivesBack(s)
  {
    if s.removing[|s.removing| - 1].RingPart? && s.ring.queued != [] then s.ring.queued[0] else s.ring.pending[0]
  }

  /** What a disable gives back reports ESHUTDOWN and no bytes. */
  lemma RemoveReports(s: Ep)
    requires ListedFresh(s.ring) && s.removing != []
    ensures ListedFresh(RemoveStep(s).ring)
    ensures RemoveStep(s).hist.given
         == s.hist.given + if GivesBack(s) then [Done(NextOut(s).id, ESHUTDOWN, 0)] else []
  {
    if s.removing[|s.removing| - 1].RingPart? && s.ring.queued != [] {
      TakenOutFresh(s.ring.queued, 0);
    } else if s.ring.pending != [] {
      TakenOutFresh(s.ring.pending, 0);
    }
  }

  lemma DisableReports(s: Ep)
    requires ListedFresh(s.ring)
    ensures var s' := RemoveStep(BeginDisable(s));
            && ListedFresh(s'.ring)
            && s'.hist.given
            == s.hist.given + if s.ring.queued != [] then [Done(s.ring.queued[0].id, ESHUTDOWN, 0)]
                              else if s.ring.pending != [] then [Done(s.ring.pending[0].id, ESHUTDOWN, 0)]
                              else []
  {
    RemoveReports(BeginDisable(s));
  }

  // ---------------------------------------------------------------- completed

  /** What a turn of clean-up tells of a request: the status of the event, and for each of its
      TRBs read back the whole length less what was left of that TRB, in 32 bits. */
  ghost predicate CleanedUp(s: Ep, d: Done)
    requires s.ring.Indexable() && s.phase.Cleaning? && s.ring.queued != []
  {
    var r := s.ring.queued[0];
    var n := Walked(s.config.dirIn, s.ring.pool, r, 0, s.phase.event);
    && d.id == r.id
    && d.status == (if s.phase.event.busErr then ECONNRESET else 0)
    && d.actual == (n * r.length - Left(s.ring.pool, r, 0, n)) % U32
  }

  lemma CleanReports(s: Ep)
    requires s.ring.Indexable() && s.phase.Cleaning? && s.ring.queued != [] && ListedFresh(s.ring)
    ensures var s' := CleanStep(s);
            && ListedFresh(s'.ring)
            && |s'.hist.given| == |s.hist.given| + 1
            && s'.hist.given[..|s.hist.given|] == s.hist.given
            && CleanedUp(s, s'.hist.given[|s.hist.given|])
  {
    CleanStepTakesOff(s);
    TakenOutFresh(s.ring.queued, 0);
    var r := s.ring.queued[0];
    WalkCounts(s.config.dirIn, s.ring.pool, r, 0, s.phase.event, 0, s.flags.missedIsoc);
    CleanStepGives(s);
  }

  lemma CleanStepGives(s: Ep)
    requires s.ring.Indexable() && s.phase.Cleaning? && s.ring.queued != [] && IsFresh(s.ring.queued[0])
    ensures var r := s.ring.queued[0];
            CleanStep(s).hist.given
            == s.hist.given
             + [Done(r.id, if s.phase.event.busErr then ECONNRESET else 0,
                     WalkTrbs(s.config.dirIn, s.ring.pool, r, 0, s.phase.event, 0, s.flags.missedIsoc).actual)]
  {
  }

  /** The entry clean-up adds to what was given back, for a request all of whose TRBs are read
      back: it carries the number of bytes moved, what its TRBs were for less what was left
      of them, exactly when that fits 32 bits and the length of the request once for each
      TRB exceeds what its TRBs were for by a multiple of 2^32. */
  lemma GivenCountExact(s: Ep)
    requires s.ring.Indexable() && s.phase.Cleaning? && s.ring.queued != [] && ListedFresh(s.ring)
    requires var r := s.ring.queued[0];
             && Walked(s.config.dirIn, s.ring.pool, r, 0, s.phase.event) == Width(r)
             && Left(s.ring.pool, r, 0, Width(r)) <= Bytes(r)
    ensures var r, n := s.ring.queued[0], |s.hist.given|;
            var moved := Bytes(r) - Left(s.ring.pool, r, 0, Width(r));
            && |CleanStep(s).hist.given| == n + 1
            && (CleanStep(s).hist.given[n].actual == moved
                <==> moved < U32 && (Width(r) * r.length - Bytes(r)) % U32 == 0)
  {
    var r := s.ring.queued[0];
    CleanStepGives(s);
    ByteCountExact(s.config.dirIn, s.ring.pool, r, s.phase.event, s.flags.missedIsoc);
  }

  /** For a request of one TRB: exactly when its length is what that TRB is for, which without
      a buffer chain is when it is below 2^24. */
  lemma GivenOneTrb(s: Ep)
    requires s.ring.Indexable() && s.phase.Cleaning? && s.ring.queued != [] && ListedFresh(s.ring)
    requires var r := s.ring.queued[0];
             && Width(r) == 1 && r.length < U32 && s.ring.pool[CleanupSlot(r.startSlot, 0)].count <= Bytes(r)
    ensures var r, n := s.ring.queued[0], |s.hist.given|;
            && |CleanStep(s).hist.given| == n + 1
            && (CleanStep(s).hist.given[n].actual == Bytes(r) - s.ring.pool[CleanupSlot(r.startSlot, 0)].count
                <==> r.length == Bytes(r))
            && (r.bufs == [] ==> (r.length == Bytes(r) <==> r.length < 0x100_0000))
  {
    var r := s.ring.queued[0];
    CleanStepGives(s);
    OneTrbCount(s.config.dirIn, s.ring.pool, r, s.phase.event, s.flags.missedIsoc);
  }

  // ---------------------------------------------------------------- every step of every run

  /** What a step adds to the requests given back. */
  ghost predicate Reports(s: Ep, a: Action, s': Ep)
    requires s.ring.Indexable() && Enabled(s, a)
  {
    var given, given' := s.hist.given, s'.hist.given;
    if a.Cancel? then given' == given + if a.id in Listed(s) then [Done(a.id, ECONNRESET, 0)] else []
    else if a.Remove? then given' == given + if GivesBack(s) then [Done(NextOut(s).id, ESHUTDOWN, 0)] else []
    else if a.Disable? && s.flags.enabled && s.ring.queued != [] then
      given' == given + [Done(s.ring.queued[0].id, ESHUTDOWN, 0)]
    else if a.Disable? && s.flags.enabled && s.ring.pending != [] then
      given' == given + [Done(s.ring.pending[0].id, ESHUTDOWN, 0)]
    else if a.Clean? && s.ring.queued != [] then
      |given'| == |given| + 1 && given'[..|given|] == given && CleanedUp(s, given'[|given|])
    else given' == given
  }

  lemma FinishReports(s: Ep, index: nat)
    requires s.ring.Indexable() && s.phase.Finishing? && ListedFresh(s.ring)
    ensures ListedFresh(FinishStep(s, index).ring) && FinishStep(s, index).hist.given == s.hist.given
  {
    assert ListedFresh(Settle(s).ring) && Settle(s).hist.given == s.hist.given;
    KickFresh(Settle(s), s.phase.complete, index);
  }

  lemma OthersReport(s: Ep, a: Action)
    requires s.ring.Indexable() && Enabled(s, a) && ListedFresh(s.ring)
    requires a.Halt? || a.Wedge? || a.Enable? || a.Pullup? || a.XferComplete? || a.XferInProgress?
             || a.CommandComplete? || a.Retire?
    ensures ListedFresh(Step(s, a).ring) && Step(s, a).hist.given == s.hist.given
  {
  }

  lemma StepReports(s: Ep, a: Action)
    requires s.ring.Indexable() && Enabled(s, a) && ListedFresh(s.ring)
    ensures ListedFresh(Step(s, a).ring) && Reports(s, a, Step(s, a))
  {
    if a.Queue? {
      QueueFresh(s, a.req, a.index);
    } else if a.Cancel? {
      CancelReports(s, a.id);
    } else if a.Disable? {
      DisableReports(s);
    } else if a.Remove? {
      RemoveReports(s);
    } else if a.Clean? {
      if s.ring.queued != [] {
        CleanReports(s);
      }
    } else if a.Finish? {
      FinishReports(s, a.index);
    } else if a.XferNotReady? {
      KickFresh(s, true, a.index);
      KickFresh(s, !a.active, a.index);
    } else {
      OthersReport(s, a);
    }
  }

  lemma {:induction false} FreshFrom(s: Ep, acts: seq<Action>)
    requires s.ring.Indexable() && ListedFresh(s.ring) && RunIn(s, acts, Unguarded())
    ensures ListedFresh(After(s, acts, Unguarded()).ring)
    decreases |acts|
  {
    if acts != [] {
      StepReports(s, acts[0]);
      FreshFrom(Step(s, acts[0]), acts[1..]);
    }
  }

  /** Over every run from the start, everything listed is in progress with no bytes counted,
      and so every step of it reports as above: ECONNRESET for what is cancelled, ESHUTDOWN for
      what a disable gives back, and for what completes the status of its event and the
      count of its own TRBs. */
  lemma RunReports(acts: seq<Action>, a: Action)
    requires RunIn(Start(), acts + [a], Unguarded())
    ensures RunIn(Start(), acts, Unguarded())
    ensures var s := After(Start(), acts, Unguarded());
            && s.ring.Indexable() && Enabled(s, a) && ListedFresh(s.ring)
            && Reports(s, a, After(Start(), acts + [a], Unguarded()))
  {
    LastStep(Start(), acts, a, Unguarded());
    FreshFrom(Start(), acts);
    StepReports(After(Start(), acts, Unguarded()), a);
  }
}
