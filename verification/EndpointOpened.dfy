/**
 The beginnings of concrete runs: an endpoint connected and enabled, and the first
 request queued on it.
 */
module EndpointOpened {
  import opened TrbRing
  import opened EndpointModel
  import opened EndpointRing
  import opened EndpointRuns

  /** The actions lead from one state to the other. */
  ghost predicate Leads(s: Ep, acts: seq<Action>, s': Ep)
    requires s.ring.Indexable()
  {
    RunIn(s, acts, Unguarded()) && After(s, acts, Unguarded()) == s'
  }

  lemma {:induction false} LeadsOn(s: Ep, acts: seq<Action>, s': Ep, a: Action)
    requires s.ring.Indexable() && Leads(s, acts, s')
    ensures s'.ring.Indexable()
    ensures Enabled(s', a) ==> Leads(s, acts + [a], Step(s', a))
    decreases |acts|
  {
    if acts == [] {
      assert [a][1..] == [];
    } else {
      LeadsOn(Step(s, acts[0]), acts[1..], s', a);
      assert (acts + [a])[1..] == acts[1..] + [a];
    }
  }

  /** One more action of a list: the first k lead to s, so k + 1 of them lead on. */
  lemma LeadsNext(acts: seq<Action>, k: nat, s: Ep) returns (s': Ep)
    requires k < |acts| && Leads(Start(), acts[..k], s)
    requires Enabled(s, acts[k])
    ensures s.ring.Indexable() && s' == Step(s, acts[k])
    ensures Leads(Start(), acts[..k + 1], s')
    ensures k + 1 == |acts| ==> Leads(Start(), acts, s')
  {
    LeadsOn(Start(), acts[..k], s, acts[k]);
    assert acts[..k + 1] == acts[..k] + [acts[k]];
    s' := Step(s, acts[k]);
    assert k + 1 == |acts| ==> acts[..k + 1] == acts;
  }

  /** Connected and enabled. */
  function Opened(c: Config): (s: Ep)
    ensures s.ring.Indexable()
  {
    EpEnable(Start().(pullups := true), c)
  }

  lemma OpenedByRun(c: Config, acts: seq<Action>)
    requires |acts| >= 2 && acts[0] == Pullup(true) && acts[1] == Enable(c)
    ensures Leads(Start(), acts[..2], Opened(c))
    ensures RingInv(Opened(c).ring) && Contiguous(Opened(c).ring)
  {
    var s1 := LeadsNext(acts, 0, Start());
    var s2 := LeadsNext(acts, 1, s1);
  }

  lemma QueuedByRun(c: Config, r: Request, index: nat, acts: seq<Action>)
    requires |acts| >= 3 && acts[0] == Pullup(true) && acts[1] == Enable(c) && acts[2] == Queue(r, index)
    ensures Leads(Start(), acts[..3], Step(Opened(c), Queue(r, index)))
  {
    OpenedByRun(c, acts);
    var s1 := LeadsNext(acts, 2, Opened(c));
  }

  /** What a request moves for its i-th TRB. */
  function BufferOf(r: Request, i: nat): nat
    requires i < Width(r)
  {
    if |r.bufs| > 0 then r.bufs[i].len else r.length
  }

  lemma UsedOne(rs: seq<Request>)
    ensures |rs| == 1 ==> Used(rs) == Width(rs[0])
  {
    if |rs| == 1 {
      assert Used(rs[1..]) == 0;
    }
  }

  /** A request queued on an idle bulk endpoint with nothing listed: it is put on the ring
      from `enqueue` on, and a transfer is started. */
  ghost predicate PutOnRing(s: Ep, r: Request, index: nat, s': Ep)
    requires s.ring.Indexable()
  {
    && s'.ring.Indexable() && RingInv(s'.ring)
    && |s'.ring.queued| == 1 && s'.ring.pending == []
    && s'.ring.queued[0] == r.(actual := 0, status := EINPROGRESS, queued := true, startSlot := s.ring.enqueue)
    && s'.ring.dequeue == s.ring.dequeue && s'.ring.enqueue == RingSlot(s.ring.enqueue, Width(r))
    && (forall i :: 0 <= i < Width(r) ==>
          var trb := s'.ring.pool[RingSlot(s.ring.enqueue, i)];
          trb.hwo && trb.count == BufferOf(r, i) % 0x100_0000)
    && s' == s.(ring := s'.ring, flags := s.flags.(busy := true), resourceIndex := index,
                hist := s.hist.(accepted := s.hist.accepted + [r.id],
                                log := s.hist.log + [StartTransfer(s.ring.enqueue)]))
  }

  /** What a kick makes of a request that has just been accepted there. */
  lemma KickOnIdle(s: Ep, r: Request, index: nat)
    requires RingInv(s.ring) && s.ring.queued == [] && s.ring.pending == []
    requires s.pullups && !s.flags.busy
    requires !s.ring.pool[PrevSlot(s.ring.enqueue)].hwo
    requires Width(r) <= SLOTS
    ensures PutOnRing(s, r, index, Kick(Accept(s, r), true, index).0) && Kick(Accept(s, r), true, index).1 == 0
  {
    var a := Accept(s, r).ring;
    var s' := Prepare(s.config, a);
    PrepareKeeps(s.config, a);
    PrepareProgress(s.config, a);
    PrepareFromMoves(s.config, a, FreeSlots(a));
    FirstOfBatchTrb(s.config, a, FreeSlots(a), 0);
    UsedOne(s'.queued);
    forall i | 0 <= i < Width(r)
      ensures s'.pool[RingSlot(a.enqueue, i)] == MakeTrb(s.config, a.pending[0], i, EndsBatch(a, FreeSlots(a)))
    {
      FirstOfBatchTrb(s.config, a, FreeSlots(a), i);
    }
    assert Kick(Accept(s, r), true, index).0.ring == s';
  }

  lemma QueueOnIdle(s: Ep, r: Request, index: nat)
    requires RingInv(s.ring) && s.ring.queued == [] && s.ring.pending == []
    requires s.config.hasDesc && s.config.kind.Bulk? && s.pullups && !s.flags.busy
    requires !s.ring.pool[PrevSlot(s.ring.enqueue)].hwo
    requires r.own && Width(r) <= SLOTS
    ensures PutOnRing(s, r, index, EpQueue(s, r, index).0)
  {
    KickOnIdle(s, r, index);
  }

  /** The first request on an open bulk endpoint. */
  lemma FirstQueued(c: Config, r: Request, index: nat)
    requires c.kind.Bulk? && r.own && Width(r) <= SLOTS
    ensures Opened(c).ring.enqueue == 0 && Opened(c).ring.dequeue == 0
    ensures PutOnRing(Opened(c), r, index, EpQueue(Opened(c), r, index).0)
    ensures Contiguous(EpQueue(Opened(c), r, index).0.ring)
  {
    OpenedByRun(c, [Pullup(true), Enable(c)]);
    QueueOnIdle(Opened(c), r, index);
    var s := EpQueue(Opened(c), r, index).0.ring;
    assert Used(s.queued[..0]) == 0;
  }
}
