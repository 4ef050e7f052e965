/**
 What the ring keeps: how many slots are used, that queued requests sit side by side
 from the dequeue index on, that preparing TRBs only ever writes free slots, what a
 prepared batch looks like, and exactly when each of these can break.
 */
module EndpointRing {
  import opened TrbRing
  import opened EndpointModel

  /** Slots taken by a list of requests. */
  function Used(rs: seq<Request>): (n: nat)
    ensures n >= |rs|
  {
    if rs == [] then 0 else Width(rs[0]) + Used(rs[1..])
  }

  lemma {:induction false} UsedConcat(a: seq<Request>, b: seq<Request>)
    ensures Used(a + b) == Used(a) + Used(b)
  {
    if a == [] {
      assert a + b == b;
    } else {
      UsedConcat(a[1..], b);
      assert (a + b)[1..] == a[1..] + b;
    }
  }

  /** Splitting a list at its k-th request. */
  lemma UsedSplit(rs: seq<Request>, k: nat)
    requires k < |rs|
    ensures Used(rs) == Used(rs[..k]) + Width(rs[k]) + Used(rs[k + 1..])
    ensures Used(Without(rs, k)) == Used(rs) - Width(rs[k])
    ensures Used(rs[..k + 1]) == Used(rs[..k]) + Width(rs[k])
  {
    assert rs == rs[..k] + rs[k..];
    UsedConcat(rs[..k], rs[k..]);
    UsedConcat(rs[..k], rs[k + 1..]);
    assert rs[..k + 1] == rs[..k] + [rs[k]];
    UsedConcat(rs[..k], [rs[k]]);
  }

  lemma UsedPrefix(rs: seq<Request>, k: nat)
    requires k <= |rs|
    ensures Used(rs[..k]) <= Used(rs)
  {
    assert rs == rs[..k] + rs[k..];
    UsedConcat(rs[..k], rs[k..]);
  }

  /** How far slot x lies ahead of `start` on the ring. */
  function Dist(start: nat, x: nat): (d: nat)
    requires start < SLOTS && x < SLOTS
    ensures d < SLOTS && RingSlot(start, d) == x
    ensures forall j :: 0 <= j < SLOTS && RingSlot(start, j) == x ==> j == d
  {
    if x >= start then x - start else x + SLOTS - start
  }

  /** Slots holding TRBs of queued requests. */
  predicate Occupied(s: Ring, x: nat)
    requires s.Indexable()
  {
    x < SLOTS && Dist(s.dequeue, x) < Used(s.queued)
  }

  /** The ring invariant: the indices are as far apart as the queued requests are
      wide, and those never need more than the 1023 slots there are. */
  ghost predicate RingInv(s: Ring) {
    && s.Indexable()
    && Used(s.queued) <= SLOTS
    && s.enqueue == RingSlot(s.dequeue, Used(s.queued))
    && forall k :: 0 <= k < |s.queued| ==> s.queued[k].queued && s.queued[k].startSlot < SLOTS
  }

  /** Queued requests occupy consecutive slots in list order, the first at `dequeue`. */
  ghost predicate Contiguous(s: Ring) {
    forall k :: 0 <= k < |s.queued| ==>
      s.queued[k].startSlot == RingSlot(s.dequeue, Used(s.queued[..k]))
  }

  /** The ownership bit the driver relies on when its indices meet. */
  predicate SeenFull(s: Ring)
    requires s.Indexable()
  {
    Used(s.queued) == SLOTS ==> s.pool[PrevSlot(s.enqueue)].hwo
  }

  /** The TRB a request's i-th slot holds. */
  function TrbOf(s: Ring, r: Request, i: nat): Trb
    requires |s.pool| == TRB_NUM
  {
    s.pool[RingSlot(r.startSlot, i)]
  }

  // ---------------------------------------------------------------- preparing TRBs

  /** Setting up a request writes its own slots and nothing else. */
  lemma {:induction false} WriteTrbsAt(c: Config, pool: seq<Trb>, start: nat, r: Request, i: nat, last: bool, x: nat)
    requires |pool| == TRB_NUM && start < SLOTS && i <= Width(r) <= SLOTS && x < TRB_NUM
    ensures WriteTrbs(c, pool, start, r, i, last)[x]
         == if x < SLOTS && i <= Dist(start, x) < Width(r) then MakeTrb(c, r, Dist(start, x), last) else pool[x]
    decreases Width(r) - i
  {
    if i < Width(r) {
      WriteTrbsAt(c, pool[RingSlot(start, i) := MakeTrb(c, r, i, last)], start, r, i + 1, last, x);
    }
  }

  /** One request moves from the pending list to the ring. */
  lemma SetUpKeepsRing(c: Config, s: Ring, last: bool)
    requires RingInv(s) && s.pending != [] && Width(s.pending[0]) <= SLOTS - Used(s.queued)
    ensures var s' := SetUp(c, s, last);
            && RingInv(s')
            && Used(s'.queued) == Used(s.queued) + Width(s.pending[0])
            && (Contiguous(s) ==> Contiguous(s'))
  {
    var r := s.pending[0];
    var s' := SetUp(c, s, last);
    UsedConcat(s.queued, s'.queued[|s.queued|..]);
    assert s'.queued == s.queued + s'.queued[|s.queued|..];
    RingSlotAdd(s.dequeue, Used(s.queued), Width(r));
    if Contiguous(s) {
      forall k | 0 <= k < |s'.queued|
        ensures s'.queued[k].startSlot == RingSlot(s'.dequeue, Used(s'.queued[..k]))
      {
        if k < |s.queued| {
          assert s'.queued[..k] == s.queued[..k];
        } else {
          assert s'.queued[..k] == s.queued;
        }
      }
    }
  }

  /** Its TRBs are written; those in use, and the link TRB, are not. */
  lemma SetUpKeepsPool(c: Config, s: Ring, last: bool)
    requires RingInv(s) && s.pending != [] && Width(s.pending[0]) <= SLOTS - Used(s.queued)
    ensures var s' := SetUp(c, s, last);
            && |s'.pool| == TRB_NUM
            && (forall x :: 0 <= x < TRB_NUM && (x == LINK || Occupied(s, x)) ==> s'.pool[x] == s.pool[x])
            && (forall x :: 0 <= x < TRB_NUM && s'.pool[x].kind.Link? ==> s.pool[x].kind.Link?)
            && (forall i :: 0 <= i < Width(s.pending[0]) ==>
                  s'.pool[RingSlot(s.enqueue, i)] == MakeTrb(c, s.pending[0], i, last))
  {
    var r := s.pending[0];
    var s' := SetUp(c, s, last);
    forall x | 0 <= x < TRB_NUM
      ensures x == LINK || Occupied(s, x) ==> s'.pool[x] == s.pool[x]
      ensures s'.pool[x].kind.Link? ==> s.pool[x].kind.Link?
    {
      WriteTrbsAt(c, s.pool, s.enqueue, r, 0, last, x);
      if x != LINK && Dist(s.enqueue, x) < Width(r) {
        RingSlotAdd(s.dequeue, Used(s.queued), Dist(s.enqueue, x));
      }
    }
    forall i | 0 <= i < Width(r)
      ensures s'.pool[RingSlot(s.enqueue, i)] == MakeTrb(c, r, i, last)
    {
      WriteTrbsAt(c, s.pool, s.enqueue, r, 0, last, RingSlot(s.enqueue, i));
    }
  }

  lemma SetUpKeeps(c: Config, s: Ring, last: bool)
    requires RingInv(s) && s.pending != [] && Width(s.pending[0]) <= SLOTS - Used(s.queued)
    ensures var s' := SetUp(c, s, last);
            && RingInv(s')
            && Used(s'.queued) == Used(s.queued) + Width(s.pending[0])
            && (Contiguous(s) ==> Contiguous(s'))
            && (Linked(s.pool) ==> Linked(s'.pool))
            && (forall x :: 0 <= x < TRB_NUM && (x == LINK || Occupied(s, x)) ==> s'.pool[x] == s.pool[x])
            && (forall i :: 0 <= i < Width(s.pending[0]) ==>
                  TrbOf(s', s'.queued[|s.queued|], i) == MakeTrb(c, s.pending[0], i, last))
  {
    SetUpKeepsRing(c, s, last);
    SetUpKeepsPool(c, s, last);
  }

  /** The slots of the k-th queued request are occupied. */
  lemma SlotsOccupied(s: Ring, k: nat, i: nat)
    requires RingInv(s) && Contiguous(s) && k < |s.queued| && i < Width(s.queued[k])
    ensures Occupied(s, RingSlot(s.queued[k].startSlot, i))
    ensures Dist(s.dequeue, RingSlot(s.queued[k].startSlot, i)) == Used(s.queued[..k]) + i
  {
    UsedSplit(s.queued, k);
    RingSlotAdd(s.dequeue, Used(s.queued[..k]), i);
  }

  /** Different TRBs of queued requests never share a slot, and none is the link TRB. */
  lemma SlotsDisjoint(s: Ring, k: nat, i: nat, k': nat, i': nat)
    requires RingInv(s) && Contiguous(s)
    requires k < |s.queued| && i < Width(s.queued[k])
    requires k' < |s.queued| && i' < Width(s.queued[k'])
    ensures RingSlot(s.queued[k].startSlot, i) == RingSlot(s.queued[k'].startSlot, i') <==> k == k' && i == i'
    ensures RingSlot(s.queued[k].startSlot, i) != LINK
  {
    SlotsOccupied(s, k, i);
    SlotsOccupied(s, k', i');
    if k < k' {
      PrefixStep(s.queued, k, k');
    } else if k' < k {
      PrefixStep(s.queued, k', k);
    }
  }

  lemma PrefixStep(rs: seq<Request>, k: nat, k': nat)
    requires k < k' <= |rs|
    ensures Used(rs[..k]) + Width(rs[k]) <= Used(rs[..k'])
  {
    UsedSplit(rs, k);
    assert rs[..k'][..k + 1] == rs[..k + 1];
    UsedPrefix(rs[..k'], k + 1);
  }

  /** What a batch prepared with `left` free slots leaves behind: the invariants, the
      request lists as one sequence, and every TRB that was in use. */
  lemma {:induction false} PrepareFromKeeps(c: Config, s: Ring, left: nat)
    requires RingInv(s) && left <= SLOTS - Used(s.queued)
    ensures var s' := PrepareFrom(c, s, left);
            && RingInv(s')
            && s'.dequeue == s.dequeue
            && Used(s'.queued) <= Used(s.queued) + left
            && (Contiguous(s) ==> Contiguous(s'))
            && (Linked(s.pool) ==> Linked(s'.pool))
            && (forall x :: 0 <= x < TRB_NUM && (x == LINK || Occupied(s, x)) ==> s'.pool[x] == s.pool[x])
    decreases |s.pending|
  {
    if s.pending != [] && Width(s.pending[0]) <= left {
      var last := EndsBatch(s, left);
      SetUpKeeps(c, s, last);
      if !last {
        PrepareFromKeeps(c, SetUp(c, s, last), left - Width(s.pending[0]));
      }
    }
  }

  /** Requests move over in order, and only their start slot and queued mark change. */
  ghost predicate MovesOver(s: Ring, s': Ring) {
    var n := |s'.queued| - |s.queued|;
    && 0 <= n <= |s.pending|
    && s'.queued[..|s.queued|] == s.queued
    && s'.pending == s.pending[n..]
    && forall j :: |s.queued| <= j < |s'.queued| ==> IsMoved(s.pending[j - |s.queued|], s'.queued[j])
  }

  predicate IsMoved(r: Request, r': Request) {
    r' == r.(startSlot := r'.startSlot, queued := true)
  }

  lemma MovesOneMore(s: Ring, s1: Ring, s': Ring)
    requires s.pending != [] && |s1.queued| == |s.queued| + 1 && MovesOver(s, s1) && MovesOver(s1, s')
    ensures MovesOver(s, s')
  {
    var n := |s.queued|;
    assert s'.queued[..n] == s'.queued[..n + 1][..n] == s.queued;
    assert s'.queued[n] == s'.queued[..n + 1][n] == s1.queued[n];
    forall j | n <= j < |s'.queued|
      ensures IsMoved(s.pending[j - n], s'.queued[j])
    {
      if j > n {
        assert s1.pending[j - n - 1] == s.pending[j - n];
      }
    }
  }

  lemma MovesNone(s: Ring)
    ensures MovesOver(s, s)
  {
    assert s.pending[0..] == s.pending && s.queued[..|s.queued|] == s.queued;
  }

  lemma SetUpMoves(c: Config, s: Ring, last: bool)
    requires s.Indexable() && s.pending != []
    ensures MovesOver(s, SetUp(c, s, last)) && |SetUp(c, s, last).queued| == |s.queued| + 1
  {
  }

  lemma {:induction false} PrepareFromMoves(c: Config, s: Ring, left: nat)
    requires s.Indexable()
    ensures MovesOver(s, PrepareFrom(c, s, left))
    decreases |s.pending|
  {
    MovesNone(s);
    if s.pending != [] && Width(s.pending[0]) <= left {
      var last := EndsBatch(s, left);
      var s1 := SetUp(c, s, last);
      SetUpMoves(c, s, last);
      if !last {
        PrepareFromMoves(c, s1, left - Width(s.pending[0]));
        MovesOneMore(s, s1, PrepareFrom(c, s, left));
      }
    }
  }

  /** The distance to a slot from w slots further on. */
  lemma DistFrom(start: nat, w: nat, x: nat)
    requires start < SLOTS && x < SLOTS && w <= SLOTS
    ensures Dist(RingSlot(start, w), x)
         == if w <= Dist(start, x) then Dist(start, x) - w else Dist(start, x) + SLOTS - w
  {
    if start + w < SLOTS {
      assert RingSlot(start, w) == start + w;
    } else {
      assert RingSlot(start, w) == start + w - SLOTS;
    }
  }

  /** Whatever the state of the ring, a batch writes only the `left` slots from `enqueue`
      on. */
  lemma {:induction false} PrepareFromWrites(c: Config, s: Ring, left: nat, x: nat)
    requires s.Indexable() && left <= SLOTS && x < TRB_NUM
    requires x == LINK || left <= Dist(s.enqueue, x)
    ensures PrepareFrom(c, s, left).pool[x] == s.pool[x]
    decreases |s.pending|
  {
    if s.pending != [] && Width(s.pending[0]) <= left {
      var last, w := EndsBatch(s, left), Width(s.pending[0]);
      WriteTrbsAt(c, s.pool, s.enqueue, s.pending[0], 0, last, x);
      if !last {
        if x != LINK {
          DistFrom(s.enqueue, w, x);
        }
        PrepareFromWrites(c, SetUp(c, s, last), left - w, x);
      }
    }
  }

  /** Does the final TRB of the batch that led from s to s' carry the LST mark? */
  ghost predicate BatchClosed(s: Ring, s': Ring, left: int)
    requires |s'.queued| > |s.queued|
  {
    || Used(s'.queued) - Used(s.queued) == left
    || (s'.pending == [] && |s'.queued[|s'.queued| - 1].bufs| != 1)
  }

  /** The TRB for the i-th buffer of a request: what it moves, on which stream, where it chains
      and interrupts, and whether it ends the transfer. */
  ghost predicate Shape(t: Trb, c: Config, r: Request, i: nat, lst: bool)
    requires i < Width(r)
  {
    && t.hwo
    && (t.chn <==> i + 1 < Width(r))
    && (t.lst <==> lst)
    && (t.ioc <==> !r.noInterrupt && i + 1 == Width(r))
    && (t.isp <==> c.kind.Isoc?) && (t.csp <==> c.kind.Isoc?)
    && (t.kind.IsocFirst? <==> c.kind.Isoc? && i == 0)
    && (t.kind.Normal? <==> !c.kind.Isoc?)
    && t.sid == (if c.kind.Bulk? && c.streamCapable then r.streamId % 0x1_0000 else 0) && t.sts == 0
    && (r.bufs == [] ==> t.dma == r.dma && t.count == r.length % 0x100_0000)
    && (r.bufs != [] ==> t.dma == r.bufs[i].dma && t.count == r.bufs[i].len % 0x100_0000)
  }

  /** Every TRB of a batch: CHN on all but the last TRB of each request, LST on at most
      one TRB, the last one of the batch, never on isochronous endpoints. */
  ghost predicate BatchShape(c: Config, s: Ring, s': Ring, left: int)
    requires |s'.pool| == TRB_NUM
  {
    forall k, i :: |s.queued| <= k < |s'.queued| && 0 <= i < Width(s'.queued[k]) ==>
      Shape(TrbOf(s', s'.queued[k], i), c, s'.queued[k], i,
            !c.kind.Isoc? && k + 1 == |s'.queued| && i + 1 == Width(s'.queued[k]) && BatchClosed(s, s', left))
  }

  lemma MakeTrbShape(c: Config, r: Request, start: nat, i: nat, last: bool)
    requires i < Width(r)
    ensures Shape(MakeTrb(c, r, i, last), c, r.(startSlot := start, queued := true), i,
                  !c.kind.Isoc? && last && i + 1 == Width(r))
  {
  }

  /** The TRBs of the request just set up are still there after the rest of the batch. */
  lemma FirstOfBatchTrb(c: Config, s: Ring, left: nat, i: nat)
    requires s.Indexable() && left <= SLOTS
    requires s.pending != [] && Width(s.pending[0]) <= left && i < Width(s.pending[0])
    ensures var s' := PrepareFrom(c, s, left);
            var n := |s.queued|;
            && |s'.queued| > n
            && s'.queued[n] == s.pending[0].(startSlot := s.enqueue, queued := true)
            && TrbOf(s', s'.queued[n], i) == MakeTrb(c, s.pending[0], i, EndsBatch(s, left))
  {
    var last, w := EndsBatch(s, left), Width(s.pending[0]);
    var s1 := SetUp(c, s, last);
    var s' := PrepareFrom(c, s, left);
    var n := |s.queued|;
    WriteTrbsAt(c, s.pool, s.enqueue, s.pending[0], 0, last, RingSlot(s.enqueue, i));
    if !last {
      DistFrom(s.enqueue, w, RingSlot(s.enqueue, i));
      PrepareFromWrites(c, s1, left - w, RingSlot(s.enqueue, i));
      PrepareFromMoves(c, s1, left - w);
      assert s'.queued[n] == s'.queued[..n + 1][n] == s1.queued[n];
    }
  }

  lemma NothingMoved(s: Ring, s': Ring)
    requires MovesOver(s, s') && |s'.queued| == |s.queued|
    ensures s'.queued == s.queued && s'.pending == s.pending
  {
    assert s'.queued == s'.queued[..|s.queued|];
  }

  lemma BatchOfOne(c: Config, s: Ring, left: nat)
    requires s.Indexable() && s.pending != [] && Width(s.pending[0]) <= left
    ensures var s1 := SetUp(c, s, EndsBatch(s, left));
            && |s1.queued| == |s.queued| + 1
            && Used(s1.queued) == Used(s.queued) + Width(s.pending[0])
            && (EndsBatch(s, left) <==> BatchClosed(s, s1, left))
  {
    var s1 := SetUp(c, s, EndsBatch(s, left));
    UsedConcat(s.queued, s1.queued[|s.queued|..]);
    assert s1.queued == s.queued + s1.queued[|s.queued|..];
  }

  /** A batch that goes on from s1 either moves more requests or ends as it was. */
  lemma LastOfBatch(s: Ring, s1: Ring, s': Ring, left: nat)
    requires |s1.queued| == |s.queued| + 1 <= |s'.queued| && !BatchClosed(s, s1, left)
    requires |s'.queued| == |s1.queued| ==> s'.queued == s1.queued && s'.pending == s1.pending
    ensures !(|s'.queued| == |s.queued| + 1 && BatchClosed(s, s', left))
  {
  }

  /** The driver's notion of the last request is the batch's. */
  lemma FirstOfBatchLast(c: Config, s: Ring, left: nat)
    requires s.Indexable()
    requires s.pending != [] && Width(s.pending[0]) <= left
    ensures var s' := PrepareFrom(c, s, left);
            && |s'.queued| > |s.queued|
            && (EndsBatch(s, left) <==> |s'.queued| == |s.queued| + 1 && BatchClosed(s, s', left))
  {
    var last := EndsBatch(s, left);
    var s1 := SetUp(c, s, last);
    BatchOfOne(c, s, left);
    if !last {
      var s' := PrepareFrom(c, s1, left - Width(s.pending[0]));
      PrepareFromMoves(c, s1, left - Width(s.pending[0]));
      if |s'.queued| == |s1.queued| {
        NothingMoved(s1, s');
      }
      LastOfBatch(s, s1, s', left);
    }
  }

  lemma FirstOfBatchShape(c: Config, s: Ring, left: nat, i: nat)
    requires s.Indexable() && left <= SLOTS
    requires s.pending != [] && Width(s.pending[0]) <= left && i < Width(s.pending[0])
    ensures var s' := PrepareFrom(c, s, left);
            var n := |s.queued|;
            && |s'.queued| > n && Width(s'.queued[n]) == Width(s.pending[0])
            && Shape(TrbOf(s', s'.queued[n], i), c, s'.queued[n], i,
                     !c.kind.Isoc? && n + 1 == |s'.queued| && i + 1 == Width(s'.queued[n])
                     && BatchClosed(s, s', left))
  {
    FirstOfBatchTrb(c, s, left, i);
    FirstOfBatchLast(c, s, left);
    MakeTrbShape(c, s.pending[0], s.enqueue, i, EndsBatch(s, left));
  }

  /** Every batch, on any ring, has that shape. */
  lemma {:induction false} PrepareFromShape(c: Config, s: Ring, left: nat)
    requires s.Indexable() && left <= SLOTS
    ensures BatchShape(c, s, PrepareFrom(c, s, left), left)
    decreases |s.pending|
  {
    if s.pending != [] && Width(s.pending[0]) <= left {
      var last := EndsBatch(s, left);
      var s1 := SetUp(c, s, last);
      var s' := PrepareFrom(c, s, left);
      var rest := left - Width(s.pending[0]);
      BatchOfOne(c, s, left);
      forall k, i | |s.queued| <= k < |s'.queued| && 0 <= i < Width(s'.queued[k])
        ensures Shape(TrbOf(s', s'.queued[k], i), c, s'.queued[k], i,
                      !c.kind.Isoc? && k + 1 == |s'.queued| && i + 1 == Width(s'.queued[k]) && BatchClosed(s, s', left))
      {
        if k == |s.queued| {
          if i < Width(s.pending[0]) {
            FirstOfBatchShape(c, s, left, i);
          } else {
            FirstOfBatchShape(c, s, left, 0);
          }
        } else {
          assert s' == PrepareFrom(c, s1, rest);
          PrepareFromShape(c, s1, rest);
          assert BatchClosed(s, s', left) == BatchClosed(s1, s', rest);
        }
      }
    }
  }

  /** Preparing never takes anything off either list. */
  lemma {:induction false} PrepareFromGrows(c: Config, s: Ring, left: nat)
    requires s.Indexable()
    ensures var s' := PrepareFrom(c, s, left);
            && Used(s'.queued) >= Used(s.queued)
            && (s'.queued == s.queued <==> s.pending == [] || left < Width(s.pending[0]))
            && (s'.queued != s.queued ==> Used(s'.queued) >= Used(s.queued) + Width(s.pending[0]))
    decreases |s.pending|
  {
    if s.pending != [] && Width(s.pending[0]) <= left {
      var last := EndsBatch(s, left);
      var s1 := SetUp(c, s, last);
      UsedConcat(s.queued, s1.queued[|s.queued|..]);
      assert s1.queued == s.queued + s1.queued[|s.queued|..];
      if !last {
        PrepareFromGrows(c, s1, left - Width(s.pending[0]));
      }
    }
  }

  /** A batch goes on until nothing is pending or the head of the pending list does not fit
      what the requests moved have left. */
  lemma {:induction false} PrepareFromExhausts(c: Config, s: Ring, left: nat)
    requires s.Indexable()
    ensures var s' := PrepareFrom(c, s, left);
            && Used(s.queued) <= Used(s'.queued) <= Used(s.queued) + left
            && (s'.pending == [] || Used(s.queued) + left < Used(s'.queued) + Width(s'.pending[0]))
    decreases |s.pending|
  {
    if s.pending != [] && Width(s.pending[0]) <= left {
      var last := EndsBatch(s, left);
      BatchOfOne(c, s, left);
      if !last {
        PrepareFromExhausts(c, SetUp(c, s, last), left - Width(s.pending[0]));
      }
    }
  }

  /** The free-slot count on a ring that keeps its invariant. */
  lemma FreeSlotsExact(s: Ring)
    requires RingInv(s)
    ensures FreeSlots(s) == SLOTS - Used(s.queued)
       <==> SeenFull(s) && (s.queued == [] ==> !s.pool[PrevSlot(s.enqueue)].hwo)
    ensures SeenFull(s) ==> FreeSlots(s) <= SLOTS - Used(s.queued)
    ensures !SeenFull(s) ==> FreeSlots(s) == SLOTS
  {
    TrbsLeftExact(s.dequeue, Used(s.queued), s.pool[PrevSlot(s.enqueue)].hwo);
  }

  /** A batch keeps the ring invariant exactly when the driver does not mistake a full
      ring for an empty one, or has nothing to put on it. */
  lemma PrepareKeepsInvariant(c: Config, s: Ring)
    requires RingInv(s)
    ensures RingInv(Prepare(c, s))
       <==> SeenFull(s) || s.pending == [] || Width(s.pending[0]) > SLOTS
  {
    FreeSlotsExact(s);
    if SeenFull(s) {
      PrepareFromKeeps(c, s, FreeSlots(s));
    } else {
      PrepareFromGrows(c, s, FreeSlots(s));
    }
  }

  /** Preparing never touches the link TRB or a TRB in use, keeps requests side by
      side, and builds a well-shaped batch. */
  lemma PrepareKeeps(c: Config, s: Ring)
    requires RingInv(s) && SeenFull(s)
    ensures var s' := Prepare(c, s);
            && RingInv(s')
            && s'.dequeue == s.dequeue
            && (Linked(s.pool) ==> Linked(s'.pool))
            && (forall x :: 0 <= x < SLOTS && Occupied(s, x) ==> s'.pool[x] == s.pool[x])
            && (Contiguous(s) ==> Contiguous(s'))
            && BatchShape(c, s, s', FreeSlots(s))
  {
    FreeSlotsExact(s);
    PrepareFromKeeps(c, s, FreeSlots(s));
    BatchAlwaysShaped(c, s);
  }

  /** Requests move over in order and get a well-shaped batch whatever the state of the
      ring: requests cancelled in any order, or a full ring taken for an empty one. */
  lemma BatchAlwaysShaped(c: Config, s: Ring)
    requires s.Indexable()
    ensures MovesOver(s, Prepare(c, s)) && BatchShape(c, s, Prepare(c, s), FreeSlots(s))
  {
    PrepareFromMoves(c, s, FreeSlots(s));
    PrepareFromShape(c, s, FreeSlots(s));
  }

  /** What is counted when a full ring is seen as full. */
  lemma FreeSlotsSeen(s: Ring)
    requires RingInv(s) && SeenFull(s)
    ensures FreeSlots(s)
         == if s.queued == [] && s.pool[PrevSlot(s.enqueue)].hwo then 0 else SLOTS - Used(s.queued)
  {
    FreeSlotsExact(s);
  }

  /** The head of the pending list gets its TRBs exactly when it fits the free slots and
      an empty ring does not show a stale ownership bit before `enqueue`. */
  lemma PrepareProgress(c: Config, s: Ring)
    requires RingInv(s) && SeenFull(s) && s.pending != []
    ensures Prepare(c, s).queued != s.queued
       <==> && Width(s.pending[0]) <= SLOTS - Used(s.queued)
            && (s.queued == [] ==> !s.pool[PrevSlot(s.enqueue)].hwo)
  {
    FreeSlotsSeen(s);
    PrepareFromGrows(c, s, FreeSlots(s));
  }

  // ---------------------------------------------------------------- giving back

  /** Giving back a queued request keeps the ring invariant, whichever request it is. */
  lemma TakeOffKeeps(s: Ring, k: nat)
    requires RingInv(s) && k < |s.queued|
    ensures RingInv(TakeOff(s, k))
    ensures Used(TakeOff(s, k).queued) == Used(s.queued) - Width(s.queued[k])
  {
    UsedSplit(s.queued, k);
    RingSlotAdd(s.dequeue, Width(s.queued[k]), Used(TakeOff(s, k).queued));
  }

  lemma TakeOffFirst(s: Ring)
    requires RingInv(s) && Contiguous(s) && s.queued != []
    ensures Contiguous(TakeOff(s, 0))
  {
    var s' := TakeOff(s, 0);
    forall j | 0 <= j < |s'.queued|
      ensures s'.queued[j].startSlot == RingSlot(s'.dequeue, Used(s'.queued[..j]))
    {
      assert s.queued[..j + 1] == [s.queued[0]] + s'.queued[..j];
      RingSlotAdd(s.dequeue, Width(s.queued[0]), Used(s'.queued[..j]));
      assert s'.queued[j] == s.queued[j + 1];
    }
  }

  lemma HeadAtDequeue(s: Ring)
    requires RingInv(s) && Contiguous(s) && s.queued != []
    ensures s.queued[0].startSlot == s.dequeue
  {
    assert s.queued[..0] == [];
    assert s.queued[0].startSlot == RingSlot(s.dequeue, Used(s.queued[..0]));
  }

  /** The requests left on the ring stay side by side exactly when the one given back
      was the first. */
  lemma TakeOffKeepsSlots(s: Ring, k: nat)
    requires RingInv(s) && Contiguous(s) && k < |s.queued|
    ensures Contiguous(TakeOff(s, k)) <==> k == 0
  {
    if k == 0 {
      TakeOffFirst(s);
    } else {
      var s' := TakeOff(s, k);
      HeadAtDequeue(s);
      PrefixStep(s.queued, 0, k);
      UsedSplit(s.queued, k);
      RingSlotInjective(s.dequeue, 0, Width(s.queued[k]));
      TakeOffKeeps(s, k);
      assert s'.queued[0] == s.queued[0];
      if Contiguous(s') {
        HeadAtDequeue(s');
      }
    }
  }

  /** From u slots past d, the way round to d is what u leaves of a lap. */
  lemma WayRound(d: nat, u: nat)
    requires d < SLOTS && 0 < u <= SLOTS
    ensures Dist(RingSlot(d, u), d) == SLOTS - u
  {
    if d + u < SLOTS {
      assert RingSlot(d, u) == d + u;
    } else {
      assert RingSlot(d, u) == d + u - SLOTS;
    }
  }

  /** Once a queued request other than the first has been cancelled, the first TRB of
      the request at the head of the list lies among the slots counted as free: as many
      slots as are counted, from `enqueue` on, reach that TRB. */
  lemma CancelExposesHead(s: Ring, k: nat)
    requires RingInv(s) && Contiguous(s) && 0 < k < |s.queued|
    ensures var s' := TakeOff(s, k);
            && s'.queued[0] == s.queued[0]
            && Dist(s'.enqueue, s'.queued[0].startSlot) < FreeSlots(s')
  {
    var s' := TakeOff(s, k);
    var u := Used(s.queued);
    HeadAtDequeue(s);
    PrefixStep(s.queued, 0, k);
    UsedSplit(s.queued, k);
    TakeOffKeeps(s, k);
    FreeSlotsExact(s');
    WayRound(s.dequeue, u);
    assert s'.enqueue == RingSlot(s.dequeue, u);
    assert Used(s'.queued) == u - Width(s.queued[k]);
  }

  /** The TRB of a slot the next pending request reaches, the queued ones staying. */
  lemma BatchOverwrites(c: Config, s: Ring, x: nat)
    requires s.Indexable() && s.pending != [] && x < SLOTS && s.queued != []
    requires Dist(s.enqueue, x) < Width(s.pending[0]) <= FreeSlots(s)
    ensures var s' := Prepare(c, s);
            && |s'.queued| > 0 && s'.queued[0] == s.queued[0]
            && s'.pool[x] == MakeTrb(c, s.pending[0], Dist(s.enqueue, x), EndsBatch(s, FreeSlots(s)))
  {
    var s' := Prepare(c, s);
    FirstOfBatchTrb(c, s, FreeSlots(s), Dist(s.enqueue, x));
    PrepareFromMoves(c, s, FreeSlots(s));
    assert s'.queued[0] == s'.queued[..|s.queued|][0];
  }

  /** A pending request that takes no more than the slots counted as free and reaches that
      TRB is written over it, while the request it belongs to stays at the head. */
  lemma CancelOverwritesHead(c: Config, s: Ring, k: nat)
    requires RingInv(s) && Contiguous(s) && 0 < k < |s.queued| && s.pending != []
    requires Dist(s.enqueue, s.queued[0].startSlot) < Width(s.pending[0]) <= FreeSlots(TakeOff(s, k))
    ensures var s1 := TakeOff(s, k);
            var s2 := Prepare(c, s1);
            && |s2.queued| > 0 && s2.queued[0] == s.queued[0]
            && TrbOf(s2, s.queued[0], 0)
            == MakeTrb(c, s.pending[0], Dist(s.enqueue, s.queued[0].startSlot), EndsBatch(s1, FreeSlots(s1)))
  {
    var s1 := TakeOff(s, k);
    var x := s.queued[0].startSlot;
    assert s1.enqueue == s.enqueue && s1.pending == s.pending && s1.queued[0] == s.queued[0];
    assert RingSlot(x, 0) == x;
    BatchOverwrites(c, s1, x);
  }
}
