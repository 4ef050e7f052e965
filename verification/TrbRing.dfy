/**
 The arithmetic of one endpoint's TRB ring: 1023 usable slots followed by a link
 TRB in slot 1023.  Four pieces of code walk the same slots, each in its own way:
 the incrementing enqueue/dequeue indices, the slot formula used when finished
 requests are cleaned up, the free-space computation, and the controller itself,
 which follows the physical array of 1024 TRBs through the link.
 */
module TrbRing {
  import opened Octets

  const TRB_NUM: int := 1024
  /** Usable slots; also the index of the link TRB. */
  const SLOTS: int := 1023
  const LINK: int := 1023

  datatype TrbKind = Unset | Normal | IsocFirst | IsocNext | Link

  /** One transfer request block.  `count` is the 24-bit length field (what is left
      to transfer, once the controller has written it back), `sts` the 4-bit status. */
  datatype Trb = Trb(dma: nat, count: nat, sts: nat, kind: TrbKind,
                     hwo: bool, lst: bool, chn: bool, csp: bool, isp: bool, ioc: bool, sid: nat)

  const ZERO_TRB := Trb(0, 0, 0, Unset, false, false, false, false, false, false, 0)
  /** The link TRB points at slot 0; its HWO bit is never reset. */
  const LINK_TRB := Trb(0, 0, 0, Link, true, false, false, false, false, false, 0)

  /** The step of the enqueue and dequeue indices. */
  function IncTrb(index: nat): (r: nat)
    requires index < SLOTS
    ensures r < SLOTS
  {
    var next := index + 1;
    if next == TRB_NUM - 1 then 0 else next
  }

  /** `n` steps of an index. */
  function IncBy(index: nat, n: nat): (r: nat)
    requires index < SLOTS
    ensures r < SLOTS
  {
    if n == 0 then index else IncTrb(IncBy(index, n - 1))
  }

  /** The slot looked at for the i-th TRB of a request by the clean-up loop. */
  function CleanupSlot(startSlot: nat, i: nat): (slot: nat)
    ensures slot < TRB_NUM
  {
    var slot := startSlot + i;
    var skipped := if slot >= TRB_NUM - 1 then slot + 1 else slot;
    skipped % TRB_NUM
  }

  /** The i-th slot after `start` on a ring of 1023. */
  function RingSlot(start: nat, i: nat): (slot: nat)
    ensures slot < SLOTS
  {
    (start + i) % SLOTS
  }

  /** One step of the controller: the next TRB in memory, following a link TRB. */
  function HwNext(pool: seq<Trb>, p: nat): nat
    requires |pool| == TRB_NUM
  {
    var next := (p + 1) % TRB_NUM;
    if pool[next].kind.Link? then pool[next].dma else next
  }

  function HwWalk(pool: seq<Trb>, p: nat, n: nat): nat
    requires |pool| == TRB_NUM
  {
    if n == 0 then p else HwNext(pool, HwWalk(pool, p, n - 1))
  }

  /** The pool as endpoint enabling leaves it and as every later step keeps it:
      exactly the last TRB is a link, and it leads to slot 0. */
  ghost predicate Linked(pool: seq<Trb>) {
    && |pool| == TRB_NUM
    && pool[LINK] == LINK_TRB
    && forall j :: 0 <= j < SLOTS ==> !pool[j].kind.Link?
  }

  /** Stepping an index n times lands n slots further round the ring. */
  lemma {:induction false} IncByIsRingSlot(index: nat, n: nat)
    requires index < SLOTS
    ensures IncBy(index, n) == RingSlot(index, n)
  {
    if n != 0 {
      IncByIsRingSlot(index, n - 1);
    }
  }

  /** The controller, walking 1024 physical TRBs through the link, visits the same slots. */
  lemma {:induction false} HwWalkIsRingSlot(pool: seq<Trb>, p: nat, n: nat)
    requires Linked(pool) && p < SLOTS
    ensures HwWalk(pool, p, n) == RingSlot(p, n)
  {
    if n != 0 {
      HwWalkIsRingSlot(pool, p, n - 1);
    }
  }

  /** Clean-up, preparation and hardware agree on the i-th slot of a request, for
      every start slot and every TRB a request that fits the ring can have. */
  lemma WalksAgree(pool: seq<Trb>, startSlot: nat, i: nat)
    requires Linked(pool) && startSlot < SLOTS && i < SLOTS
    ensures CleanupSlot(startSlot, i) == RingSlot(startSlot, i)
    ensures CleanupSlot(startSlot, i) == IncBy(startSlot, i)
    ensures CleanupSlot(startSlot, i) == HwWalk(pool, startSlot, i)
    ensures CleanupSlot(startSlot, i) != LINK
  {
    IncByIsRingSlot(startSlot, i);
    HwWalkIsRingSlot(pool, startSlot, i);
  }

  /** The clean-up formula is exact on the first two laps only: it skips one link
      TRB, so the first index past the second lap is the link TRB itself. */
  lemma CleanupSlotLimit(startSlot: nat, i: nat)
    requires startSlot + i < 3 * SLOTS
    ensures CleanupSlot(startSlot, i) == RingSlot(startSlot, i) <==> startSlot + i < 2 * SLOTS
    ensures startSlot + i == 2 * SLOTS ==> CleanupSlot(startSlot, i) == LINK
  {
    var slot := startSlot + i;
    if slot < SLOTS {
    } else if slot < 2 * SLOTS {
      assert slot % SLOTS == slot - SLOTS;
    } else {
      assert slot % SLOTS == slot - 2 * SLOTS;
      if slot + 1 < 2 * TRB_NUM {
        assert (slot + 1) % TRB_NUM == slot + 1 - TRB_NUM;
      } else {
        assert (slot + 1) % TRB_NUM == slot + 1 - 2 * TRB_NUM;
      }
    }
  }

  /** The slot before `enqueue`, whose ownership bit tells a full ring from an empty one. */
  function PrevSlot(enqueue: nat): (slot: nat)
    requires enqueue < SLOTS
    ensures slot < SLOTS && IncTrb(slot) == enqueue
  {
    if enqueue == 0 then TRB_NUM - 2 else enqueue - 1
  }

  /** Free slots as the driver computes them, in 32-bit unsigned arithmetic with a
      1024 mask and a correction for the link TRB. */
  function TrbsLeft(enqueue: nat, dequeue: nat, prevHwo: bool): (left: int)
    requires enqueue < SLOTS && dequeue < SLOTS
    ensures 0 <= left <= SLOTS
  {
    if enqueue == dequeue then
      if prevHwo then 0 else TRB_NUM - 1
    else
      var masked := ((dequeue - enqueue) % U32) % TRB_NUM;
      if dequeue < enqueue then masked - 1 else masked
  }

  /** The free-space computation is right exactly when the ownership bit of the slot
      before `enqueue` agrees with that slot being occupied; that bit only matters
      when the two indices meet. */
  lemma TrbsLeftExact(dequeue: nat, used: nat, prevHwo: bool)
    requires dequeue < SLOTS && used <= SLOTS
    ensures var enqueue := RingSlot(dequeue, used);
            TrbsLeft(enqueue, dequeue, prevHwo) == SLOTS - used
            <==> (0 < used < SLOTS || (prevHwo <==> used == SLOTS))
  {
    var enqueue := RingSlot(dequeue, used);
    if dequeue + used < SLOTS {
      assert enqueue == dequeue + used;
    } else if dequeue + used < 2 * SLOTS {
      assert enqueue == dequeue + used - SLOTS;
    }
  }

  /** Slots reached by different numbers of steps below one lap are different. */
  lemma RingSlotInjective(start: nat, i: nat, j: nat)
    requires i < SLOTS && j < SLOTS
    ensures RingSlot(start, i) == RingSlot(start, j) <==> i == j
  {
    var base := start % SLOTS;
    assert RingSlot(start, i) == (base + i) % SLOTS;
    assert RingSlot(start, j) == (base + j) % SLOTS;
  }

  lemma RingSlotAdd(start: nat, i: nat, j: nat)
    ensures RingSlot(RingSlot(start, i), j) == RingSlot(start, i + j)
  {
  }
}
