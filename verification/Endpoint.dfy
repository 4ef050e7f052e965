/**
 The endpoint as the driver runs it: an array of TRBs and a record of fields updated
 in place by loops.  Every method is proved to compute the step of EndpointModel it
 stands for, so the theorems about runs apply to this object.
 */
module Endpoint {
  import opened Octets
  import opened TrbRing
  import opened EndpointModel

  /** Requests handed in by completion callbacks are not on a list. */
  ghost predicate Fresh(cs: seq<GadgetCall>) {
    forall i :: 0 <= i < |cs| && cs[i].Queueing? ==> !cs[i].req.queued
  }

  ghost predicate AllFresh(css: seq<seq<GadgetCall>>) {
    forall i :: 0 <= i < |css| ==> Fresh(css[i])
  }

  class Endpoint {
    const trbPool: array<Trb>
    var trbEnqueue: nat
    var trbDequeue: nat
    var requestList: seq<Request>
    var reqQueued: seq<Request>
    var config: Config
    var flags: Flags
    var resourceIndex: nat
    var pullupsConnected: bool
    ghost var phase: Phase
    ghost var removing: seq<Part>
    ghost var hist: History

    ghost function Rg(): Ring
      reads this, trbPool
    {
      Ring(trbEnqueue, trbDequeue, trbPool[..], requestList, reqQueued)
    }

    ghost function Abs(): Ep
      reads this, trbPool
    {
      Ep(config, Rg(), flags, resourceIndex, pullupsConnected, phase, removing, hist)
    }

    ghost predicate Valid()
      reads this, trbPool
    {
      && Rg().Indexable()
      && (forall k :: 0 <= k < |requestList| ==> !requestList[k].queued)
      && (forall k :: 0 <= k < |reqQueued| ==> reqQueued[k].queued)
    }

    /** A disabled endpoint with nothing queued. */
    constructor ()
      ensures Valid() && fresh(trbPool)
      ensures Abs() == Start()
    {
      trbPool := new Trb[TRB_NUM](_ => ZERO_TRB);
      trbEnqueue, trbDequeue := 0, 0;
      requestList, reqQueued := [], [];
      config := Config(Bulk, false, false, false);
      flags := NO_FLAGS;
      resourceIndex, pullupsConnected := 0, false;
      phase, removing, hist := Idle, [], History([], [], []);
      new;
      assert trbPool[..] == Start().ring.pool;
    }

    // -------------------------------------------------------------- the ring

    method CalcTrbsLeft() returns (left: nat)
      requires Valid()
      ensures left == FreeSlots(Rg())
    {
      if trbEnqueue == trbDequeue {
        var prev := if trbEnqueue == 0 then TRB_NUM - 2 else trbEnqueue - 1;
        if trbPool[prev].hwo {
          return 0;
        }
        return TRB_NUM - 1;
      }
      left := (trbDequeue - trbEnqueue) % U32;
      left := left % TRB_NUM;
      if trbDequeue < trbEnqueue {
        left := left - 1;
      }
    }

    /** Set up one TRB at `enqueue`.  The first TRB of a request moves the request to
        the queued list and records its start slot. */
    method PrepareOneTrb(req: Request, dma: nat, length: nat, last: bool, chain: bool, node: nat)
      returns (req': Request)
      requires Valid()
      requires !req.queued ==> requestList != [] && requestList[0] == req
      modifies this`trbEnqueue, this`requestList, this`reqQueued, trbPool
      ensures Valid()
      ensures trbEnqueue == IncTrb(old(trbEnqueue))
      ensures if req.queued then
                req' == req && requestList == old(requestList) && reqQueued == old(reqQueued)
              else
                && req' == req.(queued := true, startSlot := old(trbEnqueue))
                && requestList == old(requestList)[1..] && reqQueued == old(reqQueued) + [req']
      ensures trbPool[..] == old(trbPool[..])[old(trbEnqueue) :=
                Trb(dma, length % 0x100_0000, 0,
                    if config.kind.Isoc? then (if node == 0 then IsocFirst else IsocNext) else Normal,
                    true, !config.kind.Isoc? && last, chain, config.kind.Isoc?, config.kind.Isoc?,
                    !req.noInterrupt && !chain,
                    if config.kind.Bulk? && config.streamCapable then req.streamId % 0x1_0000 else 0)]
    {
      var slot := trbEnqueue;
      req' := req;
      if !req.queued {
        req' := req.(queued := true, startSlot := trbEnqueue);
        requestList := requestList[1..];
        reqQueued := reqQueued + [req'];
      }
      trbEnqueue := IncTrb(trbEnqueue);
      var trb := ZERO_TRB.(count := length % 0x100_0000, dma := dma);
      match config.kind {
        case Isoc => trb := trb.(kind := if node == 0 then IsocFirst else IsocNext);
        case Bulk => trb := trb.(kind := Normal);
        case Interrupt => trb := trb.(kind := Normal);
      }
      if !req.noInterrupt && !chain {
        trb := trb.(ioc := true);
      }
      if config.kind.Isoc? {
        trb := trb.(isp := true, csp := true);
      } else if last {
        trb := trb.(lst := true);
      }
      if chain {
        trb := trb.(chn := true);
      }
      if config.kind.Bulk? && config.streamCapable {
        trb := trb.(sid := req.streamId % 0x1_0000);
      }
      trbPool[slot] := trb.(hwo := true);
    }

    /** The buffers of one request, a TRB each.  Gives whether the batch ends here. */
    method PrepareBuffers(left: nat) returns (lastOne: bool)
      requires Valid() && requestList != [] && |requestList[0].bufs| > 0
      requires |requestList[0].bufs| <= left
      modifies this`trbEnqueue, this`requestList, this`reqQueued, trbPool
      ensures Valid()
      ensures lastOne == EndsBatch(old(Rg()), left)
      ensures Rg() == SetUp(config, old(Rg()), lastOne)
    {
      var req := requestList[0];
      ghost var r, start, c := req, trbEnqueue, config;
      ghost var ends := EndsBatch(Rg(), left);
      var trbsLeft := left;
      lastOne := false;
      var i := 0;
      while i < |req.bufs| && !lastOne
        invariant Valid() && c == config && i <= |r.bufs|
        invariant req.bufs == r.bufs && trbsLeft == left - i
        invariant trbEnqueue == RingSlot(start, i)
        invariant lastOne == (i == |r.bufs| && ends)
        invariant WriteTrbs(c, trbPool[..], start, r, i, ends) == WriteTrbs(c, old(trbPool[..]), start, r, 0, ends)
        invariant i == 0 ==> req == r && requestList == old(requestList) && reqQueued == old(reqQueued)
        invariant i > 0 ==>
          && req == r.(queued := true, startSlot := start)
          && requestList == old(requestList)[1..] && reqQueued == old(reqQueued) + [req]
        decreases |r.bufs| - i
      {
        var chain := true;
        if i == |req.bufs| - 1 {
          if requestList == [] {
            lastOne := true;
          }
          chain := false;
        }
        trbsLeft := trbsLeft - 1;
        if trbsLeft == 0 {
          lastOne := true;
        }
        if lastOne {
          chain := false;
        }
        req := PrepareOneTrb(req, req.bufs[i].dma, req.bufs[i].len, lastOne, chain, i);
        i := i + 1;
      }
    }

    /** A request without a buffer chain: one TRB. */
    method PreparePlain(left: nat) returns (lastOne: bool)
      requires Valid() && requestList != [] && requestList[0].bufs == [] && left > 0
      modifies this`trbEnqueue, this`requestList, this`reqQueued, trbPool
      ensures Valid()
      ensures lastOne == EndsBatch(old(Rg()), left)
      ensures Rg() == SetUp(config, old(Rg()), lastOne)
    {
      var req := requestList[0];
      lastOne := left - 1 == 0;
      if |requestList| == 1 {
        lastOne := true;
      }
      ghost var before := Rg();
      var _ := PrepareOneTrb(req, req.dma, req.length, lastOne, false, 0);
      assert WriteTrbs(config, before.pool, before.enqueue, req, 0, lastOne)
          == WriteTrbs(config, trbPool[..], before.enqueue, req, 1, lastOne);
    }

    method PrepareTrbs()
      requires Valid()
      modifies this`trbEnqueue, this`requestList, this`reqQueued, trbPool
      ensures Valid()
      ensures Rg() == Prepare(config, old(Rg()))
    {
      var trbsLeft: nat := CalcTrbsLeft();
      if trbsLeft == 0 {
        return;
      }
      ghost var goal := Prepare(config, Rg());
      var lastOne := false;
      while requestList != [] && !lastOne
        invariant Valid()
        invariant if lastOne then Rg() == goal else PrepareFrom(config, Rg(), trbsLeft) == goal
        decreases |requestList|
      {
        var req := requestList[0];
        var required := if |req.bufs| > 0 then |req.bufs| else 1;
        if trbsLeft < required {
          return;
        }
        if |req.bufs| > 0 {
          lastOne := PrepareBuffers(trbsLeft);
        } else {
          lastOne := PreparePlain(trbsLeft);
        }
        trbsLeft := trbsLeft - required;
      }
    }

    // -------------------------------------------------------------- giving back

    /** Give back the request at position k of the list it is on. */
    method Giveback(req: Request, k: nat, status: int)
      requires Valid()
      requires if req.queued then k < |reqQueued| && reqQueued[k] == req
               else k < |requestList| && requestList[k] == req
      modifies this`trbDequeue, this`requestList, this`reqQueued, this`hist
      ensures Valid()
      ensures Abs() == if req.queued then GiveQueued(old(Abs()), k, status) else GivePending(old(Abs()), k, status)
    {
      if req.queued {
        ghost var s := Abs();
        trbDequeue := IncTrb(trbDequeue);
        var i := 1;
        while i < |req.bufs|
          invariant 1 <= i <= Width(req) && Valid()
          invariant Abs() == s.(ring := s.ring.(dequeue := RingSlot(s.ring.dequeue, i)))
        {
          trbDequeue := IncTrb(trbDequeue);
          i := i + 1;
        }
        reqQueued := reqQueued[..k] + reqQueued[k + 1..];
      } else {
        requestList := requestList[..k] + requestList[k + 1..];
      }
      hist := Given(hist, req, status);
    }

    method StopActiveTransfer()
      requires Valid()
      modifies this`resourceIndex, this`flags, this`hist
      ensures Valid()
      ensures Abs() == StopActive(old(Abs()))
    {
      if resourceIndex == 0 {
        return;
      }
      hist := Logged(hist, EndTransfer);
      resourceIndex := 0;
      flags := flags.(busy := false);
      flags := flags.(cmdBusy := true);
    }

    // -------------------------------------------------------------- commands

    /** Issue START or UPDATE TRANSFER.  `index` is the transfer resource the controller
        assigns to a new transfer. */
    method KickTransfer(startNew: bool, index: nat) returns (ret: int)
      requires Valid()
      modifies this, trbPool
      ensures Valid()
      ensures (Abs(), ret) == Kick(old(Abs()), startNew, index)
    {
      if !pullupsConnected {
        return ESHUTDOWN;
      }
      if startNew && flags.busy {
        return EBUSY;
      }
      if startNew {
        if reqQueued == [] {
          PrepareTrbs();
        }
      } else {
        PrepareTrbs();
      }
      if reqQueued == [] {
        flags := flags.(xferPending := true);
        return 0;
      }
      var req := reqQueued[0];
      flags := flags.(busy := true);
      if startNew {
        resourceIndex := index;
        hist := Logged(hist, StartTransfer(req.startSlot));
      } else {
        hist := Logged(hist, UpdateTransfer);
      }
      return 0;
    }

    // -------------------------------------------------------------- the gadget driver's calls

    method Queue(req: Request, index: nat) returns (ret: Ret)
      requires Valid() && !req.queued
      modifies this, trbPool
      ensures Valid()
      ensures (Abs(), ret) == EpQueue(old(Abs()), req, index)
    {
      if !config.hasDesc {
        return Code(ESHUTDOWN);
      }
      if !req.own {
        return Code(EINVAL);
      }
      if !pullupsConnected {
        return Code(ESHUTDOWN);
      }
      requestList := requestList + [req.(actual := 0, status := EINPROGRESS)];
      hist := hist.(accepted := hist.accepted + [req.id]);
      if !config.kind.Isoc? && !config.kind.Interrupt? && !flags.busy {
        var r := KickTransfer(true, index);
        return Code(if r == EBUSY then 0 else r);
      }
      if flags.xferPending {
        if config.kind.Isoc? {
          if reqQueued == [] {
            StopActiveTransfer();
            flags := ONLY_ENABLED;
          }
          return Code(0);
        }
        var r := KickTransfer(true, index);
        if r == 0 {
          flags := flags.(xferPending := false);
        }
        return Code(if r == EBUSY then 0 else r);
      }
      if config.kind.Isoc? && flags.busy && !flags.missedIsoc {
        var r := KickTransfer(false, index);
        return Code(if r == EBUSY then 0 else r);
      }
      if config.streamCapable {
        var r := KickTransfer(true, index);
        return Code(if r == EBUSY then 0 else r);
      }
      return Unassigned;
    }

    /** Where a request is on a list, or the length of the list. */
    method Find(rs: seq<Request>, id: nat) returns (k: nat)
      ensures k == IndexOf(rs, id)
    {
      k := 0;
      while k < |rs| && rs[k].id != id
        invariant k <= |rs|
        invariant k + IndexOf(rs[k..], id) == IndexOf(rs, id)
      {
        assert rs[k..][1..] == rs[k + 1..];
        k := k + 1;
      }
    }

    method Dequeue(id: nat) returns (ret: int)
      requires Valid()
      modifies this
      ensures Valid()
      ensures (Abs(), ret) == EpDequeue(old(Abs()), id)
    {
      var k := Find(requestList, id);
      if k == |requestList| {
        k := Find(reqQueued, id);
        if k == |reqQueued| {
          return EINVAL;
        }
        StopActiveTransfer();
        Giveback(reqQueued[k], k, ECONNRESET);
        return 0;
      }
      Giveback(requestList[k], k, ECONNRESET);
      return 0;
    }

    method SetHalt(value: bool, protocol: bool) returns (ret: int)
      requires Valid()
      modifies this`flags, this`hist
      ensures Valid()
      ensures (Abs(), ret) == EpSetHalt(old(Abs()), value, protocol)
    {
      if config.kind.Isoc? {
        return EINVAL;
      }
      if value {
        if !protocol && ((config.dirIn && flags.busy) || reqQueued != [] || requestList != []) {
          return EAGAIN;
        }
        hist := Logged(hist, SetStall);
        flags := flags.(stall := true);
      } else {
        hist := Logged(hist, ClearStall);
        flags := flags.(stall := false, wedge := false);
      }
      return 0;
    }

    method SetWedge() returns (ret: int)
      requires Valid()
      modifies this`flags, this`hist
      ensures Valid()
      ensures (Abs(), ret) == EpSetWedge(old(Abs()))
    {
      flags := flags.(wedge := true);
      ret := SetHalt(true, false);
    }

    // -------------------------------------------------------------- with completion callbacks

    /** What a completion callback calls. */
    method RunCallback(cs: seq<GadgetCall>)
      requires Valid() && Fresh(cs)
      modifies this, trbPool
      ensures Valid()
      ensures Abs() == Calls(old(Abs()), cs)
    {
      ghost var goal := Calls(Abs(), cs);
      var i := 0;
      while i < |cs|
        invariant i <= |cs| && Valid()
        invariant Calls(Abs(), cs[i..]) == goal
      {
        assert cs[i..][0] == cs[i] && cs[i..][1..] == cs[i + 1..];
        MakeCall(cs[i]);
        i := i + 1;
      }
    }

    method MakeCall(c: GadgetCall)
      requires Valid() && (c.Queueing? ==> !c.req.queued)
      modifies this, trbPool
      ensures Valid()
      ensures Abs() == OneCall(old(Abs()), c)
    {
      match c {
        case Queueing(req, index) => var _ := Queue(req, index);
        case Cancelling(id) => var _ := Dequeue(id);
        case Halting(value) =>
          if config.hasDesc {
            var _ := SetHalt(value, false);
          }
        case Wedging =>
          if config.hasDesc {
            var _ := SetWedge();
          }
      }
    }

    /** Give everything back; the k-th completion callback makes the calls of css[k]. */
    method RemoveAllRequests(css: seq<seq<GadgetCall>>)
      requires Valid() && AllFresh(css)
      modifies this, trbPool
      ensures Valid() && removing != []
      ensures EndDisable(Abs()) == Removed(BeginDisable(old(Abs())), css)
    {
      ghost var goal := Removed(BeginDisable(Abs()), css);
      var rest := css;
      if reqQueued != [] {
        StopActiveTransfer();
        removing := removing + [RingPart];
        rest := RemoveFromRing(css);
      } else {
        removing := removing + [PendingPart];
      }
      RemovePendingOnes(rest);
    }

    /** The first loop. */
    method RemoveFromRing(css: seq<seq<GadgetCall>>) returns (rest: seq<seq<GadgetCall>>)
      requires Valid() && AllFresh(css) && removing != [] && removing[|removing| - 1].RingPart?
      modifies this, trbPool
      ensures Valid() && AllFresh(rest) && removing == old(removing) && reqQueued == []
      ensures Removed(Abs(), rest) == Removed(old(Abs()), css)
    {
      ghost var goal := Removed(Abs(), css);
      rest := css;
      while reqQueued != []
        invariant Valid() && AllFresh(rest) && removing == old(removing)
        invariant Removed(Abs(), rest) == goal
        decreases |rest|, |reqQueued| + |requestList|
      {
        rest := RemoveQueued(rest);
      }
    }

    /** The second. */
    method RemovePendingOnes(css: seq<seq<GadgetCall>>)
      requires Valid() && AllFresh(css) && removing != []
      requires removing[|removing| - 1].PendingPart? || reqQueued == []
      modifies this, trbPool
      ensures Valid() && removing != []
      ensures EndDisable(Abs()) == Removed(old(Abs()), css)
    {
      ghost var goal := Removed(Abs(), css);
      var rest := css;
      while requestList != []
        invariant Valid() && AllFresh(rest) && removing != []
        invariant removing[|removing| - 1].PendingPart? || reqQueued == []
        invariant Removed(Abs(), rest) == goal
        decreases |rest|, |reqQueued| + |requestList|
      {
        rest := RemovePending(rest);
      }
    }

    /** The first loop's body, up to the return of the callback. */
    method RemoveQueued(css: seq<seq<GadgetCall>>) returns (rest: seq<seq<GadgetCall>>)
      requires Valid() && AllFresh(css) && removing != [] && removing[|removing| - 1].RingPart? && reqQueued != []
      modifies this, trbPool
      ensures Valid() && AllFresh(rest) && removing == old(removing)
      ensures Removed(Abs(), rest) == Removed(old(Abs()), css)
      ensures |rest| < |css| || (rest == css == [] && |reqQueued| + |requestList| < old(|reqQueued| + |requestList|))
    {
      Giveback(reqQueued[0], 0, ESHUTDOWN);
      rest := css;
      if css != [] {
        RunCallback(css[0]);
        rest := css[1..];
      }
    }

    /** The second loop's. */
    method RemovePending(css: seq<seq<GadgetCall>>) returns (rest: seq<seq<GadgetCall>>)
      requires Valid() && AllFresh(css) && removing != [] && requestList != []
      requires removing[|removing| - 1].PendingPart? || reqQueued == []
      modifies this, trbPool
      ensures Valid() && AllFresh(rest) && removing == old(removing[..|removing| - 1]) + [PendingPart]
      ensures Removed(Abs(), rest) == Removed(old(Abs()), css)
      ensures |rest| < |css| || (rest == css == [] && |reqQueued| + |requestList| < old(|reqQueued| + |requestList|))
    {
      removing := removing[..|removing| - 1] + [PendingPart];
      Giveback(requestList[0], 0, ESHUTDOWN);
      rest := css;
      if css != [] {
        RunCallback(css[0]);
        rest := css[1..];
      }
    }

    method Disable(css: seq<seq<GadgetCall>>)
      requires Valid() && AllFresh(css)
      modifies this, trbPool
      ensures Valid()
      ensures Abs() == EpDisable(old(Abs()), css)
    {
      if !flags.enabled {
        return;
      }
      RemoveAllRequests(css);
      ReleaseEndpoint();
    }

    /** What follows the two loops. */
    method ReleaseEndpoint()
      requires Valid() && removing != []
      modifies this
      ensures Valid()
      ensures Abs() == EndDisable(old(Abs()))
    {
      removing := removing[..|removing| - 1];
      if flags.stall {
        var _ := SetHalt(false, false);
      }
      config := config.(hasDesc := false, streamCapable := false);
      flags := NO_FLAGS.(cmdBusy := flags.cmdBusy);
      hist := Logged(hist, Disabled);
    }

    method Enable(desc: Config)
      requires Valid()
      modifies this, trbPool
      ensures Valid()
      ensures Abs() == EpEnable(old(Abs()), desc)
    {
      if flags.enabled {
        return;
      }
      config := desc.(hasDesc := true);
      flags := flags.(enabled := true, cmdBusy := false);
      trbDequeue, trbEnqueue := 0, 0;
      forall i | 0 <= i < TRB_NUM {
        trbPool[i] := ZERO_TRB;
      }
      trbPool[TRB_NUM - 1] := LINK_TRB;
      assert trbPool[..] == EmptyPool();
    }

    // -------------------------------------------------------------- events

    /** Read back one TRB: accumulate the byte count of a request of `length` bytes, and
        tell whether the event ends here. */
    method CleanupDoneTrb(length: nat, actual: nat, slot: nat, e: Event) returns (actual': nat, done: bool)
      requires trbPool.Length == TRB_NUM && slot < TRB_NUM
      modifies this`flags
      ensures flags == old(flags).(missedIsoc := flags.missedIsoc)
      ensures WalkResult(done, actual', flags.missedIsoc)
           == ReadTrb(config.dirIn, trbPool[slot], length, e, actual, old(flags.missedIsoc))
    {
      var trb := trbPool[slot];
      var shortPacket := false;
      if config.dirIn {
        if trb.count != 0 {
          if trb.sts == 1 {
            flags := flags.(missedIsoc := true);
          }
        } else {
          flags := flags.(missedIsoc := false);
        }
      } else if trb.count != 0 && e.short {
        shortPacket := true;
      }
      actual' := (actual + length - trb.count) % U32;
      if shortPacket {
        return actual', true;
      }
      if e.lst && (trb.lst || trb.hwo) {
        return actual', true;
      }
      return actual', e.ioc && trb.ioc;
    }

    method SlotOf(startSlot: nat, i: nat) returns (slot: nat)
      ensures slot == CleanupSlot(startSlot, i)
    {
      slot := startSlot + i;
      if slot >= TRB_NUM - 1 {
        slot := slot + 1;
      }
      slot := slot % TRB_NUM;
    }

    /** Read back the i-th TRB of a request: that, and the rest of the walk. */
    method ReadSlot(r: Request, i: nat, e: Event, actual: nat) returns (actual': nat, done: bool)
      requires Valid() && i < Width(r)
      modifies this`flags
      ensures flags == old(flags).(missedIsoc := flags.missedIsoc)
      ensures WalkTrbs(config.dirIn, trbPool[..], r, i, e, actual, old(flags.missedIsoc))
           == if done || i + 1 == Width(r) then WalkResult(done, actual', flags.missedIsoc)
              else WalkTrbs(config.dirIn, trbPool[..], r, i + 1, e, actual', flags.missedIsoc)
    {
      var slot := SlotOf(r.startSlot, i);
      actual', done := CleanupDoneTrb(r.length, actual, slot, e);
    }

    /** Read back the TRBs of a request until one of them ends the event. */
    method ReadBack(r: Request, e: Event) returns (actual: nat, done: bool)
      requires Valid()
      modifies this`flags
      ensures Valid()
      ensures flags == old(flags).(missedIsoc := flags.missedIsoc)
      ensures WalkResult(done, actual, flags.missedIsoc)
           == WalkTrbs(config.dirIn, trbPool[..], r, 0, e, r.actual, old(flags.missedIsoc))
    {
      ghost var walk := WalkTrbs(config.dirIn, trbPool[..], r, 0, e, r.actual, flags.missedIsoc);
      var i := 0;
      actual, done := r.actual, false;
      while true
        invariant i < Width(r)
        invariant flags == old(flags).(missedIsoc := flags.missedIsoc)
        invariant WalkTrbs(config.dirIn, trbPool[..], r, i, e, actual, flags.missedIsoc) == walk
        decreases Width(r) - i
      {
        actual, done := ReadSlot(r, i, e, actual);
        i := i + 1;
        if done || i >= |r.bufs| {
          return;
        }
      }
    }

    /** One turn of the outer clean-up loop, up to the call of the completion callback. */
    method CleanupRequest(e: Event, status: int) returns (done: bool)
      requires Valid() && phase.Cleaning? && phase.event == e && reqQueued != []
      requires status == if e.busErr then ECONNRESET else 0
      modifies this`trbDequeue, this`requestList, this`reqQueued, this`flags, this`hist, this`phase
      ensures Valid()
      ensures Abs() == CleanStep(old(Abs()))
      ensures done == phase.Finishing?
    {
      ghost var s := Abs();
      var req := reqQueued[0];
      var actual;
      actual, done := ReadBack(req, e);
      ghost var walk := WalkResult(done, actual, flags.missedIsoc);
      req := req.(actual := actual);
      reqQueued := [req] + reqQueued[1..];
      assert Abs() == s.(ring := s.ring.(queued := [req] + s.ring.queued[1..]),
                         flags := s.flags.(missedIsoc := walk.missedIsoc));
      Giveback(req, 0, status);
      if done {
        phase := Finishing(phase.complete, false);
      }
    }

    /** That, and the callback. */
    method CleanupAndCall(e: Event, status: int, css: seq<seq<GadgetCall>>)
      returns (done: bool, rest: seq<seq<GadgetCall>>)
      requires Valid() && AllFresh(css) && phase.Cleaning? && phase.event == e && reqQueued != []
      requires status == if e.busErr then ECONNRESET else 0
      modifies this, trbPool
      ensures Valid() && AllFresh(rest) && done == phase.Finishing?
      ensures if done then Abs() == Drained(old(Abs()), css) && !phase.ranDry
              else phase.Cleaning? && phase.event == e && Drained(Abs(), rest) == Drained(old(Abs()), css)
      ensures |rest| < |css| || (rest == css == [] && |reqQueued| < old(|reqQueued|))
    {
      done := CleanupRequest(e, status);
      rest := css;
      if css != [] {
        RunCallback(css[0]);
        rest := css[1..];
      }
    }

    /** The clean-up loop; the k-th completion callback makes the calls of css[k].  Gives
        whether it ran out of queued requests. */
    method CleanupDoneReqs(e: Event, status: int, css: seq<seq<GadgetCall>>) returns (ranDry: bool)
      requires Valid() && AllFresh(css) && phase.Cleaning? && phase.event == e
      requires status == if e.busErr then ECONNRESET else 0
      modifies this, trbPool
      ensures Valid()
      ensures Abs() == Drained(old(Abs()), css)
      ensures ranDry == phase.ranDry
    {
      ghost var drained := Drained(Abs(), css);
      ranDry := false;
      var done, rest := false, css;
      while !done && !ranDry
        invariant Valid() && AllFresh(rest)
        invariant if phase.Cleaning? then phase.event == e && !done && !ranDry && Drained(Abs(), rest) == drained
                  else (done || ranDry) && Abs() == drained && phase.Finishing? && phase.ranDry == ranDry
        decreases |rest|, |reqQueued|, phase.Cleaning?
      {
        if reqQueued == [] {
          ranDry := true;
          phase := Finishing(phase.complete, true);
        } else {
          done, rest := CleanupAndCall(e, status, rest);
        }
      }
    }

    /** The isochronous special case, and the busy flag. */
    method SettleFlags(isXferComplete: bool, ranDry: bool)
      requires Valid() && phase == Finishing(isXferComplete, ranDry)
      modifies this`resourceIndex, this`flags, this`hist, this`phase
      ensures Valid()
      ensures Abs() == Settle(old(Abs()))
    {
      if !ranDry && config.hasDesc && pullupsConnected && config.kind.Isoc? && reqQueued == [] {
        if requestList == [] {
          flags := ONLY_PENDING;
        } else {
          StopActiveTransfer();
          flags := ONLY_ENABLED;
        }
      }
      if !config.hasDesc || isXferComplete || config.kind.Isoc? {
        flags := flags.(busy := false);
      }
      phase := Idle;
    }

    /** Handle a transfer event to its end. */
    method TransferComplete(e: Event, isXferComplete: bool, index: nat, css: seq<seq<GadgetCall>>)
      requires Valid() && AllFresh(css)
      modifies this, trbPool
      ensures Valid()
      ensures Abs() == FinishStep(Drained(old(Abs()).(phase := Cleaning(e, isXferComplete)), css), index)
    {
      var status := if e.busErr then ECONNRESET else 0;
      phase := Cleaning(e, isXferComplete);
      var ranDry := CleanupDoneReqs(e, status, css);
      SettleFlags(isXferComplete, ranDry);
      if !config.hasDesc || !pullupsConnected {
        return;
      }
      if !config.kind.Isoc? {
        var _ := KickTransfer(isXferComplete, index);
      }
    }

    method XferNotReadyEvent(active: bool, index: nat)
      requires Valid() && phase.Idle? && flags.enabled
      modifies this, trbPool
      ensures Valid()
      ensures Abs() == NotReady(old(Abs()), active, index)
    {
      if config.kind.Isoc? {
        if requestList == [] {
          flags := flags.(xferPending := true);
          return;
        }
        var _ := KickTransfer(true, index);
      } else if config.hasDesc {
        var _ := KickTransfer(!active, index);
      }
    }

    method XferCompleteEvent(e: Event, index: nat, css: seq<seq<GadgetCall>>)
      requires Valid() && AllFresh(css) && phase.Idle? && flags.enabled
      modifies this, trbPool
      ensures Valid()
      ensures var s := Step(old(Abs()), XferComplete(e));
              Abs() == if s.phase.Cleaning? then FinishStep(Drained(s, css), index) else s
    {
      resourceIndex := 0;
      hist := Logged(hist, XferCompleteSeen);
      if config.kind.Isoc? {
        return;
      }
      TransferComplete(e, true, index, css);
    }
  }
}
