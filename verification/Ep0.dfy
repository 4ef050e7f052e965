/**
 The control endpoint as the driver runs it: a record of fields updated in place and the
 pair of TRBs both physical endpoints share.  Every method is proved to compute the step
 of Ep0Model it stands for, so the theorems about runs apply to this object, and to write
 the TRBs of the stage the run records.
 */
module Ep0 {
  import opened Octets
  import opened Bounce
  import opened Ep0Model

  const SETUP_PENDING: nat := 2

  /** Where the controller moves bytes from or to. */
  datatype Memory = CtrlReq | RequestBuffer | BounceBuffer

  datatype Trb = Trb(mem: Memory, size: u32, status: nat, kind: Kind, chn: bool, lst: bool, ioc: bool, hwo: bool)

  /** A TRB as the driver writes it: it either chains to the next or ends the stage. */
  function Written(mem: Memory, size: u32, kind: Kind, chain: bool): Trb {
    Trb(mem, size, 0, kind, chain, !chain, !chain, true)
  }

  /** The TRBs that carry out a stage. */
  function StageTrbs(maxPacket: PacketSize, st: Stage): seq<Trb> {
    if !st.kind.DATA? || st.len == 0 then [Written(CtrlReq, st.len, st.kind, false)]
    else if Unaligned(maxPacket, st.len) && st.ep.Out? then
      var split := SplitOf(st.len, maxPacket);
      (if st.len > BOUNCE_SIZE then [Written(RequestBuffer, split.direct, DATA, true)] else [])
      + [Written(BounceBuffer, split.bounced, DATA, false)]
    else [Written(RequestBuffer, st.len, DATA, false)]
  }

  /** The TRBs of an unaligned OUT stage, the sizes of its parts being known. */
  lemma BouncedTrbs(maxPacket: PacketSize, len: u32, direct: u32, tail: u32)
    requires len != 0 && Unaligned(maxPacket, len) && SplitOf(len, maxPacket) == Split(direct, tail)
    ensures StageTrbs(maxPacket, Stage(DATA, Out, len, 0))
         == (if len > BOUNCE_SIZE then [Written(RequestBuffer, direct, DATA, true)] else [])
            + [Written(BounceBuffer, tail, DATA, false)]
  {
  }

  function TotalSize(trbs: seq<Trb>): nat {
    if trbs == [] then 0 else trbs[0].size + TotalSize(trbs[1..])
  }

  ghost predicate Begins(trbs: seq<Trb>, part: seq<Trb>) {
    |part| <= |trbs| && trbs[..|part|] == part
  }

  /** Chained but for the last, which ends the stage. */
  ghost predicate OneChain(trbs: seq<Trb>, kind: Kind) {
    && 1 <= |trbs| <= 2
    && (forall i :: 0 <= i < |trbs| ==> trbs[i].hwo && trbs[i].kind == kind)
    && (forall i :: 0 <= i < |trbs| ==> trbs[i].chn == (i < |trbs| - 1) && trbs[i].lst == (i == |trbs| - 1))
  }

  /** A TRB that does not reach past the memory it is about. */
  predicate Fits(trb: Trb, length: nat) {
    match trb.mem
    case CtrlReq => trb.size <= 8
    case RequestBuffer => trb.size <= length
    case BounceBuffer => trb.size <= BOUNCE_SIZE
  }

  ghost predicate InMemory(trbs: seq<Trb>, length: nat) {
    forall i :: 0 <= i < |trbs| ==> Fits(trbs[i], length)
  }

  lemma SizeOfTwo(a: Trb, b: Trb)
    ensures TotalSize([b]) == b.size && TotalSize([a, b]) == a.size + b.size
  {
    assert TotalSize([b][1..]) == 0;
    assert [a, b][1..] == [b];
  }

  lemma BouncedIsOneChain(maxPacket: PacketSize, len: u32)
    requires IsPacketSize(maxPacket) && len != 0 && Unaligned(maxPacket, len)
    ensures var trbs := StageTrbs(maxPacket, Stage(DATA, Out, len, 0));
            OneChain(trbs, DATA) && InMemory(trbs, len) && TotalSize(trbs) == InPackets(len, maxPacket)
  {
    SplitCovers(len, maxPacket);
    var split := SplitOf(len, maxPacket);
    var a, b := Written(RequestBuffer, split.direct, DATA, true), Written(BounceBuffer, split.bounced, DATA, false);
    SizeOfTwo(a, b);
    assert [a] + [b] == [a, b] && [] + [b] == [b];
  }

  /** The TRBs of a stage make one chain, in the memory they are for.  They take as many
      bytes as the stage has; an OUT data stage takes whole packets, as many as it needs. */
  lemma StageIsOneChain(maxPacket: PacketSize, st: Stage)
    requires IsPacketSize(maxPacket) && (!st.kind.DATA? ==> st.len <= 8)
    ensures var trbs := StageTrbs(maxPacket, st);
            && OneChain(trbs, st.kind) && InMemory(trbs, st.len)
            && TotalSize(trbs) == (if st.kind.DATA? && st.ep.Out? then InPackets(st.len, maxPacket) else st.len)
  {
    if st.kind.DATA? && st.ep.Out? && st.len != 0 && Unaligned(maxPacket, st.len) {
      BouncedIsOneChain(maxPacket, st.len);
    } else {
      var t := StageTrbs(maxPacket, st)[0];
      SizeOfTwo(t, t);
      if st.kind.DATA? && st.ep.Out? {
        AlignedIsWhole(st.len, maxPacket);
      }
    }
  }

  lemma AlignedIsWhole(n: nat, m: nat)
    requires m > 0 && n % m == 0
    ensures InPackets(n, m) == n
  {
    Division.DivMod(n, m);
    Division.Quotient(n + m - 1, m, n / m, m - 1);
  }

  /** In 32-bit arithmetic, less came through than was asked for exactly if something, and
      no more than that, is left. */
  lemma ShortExactly(length: u32, left: u32)
    ensures (length - left) % U32 < length <==> 0 < left <= length
  {
  }

  class ControlEndpoint {
    const maxPacket: PacketSize
    const ep0Trb: array<Trb>
    var ctl: Control
    var pipe: Pipe
    var requestList: seq<Request>
    /** What is to be done when a completion callback returns. */
    var calls: seq<Cont>
    ghost var gadget: Gadget
    ghost var log: Log

    ghost function Abs(): Dev
      reads this
    {
      Dev(ctl, pipe, requestList, maxPacket, gadget, calls, log)
    }

    ghost predicate Valid()
      reads this
    {
      ep0Trb.Length == 2 && pipe.enqueue < 2
    }

    /** The driver starts with the first SETUP stage armed. */
    constructor (maxPacket: PacketSize)
      ensures Valid() && fresh(ep0Trb) && Abs() == Start(maxPacket)
    {
      this.maxPacket := maxPacket;
      ep0Trb := new Trb[2](_ => Written(CtrlReq, 8, SETUP, false));
      ctl := Control(SetupPhase, Complete, false, false, false);
      pipe := Pipe(true, false, true, false, false, false, 0, false);
      requestList, calls := [], [];
      gadget, log := Gadget(false, false), Log(UNTOLD.(stages := [Stage(SETUP, Out, 8, 0)]), [], false);
    }

    // -------------------------------------------------------------- starting stages

    /** Write one TRB and, unless more are chained to it, start the transfer.  `stage` is
        what the run records then. */
    method StartTrans(ep: PhysEp, mem: Memory, size: u32, kind: Kind, chain: bool, ghost stage: Stage)
      requires Valid() && stage.ep == ep
      requires chain ==> ep.Out? && (pipe.busyOut || pipe.enqueue == 0)
      modifies this`ctl, this`pipe, this`log, ep0Trb
      ensures Valid()
      ensures var d := old(Abs());
              if d.pipe.Busy(ep) then
                Abs() == d && ep0Trb[..] == old(ep0Trb[..])
              else
                && ep0Trb[..] == old(ep0Trb[..])[d.pipe.Slot(ep) := Written(mem, size, kind, chain)]
                && Abs() == if chain then d.(pipe := d.pipe.(enqueue := d.pipe.enqueue + 1))
                            else Ep0Model.StartTrans(d, ep, stage.kind, stage.len, stage.slot)
    {
      ghost var held := pipe.Held(ep);
      var busy := if ep.Out? then pipe.busyOut else pipe.busyIn;
      if busy {
        return;
      }
      var slot := if ep.Out? then pipe.enqueue else 0;
      if chain {
        pipe := pipe.(enqueue := pipe.enqueue + 1);
      }
      ep0Trb[slot] := Written(mem, size, kind, chain);
      if chain {
        return;
      }
      if ep.Out? {
        pipe := pipe.(busyOut := true, heldOut := true);
      } else {
        pipe := pipe.(busyIn := true, heldIn := true);
      }
      ctl := ctl.(next := Complete);
      log := Recorded(log, stage, held);
    }

    /** The data stage of a request.  An idle endpoint gets the TRBs of the stage. */
    method DoControlData(ep: PhysEp, req: Request)
      requires Valid() && ep == Abs().ctl.DataEp()
      requires pipe.busyOut || pipe.enqueue == 0
      modifies this`ctl, this`pipe, this`log, ep0Trb
      ensures Valid()
      ensures Abs() == DoData(old(Abs()), req)
      ensures !old(Abs()).pipe.Busy(ep) ==>
                Begins(ep0Trb[..], StageTrbs(maxPacket, Stage(DATA, ep, req.length, 0)))
    {
      ghost var stage := Stage(DATA, ep, req.length, Abs().pipe.Slot(ep));
      if req.length == 0 {
        StartTrans(ep, CtrlReq, 0, DATA, false, stage);
      } else if Unaligned(maxPacket, req.length) && ep.Out? {
        DoBouncedData(req);
      } else {
        StartTrans(ep, RequestBuffer, req.length, DATA, false, stage);
      }
    }

    /** The branch of an unaligned OUT request. */
    method DoBouncedData(req: Request)
      requires Valid() && !ctl.expectIn && req.length != 0 && Unaligned(maxPacket, req.length)
      requires pipe.busyOut || pipe.enqueue == 0
      modifies this`ctl, this`pipe, this`log, ep0Trb
      ensures Valid()
      ensures Abs() == DoData(old(Abs()), req)
      ensures !old(pipe.busyOut) ==>
                Begins(ep0Trb[..], StageTrbs(maxPacket, Stage(DATA, Out, req.length, 0)))
    {
      var transferSize: u32 := 0;
      if req.length > BOUNCE_SIZE {
        transferSize := Align(req.length - maxPacket, maxPacket);
      }
      var tail := RoundUp((req.length - transferSize) % U32, maxPacket);
      BouncedTrbs(maxPacket, req.length, transferSize, tail);
      StartBounced(req.length, transferSize, tail);
    }

    /** Its TRBs, of these sizes. */
    method StartBounced(length: u32, direct: u32, tail: u32)
      requires Valid()
      requires pipe.busyOut || pipe.enqueue == 0
      modifies this`ctl, this`pipe, this`log, ep0Trb
      ensures Valid()
      ensures var d := old(Abs());
              var chain := length > BOUNCE_SIZE && !d.pipe.busyOut;
              var p := d.pipe.(enqueue := if chain then d.pipe.enqueue + 1 else d.pipe.enqueue, bounced := true);
              Abs() == Ep0Model.StartTrans(d.(pipe := p), Out, DATA, length, d.pipe.enqueue)
      ensures !old(pipe.busyOut) ==>
                Begins(ep0Trb[..],
                       (if length > BOUNCE_SIZE then [Written(RequestBuffer, direct, DATA, true)] else [])
                       + [Written(BounceBuffer, tail, DATA, false)])
    {
      ghost var stage := Stage(DATA, Out, length, pipe.enqueue);
      if length > BOUNCE_SIZE {
        StartTrans(Out, RequestBuffer, direct, DATA, true, stage);
      }
      pipe := pipe.(bounced := true);
      StartTrans(Out, BounceBuffer, tail, DATA, false, stage);
    }

    method DoControlStatus(ep: PhysEp)
      requires Valid()
      modifies this`ctl, this`pipe, this`log, ep0Trb
      ensures Valid()
      ensures Abs() == DoStatus(old(Abs()), ep)
      ensures !old(Abs()).pipe.Busy(ep) ==>
                ep0Trb[old(Abs()).pipe.Slot(ep)]
                == Written(CtrlReq, 0, if ctl.threeStage then STATUS3 else STATUS2, false)
    {
      var kind := if ctl.threeStage then STATUS3 else STATUS2;
      StartTrans(ep, CtrlReq, 0, kind, false, Stage(kind, ep, 0, Abs().pipe.Slot(ep)));
    }

    /** Arm the next SETUP stage. */
    method OutStart()
      requires Valid()
      modifies this`ctl, this`pipe, this`log, ep0Trb
      ensures Valid()
      ensures Abs() == Ep0Model.OutStart(old(Abs()))
      ensures !old(pipe.busyOut) ==> ep0Trb[pipe.enqueue] == Written(CtrlReq, 8, SETUP, false)
    {
      ctl := ctl.(phase := SetupPhase);
      StartTrans(Out, CtrlReq, 8, SETUP, false, Stage(SETUP, Out, 8, pipe.enqueue));
    }

    /** The run records that a transfer is over. */
    ghost method MarkOver(t: Transfer)
      modifies this`log
      ensures Abs() == Over(old(Abs()), t)
    {
      log := log.(current := UNTOLD, past := if log.current.stages == [] then log.past else log.past + [t]);
    }

    /** Up to the call of the request's completion callback. */
    method Giveback()
      requires Valid() && requestList != []
      modifies this`requestList, this`pipe, this`log
      ensures Valid()
      ensures Abs() == Ep0Model.Giveback(old(Abs()))
    {
      requestList := requestList[1..];
      pipe := pipe.(bounced := false);
      log := log.(current := log.current.(returned := true));
    }

    method SetHalt(value: bool, protocol: bool) returns (ret: int)
      modifies this`pipe, this`log
      ensures (Abs(), ret) == Ep0Model.SetHalt(old(Abs()), value, protocol)
    {
      if !value {
        pipe := pipe.(stall := false);
        return 0;
      }
      if !protocol && requestList != [] {
        return EAGAIN;
      }
      pipe := pipe.(stall := true);
      log := log.(current := log.current.(stalled := true));
      return 0;
    }

    /** Stall and wait for the next SETUP, or first for the callback of what was listed. */
    method StallAndRestart()
      requires Valid()
      modifies this, ep0Trb
      ensures Valid()
      ensures Abs() == Restart(old(Abs()))
      ensures old(requestList) == [] ==> ep0Trb[pipe.enqueue] == Written(CtrlReq, 8, SETUP, false)
    {
      pipe := pipe.(busyIn := false);
      var _ := SetHalt(true, false);
      ghost var over := Cut(ctl.threeStage, ctl.expectIn, log.current);
      pipe := pipe.(busyOut := false, stall := false, xferPending := false);
      ctl := ctl.(delayed := false);
      ghost var d := Abs();
      assert Restart(old(Abs())) == if d.list == [] then Ep0Model.OutStart(Over(d, over))
                                    else Over(Ep0Model.Giveback(d), over).(calls := d.calls + [AfterRestart]);
      if requestList != [] {
        Giveback();
        MarkOver(over);
        calls := calls + [AfterRestart];
      } else {
        MarkOver(over);
        OutStart();
      }
    }

    // -------------------------------------------------------------- the gadget driver's queue

    /** Refused while another request is listed. */
    method Queue(req: Request) returns (ok: bool)
      requires Valid()
      requires pipe.busyOut || pipe.enqueue == 0
      modifies this, ep0Trb
      ensures Valid()
      ensures ok == (old(requestList) == [])
      ensures Abs() == Ep0Model.Queue(old(Abs()), req)
    {
      if requestList != [] {
        return false;
      }
      requestList := requestList + [req];
      gadget := gadget.(asked := true);
      log := log.(current := log.current.(queued := true));
      assert requestList == [req];
      ghost var d := Abs();
      assert Ep0Model.Queue(old(Abs()), req) == Listed(d, req);
      StartListed(req);
      ok := true;
    }

    /** The request is listed: start its data stage, or the status stage that was delayed
        for it. */
    method StartListed(req: Request)
      requires Valid()
      requires pipe.busyOut || pipe.enqueue == 0
      modifies this, ep0Trb
      ensures Valid()
      ensures Abs() == Listed(old(Abs()), req)
    {
      if pipe.xferPending {
        if ctl.phase == DataPhase {
          DoControlData(if ctl.expectIn then In else Out, req);
          pipe := pipe.(xferPending := false);
        }
      } else if ctl.delayed {
        ctl := ctl.(delayed := false);
        if ctl.phase == StatusPhase {
          DoControlStatus(if ctl.expectIn then Out else In);
        }
      } else if ctl.threeStage {
        ctl := ctl.(phase := DataPhase);
        DoControlData(if ctl.expectIn then In else Out, req);
      }
    }

    // -------------------------------------------------------------- events

    /** A SETUP packet, up to the call of the gadget driver. */
    method InspectSetup(ctrl: Ctrl, connected: bool)
      requires Valid()
      modifies this, ep0Trb
      ensures Valid()
      ensures Abs() == Ep0Model.InspectSetup(old(Abs()), ctrl, connected)
    {
      if !connected {
        StallAndRestart();
        return;
      }
      if ctrl.wLength == 0 {
        ctl := ctl.(threeStage := false);
        ctl := ctl.(expectIn := false);
        ctl := ctl.(next := NrdyStatus);
      } else {
        ctl := ctl.(threeStage := true);
        ctl := ctl.(expectIn := ctrl.dirIn);
        ctl := ctl.(next := NrdyData);
      }
      gadget := Gadget(true, false);
    }

    /** The call returns. */
    method SetupReturns(ret: SetupResult)
      requires Valid()
      modifies this, ep0Trb
      ensures Valid()
      ensures Abs() == Ep0Model.SetupReturns(old(Abs()), ret)
    {
      gadget := gadget.(inSetup := false);
      if ret.DelayedStatus? {
        ctl := ctl.(delayed := true);
      }
      if ret.Failed? {
        StallAndRestart();
      }
    }

    /** What the first TRB says once the controller has written it back. */
    ghost function Told(badTestMode: bool): Completion
      requires ep0Trb.Length == 2
      reads this, ep0Trb
    {
      Completion(ep0Trb[0].status == SETUP_PENDING, ep0Trb[0].size, badTestMode)
    }

    method CompleteData(ep: PhysEp)
      requires Valid() && !Abs().pipe.Busy(ep)
      modifies this, ep0Trb
      ensures Valid()
      ensures Abs() == Ep0Model.CompleteData(old(Abs()), ep, old(Told(false)))
    {
      ctl := ctl.(next := NrdyStatus);
      if requestList == [] {
        return;
      }
      var trb := ep0Trb[0];
      if trb.status == SETUP_PENDING {
        Giveback();
        return;
      }
      var req := requestList[0];
      if pipe.bounced {
        if req.length > BOUNCE_SIZE {
          pipe := pipe.(enqueue := 0);
        }
      }
      ShortExactly(req.length, trb.size);
      var short := ep.In? && (req.length - trb.size) % U32 < req.length;
      ghost var d := Abs();
      assert Ep0Model.CompleteData(old(Abs()), ep, old(Told(false)))
          == if short then Restart(d) else DataDone(d, ep, req);
      if short {
        StallAndRestart();
      } else {
        Giveback();
        calls := calls + [AfterData(ep, req)];
      }
    }

    /** The rest of that, once the callback has returned: a zero-length packet if due. */
    method FinishData(ep: PhysEp, req: Request)
      requires Valid()
      modifies this`ctl, this`pipe, this`log, ep0Trb
      ensures Valid()
      ensures Abs() == Ep0Model.FinishData(old(Abs()), ep, req)
      ensures ZeroDue(maxPacket, req) && !old(pipe.Busy(ep)) ==>
                ep0Trb[pipe.Slot(ep)] == Written(CtrlReq, 0, DATA, false)
    {
      if !Unaligned(maxPacket, req.length) && req.length != 0 && req.zero {
        ctl := ctl.(next := Complete);
        StartTrans(ep, CtrlReq, 0, DATA, false, Stage(DATA, ep, 0, pipe.Slot(ep)));
      }
    }

    method CompleteStatus(badTestMode: bool)
      requires Valid()
      modifies this, ep0Trb
      ensures Valid()
      ensures Abs() == Ep0Model.CompleteStatus(old(Abs()), old(Told(badTestMode)))
    {
      if requestList != [] {
        Giveback();
        calls := calls + [AfterStatus(badTestMode)];
        return;
      }
      FinishStatus(badTestMode);
    }

    /** The rest of that. */
    method FinishStatus(badTestMode: bool)
      requires Valid()
      modifies this, ep0Trb
      ensures Valid()
      ensures Abs() == Ep0Model.FinishStatus(old(Abs()), badTestMode)
    {
      if badTestMode {
        StallAndRestart();
        return;
      }
      if ctl.phase.StatusPhase? {
        MarkOver(Completed(ctl.threeStage, ctl.expectIn, log.current));
      }
      OutStart();
    }

    /** The innermost completion callback returns. */
    method CallbackReturns()
      requires Valid() && calls != []
      modifies this, ep0Trb
      ensures Valid()
      ensures Abs() == CallReturns(old(Abs()))
    {
      var k := calls[|calls| - 1];
      calls := calls[..|calls| - 1];
      match k {
        case AfterData(ep, req) => FinishData(ep, req);
        case AfterStatus(badTestMode) => FinishStatus(badTestMode);
        case AfterRestart => OutStart();
      }
    }

    /** XferComplete.  The controller has written the TRBs back by then: `trb0` and `trb1`
        are what they hold. */
    method XferComplete(ep: PhysEp, trb0: Trb, trb1: Trb, ctrl: Ctrl, connected: bool, badTestMode: bool)
      requires Valid() && Abs().pipe.Busy(ep)
      modifies this, ep0Trb
      ensures Valid()
      ensures var c := Completion(trb0.status == SETUP_PENDING, trb0.size, badTestMode);
              Abs() == Ep0Model.XferComplete(old(Abs()), ep, c, ctrl, connected)
    {
      ep0Trb[0], ep0Trb[1] := trb0, trb1;
      if ep.Out? {
        pipe := pipe.(busyOut := false, heldOut := false);
      } else {
        pipe := pipe.(busyIn := false, heldIn := false);
      }
      ghost var c := Told(badTestMode);
      assert Abs() == old(Abs()).(pipe := old(Abs()).pipe.Ended(ep));
      match ctl.phase {
        case SetupPhase => InspectSetup(ctrl, connected);
        case DataPhase => CompleteData(ep);
        case StatusPhase => CompleteStatus(badTestMode);
      }
    }

    method XferNotReadyData(ep: PhysEp)
      requires Valid()
      modifies this, ep0Trb
      ensures Valid()
      ensures Abs() == NotReadyData(old(Abs()), ep)
    {
      var expected := if ctl.expectIn then In else Out;
      if expected != ep {
        EndControlData(expected);
        StallAndRestart();
      }
    }

    method EndControlData(ep: PhysEp)
      modifies this`pipe, this`log
      ensures Abs() == EndData(old(Abs()), ep)
    {
      var held := if ep.Out? then pipe.heldOut else pipe.heldIn;
      if !held {
        return;
      }
      log := log.(current := log.current.(ended := true));
      if ep.Out? {
        pipe := pipe.(heldOut := false);
      } else {
        pipe := pipe.(heldIn := false);
      }
    }

    method XferNotReadyStatus(ep: PhysEp)
      requires Valid()
      modifies this, ep0Trb
      ensures Valid()
      ensures Abs() == NotReadyStatus(old(Abs()), ep)
    {
      if ctl.next != NrdyStatus {
        return;
      }
      ctl := ctl.(phase := StatusPhase);
      if ctl.delayed {
        if requestList != [] {
          ctl := ctl.(delayed := false);
          DoControlStatus(ep);
        }
        return;
      }
      DoControlStatus(ep);
    }
  }
}
