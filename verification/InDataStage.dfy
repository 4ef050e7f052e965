/**
 How an IN data stage ends.  The composite layer clamps its reply to what the host asked
 for and marks short replies; the control endpoint adds a zero-length packet to a marked
 reply that fills its last packet.  Together the host can always tell where the data
 ends, as section 8.5.3.2 of USB 2.0 asks.
 */
module InDataStage {
  import opened Division
  import opened Octets
  import opened Bounce
  import opened Ep0Model
  import opened Ep0Proofs

  const U16: nat := 0x1_0000

  type u16 = n: nat | n < 0x1_0000

  /** A reply of `size` bytes to a request for wLength bytes, clamped. */
  function Clamped(id: nat, wLength: u16, size: nat): Request {
    var value := if wLength < size % U16 then wLength else size % U16;
    Replying(id, wLength, value)
  }

  /** What is queued on endpoint zero for a reply of `value` bytes. */
  function Replying(id: nat, wLength: u16, value: u32): Request {
    Request(id, value, value < wLength)
  }

  /** The packets of one transfer of `length` bytes. */
  function Packets(length: nat, m: PacketSize): (ps: seq<nat>)
    ensures ps != []
  {
    if length <= m then [length] else [m] + Packets(length - m, m)
  }

  /** The packets of the whole data stage: the transfer, and an empty one behind it when
      the reply is marked and ends on a packet boundary. */
  function Sent(r: Request, m: PacketSize): (ps: seq<nat>)
    ensures ps != []
  {
    if ZeroDue(m, r) then Packets(r.length, m) + [0] else Packets(r.length, m)
  }

  function Sum(ps: seq<nat>): nat {
    if ps == [] then 0 else ps[0] + Sum(ps[1..])
  }

  /** Can the host tell, from these packets, that the data stage is over? */
  predicate SeenOver(ps: seq<nat>, m: PacketSize, wLength: nat)
    requires ps != []
  {
    Sum(ps) == wLength || ps[|ps| - 1] < m
  }

  lemma {:induction false} SumConcat(a: seq<nat>, b: seq<nat>)
    ensures Sum(a + b) == Sum(a) + Sum(b)
  {
    if a == [] {
      assert a + b == b;
    } else {
      SumConcat(a[1..], b);
      assert (a + b)[1..] == a[1..] + b;
    }
  }

  /** A transfer is full packets and then the rest. */
  lemma {:induction false} PacketsShape(length: nat, m: PacketSize)
    ensures var ps := Packets(length, m);
            var n := |ps| - 1;
            && Sum(ps) == length
            && (forall i :: 0 <= i < n ==> ps[i] == m)
            && ps[n] <= m
            && (length > 0 ==> ps[n] > 0)
            && (ps[n] == m <==> length != 0 && length % m == 0)
  {
    if length > m {
      PacketsShape(length - m, m);
      var rest := Packets(length - m, m);
      assert Packets(length, m)[1..] == rest;
      ModMinus(length, m);
    } else {
      assert [length][1..] == [];
      ModWithin(length, m);
    }
  }

  lemma ModWithin(x: nat, m: PacketSize)
    requires x <= m
    ensures x % m == 0 <==> x == 0 || x == m
  {
    if 0 < x < m {
      Quotient(x, m, 0, x);
    } else if x == m {
      Quotient(x, m, 1, 0);
    }
  }

  lemma ModMinus(x: nat, m: PacketSize)
    requires x >= m
    ensures (x - m) % m == x % m
  {
    DivMod(x, m);
    assert (x / m - 1) * m == x / m * m - m;
    if x / m == 0 {
      assert false;
    }
    Quotient(x - m, m, x / m - 1, x % m);
  }

  /** Full packets before the last: a strict part of a transfer never looks over. */
  lemma {:induction false} FullSum(ps: seq<nat>, m: PacketSize)
    requires forall i :: 0 <= i < |ps| ==> ps[i] == m
    ensures Sum(ps) == |ps| * m
  {
    if ps != [] {
      FullSum(ps[1..], m);
      assert |ps| * m == m + (|ps| - 1) * m;
    }
  }

  /** For every clamped reply the host sees the end of the data stage exactly with the
      last packet sent: not before, and then for certain. */
  lemma ClampedEndsVisibly(id: nat, wLength: u16, size: nat, m: PacketSize)
    requires wLength > 0
    ensures var ps := Sent(Clamped(id, wLength, size), m);
            && SeenOver(ps, m, wLength)
            && forall k :: 0 < k < |ps| ==> !SeenOver(ps[..k], m, wLength)
  {
    var r := Clamped(id, wLength, size);
    var first, ps := Packets(r.length, m), Sent(r, m);
    PacketsShape(r.length, m);
    SumConcat(first, [0]);
    assert Sum([0]) == 0 + Sum([]);
    forall k | 0 < k < |ps|
      ensures !SeenOver(ps[..k], m, wLength)
    {
      assert ps[..k] == first[..k];
      assert first == first[..k] + first[k..];
      SumConcat(first[..k], first[k..]);
      if k < |first| {
        assert Sum(first[k..]) > 0 by {
          LastPositive(first[k..]);
        }
      }
    }
  }

  lemma {:induction false} LastPositive(ps: seq<nat>)
    requires ps != [] && ps[|ps| - 1] > 0
    ensures Sum(ps) > 0
  {
    if |ps| > 1 {
      LastPositive(ps[1..]);
    }
  }

  /** For a reply of any size, clamped or not, the end shows exactly when the reply is no
      longer than asked for, or does not fill its last packet. */
  lemma EndsVisiblyExactly(id: nat, wLength: u16, value: u32, m: PacketSize)
    ensures SeenOver(Sent(Replying(id, wLength, value), m), m, wLength) <==> value <= wLength || value % m != 0
  {
    PacketsShape(value, m);
    SumConcat(Packets(value, m), [0]);
    assert Sum([0]) == 0 + Sum([]);
  }

  // ---------------------------------------------------------------- the control endpoint's own run

  /** The packets of the data stages a transfer has started. */
  function OnWire(stages: seq<Stage>, m: PacketSize): seq<nat> {
    if stages == [] then []
    else
      var n := |stages| - 1;
      OnWire(stages[..n], m) + if stages[n].kind.DATA? then Packets(stages[n].len, m) else []
  }

  lemma OnWireNext(stages: seq<Stage>, st: Stage, m: PacketSize)
    ensures OnWire(stages + [st], m) == OnWire(stages, m) + if st.kind.DATA? then Packets(st.len, m) else []
  {
    assert (stages + [st])[..|stages|] == stages;
  }

  /** The gadget driver is being asked for data, and has not queued any. */
  predicate AskedForData(d: Dev) {
    && d.ctl == Control(SetupPhase, NrdyData, false, true, true)
    && d.pipe.Quiet() && !d.pipe.xferPending && !d.pipe.bounced && d.list == [] && d.calls == []
    && |d.log.current.stages| == 1 && IsSetup(d.log.current.stages[0])
  }

  /** It is, after the SETUP packet of an IN transfer. */
  lemma SetupAsksForData(d: Dev, c: Completion, wLength: u16)
    requires Now(d) && d.ctl.phase.SetupPhase? && d.pipe.busyOut && !d.ctl.delayed && d.calls == [] && wLength > 0
    ensures AskedForData(XferComplete(d, Out, c, Ctrl(wLength, true), true))
  {
  }

  /** A request queued then, all of whose bytes go out: its data stage completes, its
      completion callback returns, and a zero-length packet, if there is one, completes. */
  function DataSent(d: Dev, r: Request, ctrl: Ctrl): Dev
    requires AskedForData(d)
  {
    var out := Completion(false, 0, false);
    var d1 := XferComplete(Queue(d, r), In, out, ctrl, true);
    var d2 := if d1.calls == [] then d1 else CallReturns(d1);
    if d2.pipe.busyIn then XferComplete(d2, In, out, ctrl, true) else d2
  }

  /** Queueing it starts its data stage. */
  lemma DataStarts(d: Dev, r: Request)
    requires AskedForData(d)
    ensures var d' := Queue(d, r);
            && d'.log.current.stages == d.log.current.stages + [Stage(DATA, In, r.length, 0)]
            && d'.list == [r] && d'.calls == [] && d'.pipe.busyIn && !d'.pipe.bounced
            && d'.ctl == d.ctl.(phase := DataPhase, next := Complete)
            && d'.log.past == d.log.past && d'.maxPacket == d.maxPacket
  {
  }

  /** It completes, and its callback is called. */
  lemma DataGoesThrough(d: Dev, r: Request, ctrl: Ctrl)
    requires d.list == [r] && d.calls == [] && d.ctl.phase.DataPhase? && !d.pipe.bounced
    ensures var d' := XferComplete(d, In, Completion(false, 0, false), ctrl, true);
            && d'.log.current.stages == d.log.current.stages && d'.list == [] && d'.calls == [AfterData(In, r)]
            && !d'.pipe.busyIn && d'.ctl == d.ctl.(next := NrdyStatus)
            && d'.log.past == d.log.past && d'.maxPacket == d.maxPacket
  {
  }

  /** The callback returns. */
  lemma DataFinishes(d: Dev, r: Request)
    requires d.calls == [AfterData(In, r)] && d.list == [] && !d.pipe.busyIn
    ensures var d' := CallReturns(d);
            && d'.log.current.stages == d.log.current.stages
                                      + (if ZeroDue(d.maxPacket, r) then [Stage(DATA, In, 0, 0)] else [])
            && d'.list == [] && d'.calls == [] && d'.pipe.busyIn == ZeroDue(d.maxPacket, r)
            && d'.ctl == (if ZeroDue(d.maxPacket, r) then d.ctl.(next := Complete) else d.ctl)
            && d'.log.past == d.log.past
  {
  }

  /** The stages the control endpoint starts for it put on the wire exactly the packets of
      that reply, an empty one included, and then the status stage is awaited. */
  lemma DataStagesAreSent(d: Dev, r: Request, ctrl: Ctrl)
    requires AskedForData(d)
    ensures var d' := DataSent(d, r, ctrl);
            && OnWire(d'.log.current.stages, d.maxPacket) == Sent(r, d.maxPacket)
            && d'.log.past == d.log.past && d'.ctl.phase.DataPhase? && d'.ctl.next == NrdyStatus
            && d'.list == [] && d'.calls == []
  {
    var m, setup, data := d.maxPacket, d.log.current.stages, Stage(DATA, In, r.length, 0);
    var d0 := Queue(d, r);
    DataStarts(d, r);
    var d1 := XferComplete(d0, In, Completion(false, 0, false), ctrl, true);
    DataGoesThrough(d0, r, ctrl);
    DataFinishes(d1, r);
    StagesOnWire(setup, data, m);
  }

  lemma StagesOnWire(setup: seq<Stage>, data: Stage, m: PacketSize)
    requires |setup| == 1 && IsSetup(setup[0]) && data.kind.DATA?
    ensures OnWire(setup + [data] + [], m) == Packets(data.len, m)
    ensures OnWire(setup + [data] + [Stage(DATA, In, 0, 0)], m) == Packets(data.len, m) + [0]
  {
    assert setup == [] + [setup[0]] && setup + [data] + [] == setup + [data];
    OnWireNext([], setup[0], m);
    OnWireNext(setup, data, m);
    OnWireNext(setup + [data], Stage(DATA, In, 0, 0), m);
  }

  /** From the SETUP packet's data request to the wire: what the host sees of a clamped
      reply ends with the last packet, for certain and not before. */
  lemma ReplyEndsVisibly(d: Dev, id: nat, wLength: u16, size: nat, ctrl: Ctrl)
    requires AskedForData(d) && wLength > 0
    ensures var d' := DataSent(d, Clamped(id, wLength, size), ctrl);
            var ps := OnWire(d'.log.current.stages, d.maxPacket);
            && ps != [] && SeenOver(ps, d.maxPacket, wLength)
            && forall k :: 0 < k < |ps| ==> !SeenOver(ps[..k], d.maxPacket, wLength)
  {
    DataStagesAreSent(d, Clamped(id, wLength, size), ctrl);
    ClampedEndsVisibly(id, wLength, size, d.maxPacket);
  }
}
