/**
 What the data stages of endpoint zero move.  The memory the TRBs of a stage are about is
 given its contents: the controller follows the TRBs and moves bytes, and the request's
 buffer is what the host gets, or ends up with what the host sends.
 */
module Ep0Memory {
  import opened Octets
  import opened Bounce
  import opened Ep0Model
  import opened Ep0

  /** What is in the buffer of SETUP packets, in the request's buffer and in the bounce
      buffer. */
  datatype Contents = Contents(packet: seq<byte>, buffer: seq<byte>, bounce: seq<byte>)
  {
    function At(mem: Memory): seq<byte> {
      match mem
      case CtrlReq => packet
      case RequestBuffer => buffer
      case BounceBuffer => bounce
    }

    function With(mem: Memory, bytes: seq<byte>): (c: Contents)
      ensures c.At(mem) == bytes
      ensures forall other :: other != mem ==> c.At(other) == At(other)
    {
      match mem
      case CtrlReq => this.(packet := bytes)
      case RequestBuffer => this.(buffer := bytes)
      case BounceBuffer => this.(bounce := bytes)
    }

    /** The memory for a stage of this length. */
    predicate For(length: nat) {
      |packet| == 8 && |buffer| == length && |bounce| == BOUNCE_SIZE
    }
  }

  /** The TRBs the controller follows, starting at the first: through chained ones to one that
      is not. */
  function ChainOf(trbs: seq<Trb>): seq<Trb> {
    if trbs == [] then []
    else if trbs[0].chn then [trbs[0]] + ChainOf(trbs[1..])
    else [trbs[0]]
  }

  /** On a pair of TRBs that begins with those of a stage, these are the ones. */
  lemma ChainIsStage(maxPacket: PacketSize, st: Stage, trbs: seq<Trb>)
    requires IsPacketSize(maxPacket) && (!st.kind.DATA? ==> st.len <= 8)
    requires Begins(trbs, StageTrbs(maxPacket, st))
    ensures ChainOf(trbs) == StageTrbs(maxPacket, st)
  {
    StageIsOneChain(maxPacket, st);
    var part := StageTrbs(maxPacket, st);
    assert trbs[0] == trbs[..|part|][0];
    if |part| == 2 {
      assert trbs[1] == trbs[..2][1] == trbs[1..][0];
      assert part == [part[0]] + [part[1]];
    } else {
      assert part == [part[0]];
    }
  }

  // ---------------------------------------------------------------- to the host

  /** The bytes the controller reads through TRBs, one after the other. */
  function ReadThrough(c: Contents, trbs: seq<Trb>): seq<byte>
    requires forall i :: 0 <= i < |trbs| ==> trbs[i].size <= |c.At(trbs[i].mem)|
  {
    if trbs == [] then [] else c.At(trbs[0].mem)[..trbs[0].size] + ReadThrough(c, trbs[1..])
  }

  lemma ReadOne(c: Contents, trb: Trb)
    requires trb.size <= |c.At(trb.mem)|
    ensures ReadThrough(c, [trb]) == c.At(trb.mem)[..trb.size]
  {
    assert ReadThrough(c, [trb][1..]) == [];
  }

  /** Whatever memory holds, an IN data stage sends the first bytes of the request's buffer, as
      many as it is long; and a status stage and a zero-length packet send none. */
  lemma InStageSends(maxPacket: PacketSize, st: Stage, trbs: seq<Trb>, c: Contents)
    requires IsPacketSize(maxPacket) && st.ep.In? && (st.kind.DATA? || st.len == 0)
    requires Begins(trbs, StageTrbs(maxPacket, st))
    requires |c.packet| == 8 && st.len <= |c.buffer| && |c.bounce| == BOUNCE_SIZE
    ensures forall i :: 0 <= i < |ChainOf(trbs)| ==> ChainOf(trbs)[i].size <= |c.At(ChainOf(trbs)[i].mem)|
    ensures ReadThrough(c, ChainOf(trbs)) == c.buffer[..st.len]
  {
    ChainIsStage(maxPacket, st, trbs);
    ReadOne(c, StageTrbs(maxPacket, st)[0]);
  }

  // ---------------------------------------------------------------- from the host

  /** Memory after the controller has put the bytes it received where TRBs tell it to. */
  function Filled(c: Contents, trbs: seq<Trb>, received: seq<byte>): Contents
    requires forall i :: 0 <= i < |trbs| ==> trbs[i].size <= |c.At(trbs[i].mem)|
    decreases |trbs|
  {
    if trbs == [] then c
    else
      var t := trbs[0];
      var n := Min(|received|, t.size);
      Filled(c.With(t.mem, received[..n] + c.At(t.mem)[n..]), trbs[1..], received[n..])
  }

  /** And what is left of each TRB. */
  function LeftOf(trbs: seq<Trb>, received: seq<byte>): (left: seq<u32>)
    requires forall i :: 0 <= i < |trbs| ==> trbs[i].size < U32
    ensures |left| == |trbs|
    decreases |trbs|
  {
    if trbs == [] then []
    else
      var n := Min(|received|, trbs[0].size);
      [trbs[0].size - n] + LeftOf(trbs[1..], received[n..])
  }

  lemma FilledOne(c: Contents, trb: Trb, received: seq<byte>)
    requires trb.size <= |c.At(trb.mem)|
    ensures var n := Min(|received|, trb.size);
            && Filled(c, [trb], received) == c.With(trb.mem, received[..n] + c.At(trb.mem)[n..])
            && LeftOf([trb], received) == [trb.size - n]
  {
    assert [trb][1..] == [];
  }

  /** The controller's side, in place: it goes from one TRB to the next. */
  method Receive(trbs: seq<Trb>, packet: array<byte>, buffer: array<byte>, bounce: array<byte>,
                 received: seq<byte>) returns (left: seq<u32>)
    requires packet != buffer && packet != bounce && buffer != bounce
    requires packet.Length == 8 && bounce.Length == BOUNCE_SIZE && buffer.Length < U32
    requires InMemory(trbs, buffer.Length)
    modifies packet, buffer, bounce
    ensures old(AllFit(trbs, packet[..], buffer[..], bounce[..]))
    ensures Contents(packet[..], buffer[..], bounce[..])
         == old(Filled(Contents(packet[..], buffer[..], bounce[..]), trbs, received))
    ensures left == LeftOf(trbs, received)
    decreases |trbs|
  {
    ghost var c := Contents(packet[..], buffer[..], bounce[..]);
    AllInMemory(trbs, c, buffer.Length);
    if trbs == [] {
      return [];
    }
    FilledFirst(c, trbs, received);
    assert Fits(trbs[0], buffer.Length);
    var size: u32 := trbs[0].size;
    var n := if |received| < size then |received| else size;
    PutAt(trbs[0].mem, packet, buffer, bounce, received, n);
    var rest := Receive(trbs[1..], packet, buffer, bounce, received[n..]);
    left := [size - n] + rest;
  }

  lemma FilledFirst(c: Contents, trbs: seq<Trb>, received: seq<byte>)
    requires trbs != [] && AllFit(trbs, c.packet, c.buffer, c.bounce)
    ensures var t, n := trbs[0], Min(|received|, trbs[0].size);
            var c1 := c.With(t.mem, received[..n] + c.At(t.mem)[n..]);
            && AllFit(trbs[1..], c1.packet, c1.buffer, c1.bounce)
            && Filled(c, trbs, received) == Filled(c1, trbs[1..], received[n..])
            && LeftOf(trbs, received) == [t.size - n] + LeftOf(trbs[1..], received[n..])
  {
    var t, n := trbs[0], Min(|received|, trbs[0].size);
    WithFits(c, t.mem, received[..n] + c.At(t.mem)[n..], trbs);
  }

  lemma WithFits(c: Contents, mem: Memory, bytes: seq<byte>, trbs: seq<Trb>)
    requires trbs != [] && AllFit(trbs, c.packet, c.buffer, c.bounce) && |bytes| == |c.At(mem)|
    ensures var c1 := c.With(mem, bytes);
            AllFit(trbs[1..], c1.packet, c1.buffer, c1.bounce)
  {
    var c1 := c.With(mem, bytes);
    forall i | 0 <= i < |trbs[1..]|
      ensures trbs[1..][i].size <= |Contents(c1.packet, c1.buffer, c1.bounce).At(trbs[1..][i].mem)|
    {
      assert trbs[i + 1].size <= |Contents(c.packet, c.buffer, c.bounce).At(trbs[i + 1].mem)|;
      assert |c1.At(trbs[i + 1].mem)| == |c.At(trbs[i + 1].mem)|;
    }
  }

  lemma AllInMemory(trbs: seq<Trb>, c: Contents, length: nat)
    requires c.For(length) && InMemory(trbs, length)
    ensures AllFit(trbs, c.packet, c.buffer, c.bounce)
    ensures trbs != [] ==> InMemory(trbs[1..], length)
  {
    forall i | 0 <= i < |trbs|
      ensures trbs[i].size <= |Contents(c.packet, c.buffer, c.bounce).At(trbs[i].mem)|
    {
      assert Fits(trbs[i], length);
    }
  }

  method PutAt(mem: Memory, packet: array<byte>, buffer: array<byte>, bounce: array<byte>, bytes: seq<byte>, n: nat)
    requires packet != buffer && packet != bounce && buffer != bounce && n <= |bytes|
    requires n <= |Contents(packet[..], buffer[..], bounce[..]).At(mem)|
    modifies packet, buffer, bounce
    ensures var c := old(Contents(packet[..], buffer[..], bounce[..]));
            Contents(packet[..], buffer[..], bounce[..]) == c.With(mem, bytes[..n] + c.At(mem)[n..])
  {
    match mem {
      case CtrlReq => Put(packet, bytes, n);
      case RequestBuffer => Put(buffer, bytes, n);
      case BounceBuffer => Put(bounce, bytes, n);
    }
  }

  method Put(a: array<byte>, bytes: seq<byte>, n: nat)
    requires n <= |bytes| && n <= a.Length
    modifies a
    ensures a[..] == bytes[..n] + old(a[n..])
  {
    forall i | 0 <= i < n {
      a[i] := bytes[i];
    }
  }

  ghost predicate AllFit(trbs: seq<Trb>, packet: seq<byte>, buffer: seq<byte>, bounce: seq<byte>) {
    forall i :: 0 <= i < |trbs| ==> trbs[i].size <= |Contents(packet, buffer, bounce).At(trbs[i].mem)|
  }

  /** A SETUP stage puts the packet into its buffer. */
  lemma SetupFills(maxPacket: PacketSize, trbs: seq<Trb>, c: Contents, received: seq<byte>)
    requires IsPacketSize(maxPacket) && |c.packet| == 8 && |received| == 8
    requires Begins(trbs, StageTrbs(maxPacket, Stage(SETUP, Out, 8, 0)))
    ensures AllFit(ChainOf(trbs), c.packet, c.buffer, c.bounce)
    ensures Filled(c, ChainOf(trbs), received) == c.(packet := received)
  {
    ChainIsStage(maxPacket, Stage(SETUP, Out, 8, 0), trbs);
    FilledOne(c, ChainOf(trbs)[0], received);
    assert received[..8] == received;
  }

  /** An OUT stage that needs no bounce buffer puts all it receives at the front of the
      request's buffer, and nothing anywhere else. */
  lemma DirectFills(maxPacket: PacketSize, len: u32, c: Contents, received: seq<byte>)
    requires IsPacketSize(maxPacket) && !(len != 0 && Unaligned(maxPacket, len)) && c.For(len)
    requires |received| <= InPackets(len, maxPacket)
    ensures var trbs := StageTrbs(maxPacket, Stage(DATA, Out, len, 0));
            && |received| <= len && AllFit(trbs, c.packet, c.buffer, c.bounce)
            && Filled(c, trbs, received) == c.(buffer := received + c.buffer[|received|..])
            && LeftOf(trbs, received) == [len - |received|]
  {
    var trbs := StageTrbs(maxPacket, Stage(DATA, Out, len, 0));
    AlignedIsWhole(len, maxPacket);
    FilledOne(c, trbs[0], received);
    assert received[..|received|] == received;
    if len == 0 {
      assert received == [] && [] + c.packet[0..] == c.packet && [] + c.buffer[0..] == c.buffer;
    }
  }

  /** The TRBs of a stage that needs it, its parts being of these sizes. */
  function BouncedPair(len: u32, direct: u32, tail: u32): seq<Trb> {
    (if len > BOUNCE_SIZE then [Written(RequestBuffer, direct, DATA, true)] else [])
    + [Written(BounceBuffer, tail, DATA, false)]
  }

  /** The sizes go with the length of the request. */
  predicate PartsFit(len: u32, direct: u32, tail: u32) {
    direct <= len && tail <= BOUNCE_SIZE && (len <= BOUNCE_SIZE ==> direct == 0)
  }

  /** The first bytes received, as many as the first part takes, are in the request's buffer, and
      the rest in the bounce buffer. */
  ghost predicate Spread(c: Contents, direct: nat, received: seq<byte>, got: Contents) {
    var n := Min(|received|, direct);
    && got.packet == c.packet && |got.buffer| == |c.buffer| && |got.bounce| == |c.bounce|
    && n <= |c.buffer| && |received| - n <= |c.bounce|
    && got.buffer[..n] == received[..n] && got.buffer[n..] == c.buffer[n..]
    && got.bounce[..|received| - n] == received[n..]
  }

  lemma ShortFills(tail: u32, c: Contents, received: seq<byte>)
    requires tail <= BOUNCE_SIZE == |c.bounce| && |received| <= tail
    ensures var t := Written(BounceBuffer, tail, DATA, false);
            && Spread(c, 0, received, Filled(c, [t], received))
            && LeftOf([t], received) == [tail - |received|]
  {
    FilledOne(c, Written(BounceBuffer, tail, DATA, false), received);
    assert received[0..] == received == received[..|received|];
  }

  lemma FilledTwo(c: Contents, a: Trb, b: Trb, received: seq<byte>)
    requires a.size <= |c.At(a.mem)| && b.size <= |c.At(b.mem)| && a.mem != b.mem
    ensures var n := Min(|received|, a.size);
            var c1 := c.With(a.mem, received[..n] + c.At(a.mem)[n..]);
            && Filled(c, [a, b], received) == Filled(c1, [b], received[n..])
            && LeftOf([a, b], received) == [a.size - n] + LeftOf([b], received[n..])
  {
    assert [a, b][1..] == [b];
  }

  lemma LongFills(direct: u32, tail: u32, c: Contents, received: seq<byte>)
    requires direct <= |c.buffer| && tail <= BOUNCE_SIZE == |c.bounce| && |received| <= direct + tail
    ensures var a, b := Written(RequestBuffer, direct, DATA, true), Written(BounceBuffer, tail, DATA, false);
            var n := Min(|received|, direct);
            && Spread(c, direct, received, Filled(c, [a, b], received))
            && LeftOf([a, b], received) == [direct - n] + [tail - (|received| - n)]
  {
    var a, b := Written(RequestBuffer, direct, DATA, true), Written(BounceBuffer, tail, DATA, false);
    var n := Min(|received|, direct);
    FilledTwo(c, a, b, received);
    FilledOne(c.(buffer := received[..n] + c.buffer[n..]), b, received[n..]);
    LongSpread(c, direct, received, n);
  }

  lemma LongSpread(c: Contents, direct: nat, received: seq<byte>, n: nat)
    requires n == Min(|received|, direct) && n <= |c.buffer| && |received| - n <= |c.bounce|
    ensures var m := |received| - n;
            && |received[n..]| == m
            && Spread(c, direct, received, Contents(c.packet, received[..n] + c.buffer[n..],
                                                    received[n..][..m] + c.bounce[m..]))
  {
    assert received[n..][..|received| - n] == received[n..];
  }

  /** The controller goes through such a pair. */
  method ReceivePair(length: u32, direct: u32, tail: u32, trbs: seq<Trb>, packet: array<byte>,
                     buffer: array<byte>, bounce: array<byte>, received: seq<byte>) returns (left: seq<u32>)
    requires PartsFit(length, direct, tail) && trbs == BouncedPair(length, direct, tail)
    requires packet != buffer && packet != bounce && buffer != bounce
    requires packet.Length == 8 && buffer.Length == length && bounce.Length == BOUNCE_SIZE
    requires |received| <= direct + tail
    modifies packet, buffer, bounce
    ensures Spread(old(Contents(packet[..], buffer[..], bounce[..])), direct, received,
                   Contents(packet[..], buffer[..], bounce[..]))
    ensures var n := Min(|received|, direct);
            left == (if length > BOUNCE_SIZE then [direct - n] else []) + [tail - (|received| - n)]
  {
    ghost var before := Contents(packet[..], buffer[..], bounce[..]);
    if length > BOUNCE_SIZE {
      assert trbs == [Written(RequestBuffer, direct, DATA, true), Written(BounceBuffer, tail, DATA, false)];
      LongFills(direct, tail, before, received);
    } else {
      assert trbs == [Written(BounceBuffer, tail, DATA, false)];
      ShortFills(tail, before, received);
    }
    left := Receive(trbs, packet, buffer, bounce, received);
  }

  /** The stage in the bounced case, its TRBs' sizes known. */
  method BouncedStage(m: u32, length: u32, direct: u32, tail: u32, trbs: seq<Trb>, packet: array<byte>,
                      buffer: array<byte>, bounce: array<byte>, received: seq<byte>) returns (actual: nat)
    requires 0 < m <= BOUNCE_SIZE && SplitOf(length, m) == Split(direct, tail) && direct < length
    requires PartsFit(length, direct, tail) && trbs == BouncedPair(length, direct, tail)
    requires packet != buffer && packet != bounce && buffer != bounce
    requires packet.Length == 8 && buffer.Length == length && bounce.Length == BOUNCE_SIZE
    requires |received| <= direct + tail
    modifies packet, buffer, bounce
    ensures actual == Min(length, |received|)
    ensures buffer[..actual] == received[..actual]
    ensures buffer[actual..] == old(buffer[actual..])
    ensures packet[..] == old(packet[..])
  {
    ghost var before := buffer[..];
    ghost var n := Min(|received|, direct);
    var left := ReceivePair(length, direct, tail, trbs, packet, buffer, bounce, received);
    ghost var mid, last := buffer[..], bounce[..];
    if length > BOUNCE_SIZE {
      assert left == [direct - n, tail - (|received| - n)];
      actual := CompleteBounced(buffer, bounce, length, m, left[0], left[1]);
    } else {
      assert left == [tail - (|received| - n)];
      actual := CompleteBounced(buffer, bounce, length, m, 0, left[0]);
    }
    Assembled(before, mid, last, received, n, actual);
  }

  lemma BouncedSizes(maxPacket: PacketSize, len: u32)
    requires IsPacketSize(maxPacket) && len != 0 && Unaligned(maxPacket, len)
    ensures var split := SplitOf(len, maxPacket);
            && split.direct + split.bounced == InPackets(len, maxPacket)
            && PartsFit(len, split.direct, split.bounced) && split.direct < len
            && StageTrbs(maxPacket, Stage(DATA, Out, len, 0)) == BouncedPair(len, split.direct, split.bounced)
  {
    SplitCovers(len, maxPacket);
    BouncedTrbs(maxPacket, len, SplitOf(len, maxPacket).direct, SplitOf(len, maxPacket).bounced);
  }

  /** A whole OUT data stage over its TRBs, whatever the host sends: the controller follows them,
      the driver counts what came in and copies the tail out of the bounce buffer if it was
      used.  The request's buffer ends up with the first bytes received, as many as fit, in
      order, the request reports that many, and the rest of its buffer is untouched. */
  method OutStage(maxPacket: u32, length: u32, trbs: seq<Trb>, packet: array<byte>, buffer: array<byte>,
                  bounce: array<byte>, received: seq<byte>) returns (actual: nat)
    requires IsPacketSize(maxPacket) && 0 < maxPacket <= BOUNCE_SIZE
    requires packet != buffer && packet != bounce && buffer != bounce
    requires packet.Length == 8 && buffer.Length == length && bounce.Length == BOUNCE_SIZE
    requires Begins(trbs, StageTrbs(maxPacket, Stage(DATA, Out, length, 0)))
    requires |received| <= InPackets(length, maxPacket)
    modifies packet, buffer, bounce
    ensures actual == Min(length, |received|)
    ensures buffer[..actual] == received[..actual]
    ensures buffer[actual..] == old(buffer[actual..])
    ensures packet[..] == old(packet[..])
  {
    ChainIsStage(maxPacket, Stage(DATA, Out, length, 0), trbs);
    if length != 0 && Unaligned(maxPacket, length) {
      var split := SplitOf(length, maxPacket);
      BouncedSizes(maxPacket, length);
      actual := BouncedStage(maxPacket, length, split.direct, split.bounced, ChainOf(trbs), packet, buffer, bounce,
                             received);
    } else {
      DirectFills(maxPacket, length, Contents(packet[..], buffer[..], bounce[..]), received);
      StageIsOneChain(maxPacket, Stage(DATA, Out, length, 0));
      var left := Receive(ChainOf(trbs), packet, buffer, bounce, received);
      actual := length - left[0];
    }
  }
}
