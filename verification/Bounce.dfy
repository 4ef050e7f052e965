/**
 The bounce buffer of OUT data stages on endpoint zero.  The controller only takes whole
 packets, so a request whose length is not a multiple of the packet size receives its
 tail in a 512-byte bounce buffer, behind a TRB of its own if it is long.
 */
module Bounce {
  import opened Octets
  import opened Division

  const BOUNCE_SIZE: nat := 512

  /** The packet sizes of endpoint zero: powers of two up to 512. */
  predicate IsPacketSize(m: nat) {
    m in {1, 2, 4, 8, 16, 32, 64, 128, 256, 512}
  }

  /** ALIGN, in 32-bit arithmetic: add a - 1, then clear the bits below a, which for a
      power of two is dividing by it and multiplying again. */
  function Align(x: u32, a: u32): u32
    requires a > 0
  {
    var y := (x + a - 1) % U32;
    y / a * a
  }

  /** roundup, in 32-bit arithmetic. */
  function RoundUp(x: u32, y: u32): u32
    requires y > 0
  {
    ((x + (y - 1)) % U32) / y * y
  }

  /** The lengths of the two TRBs of a bounced request; the first may be absent. */
  datatype Split = Split(direct: u32, bounced: u32)

  function SplitOf(length: u32, m: u32): Split
    requires 0 < m <= BOUNCE_SIZE
  {
    var direct := if length > BOUNCE_SIZE then Align(length - m, m) else 0;
    Split(direct, RoundUp((length - direct) % U32, m))
  }

  /** Bytes in the whole packets that n bytes need, counted without overflow. */
  function InPackets(n: nat, m: nat): nat
    requires m > 0
  {
    (n + m - 1) / m * m
  }

  /** Rounding q packets and a bit up to whole packets. */
  lemma RoundsUp(q: nat, r: nat, m: nat)
    requires 0 < r < m
    ensures InPackets(q * m + r, m) == (q + 1) * m
  {
    assert q * m + r + m - 1 == (q + 1) * m + (r - 1);
    Quotient(q * m + r + m - 1, m, q + 1, r - 1);
  }

  /** Subtracting a packet before aligning is rounding down to whole packets. */
  lemma AlignLong(length: u32, m: nat, q: nat, r: nat)
    requires 0 < m <= length && length == q * m + r && 0 < r < m
    ensures Align(length - m, m) == q * m
  {
    Quotient(length - 1, m, q, r - 1);
    assert (length - m + m - 1) % U32 == length - 1;
  }

  lemma RoundUpIs(x: u32, m: u32, q: nat, r: nat)
    requires 0 < r < m && x == q * m + r && x + m < U32
    ensures RoundUp(x, m) == (q + 1) * m
  {
    assert (q + 1) * m == q * m + m;
    Quotient(x + (m - 1), m, q + 1, r - 1);
  }

  lemma SplitLong(length: u32, m: nat, q: nat, r: nat)
    requires 0 < m <= BOUNCE_SIZE < length && length == q * m + r && 0 < r < m
    ensures SplitOf(length, m) == Split(q * m, m)
  {
    AlignLong(length, m, q, r);
    RoundUpIs(r, m, 0, r);
    assert (length - q * m) % U32 == r;
  }

  lemma NextPacketFits(m: nat, q: nat, r: nat, k: nat)
    requires k * m == BOUNCE_SIZE && q * m + r <= BOUNCE_SIZE && 0 < r
    ensures (q + 1) * m <= BOUNCE_SIZE
  {
    if q < k {
      OneMore(q, k, m);
    } else if k < q {
      OneMore(k, q, m);
    }
    assert (q + 1) * m == q * m + m;
  }

  lemma SplitShort(length: u32, m: nat, q: nat, r: nat)
    requires 0 < m <= BOUNCE_SIZE && length <= BOUNCE_SIZE && length == q * m + r && 0 < r < m
    ensures SplitOf(length, m) == Split(0, (q + 1) * m)
  {
    RoundUpIs(length, m, q, r);
  }

  lemma DividesBounceSize(m: nat)
    requires IsPacketSize(m)
    ensures 0 < m <= BOUNCE_SIZE && BOUNCE_SIZE % m == 0
  {
  }

  /** q whole packets and a bit: the two TRBs, without the 32-bit arithmetic. */
  lemma SplitIs(length: u32, m: nat, q: nat, r: nat)
    requires IsPacketSize(m) && length == q * m + r && 0 < r < m
    ensures 0 < m <= BOUNCE_SIZE
    ensures SplitOf(length, m) == if length > BOUNCE_SIZE then Split(q * m, m) else Split(0, (q + 1) * m)
    ensures length <= BOUNCE_SIZE ==> (q + 1) * m <= BOUNCE_SIZE
  {
    DividesBounceSize(m);
    if length > BOUNCE_SIZE {
      SplitLong(length, m, q, r);
    } else {
      DivMod(BOUNCE_SIZE, m);
      NextPacketFits(m, q, r, BOUNCE_SIZE / m);
      SplitShort(length, m, q, r);
    }
  }

  /** The TRBs cover exactly the whole packets the request needs, the first stays inside
      the request's buffer, and the tail fits the bounce buffer. */
  predicate Covers(s: Split, length: u32, m: nat)
    requires m > 0
  {
    && s.direct + s.bounced == InPackets(length, m)
    && s.direct < length
    && 0 < s.bounced <= BOUNCE_SIZE
    && (length > BOUNCE_SIZE ==> s.bounced == m)
    && (length <= BOUNCE_SIZE ==> s.direct == 0)
  }

  lemma CoversPackets(s: Split, length: u32, m: nat, q: nat, r: nat)
    requires 0 < m <= BOUNCE_SIZE && length == q * m + r && 0 < r < m
    requires s == if length > BOUNCE_SIZE then Split(q * m, m) else Split(0, (q + 1) * m)
    requires length <= BOUNCE_SIZE ==> (q + 1) * m <= BOUNCE_SIZE
    ensures Covers(s, length, m)
  {
    RoundsUp(q, r, m);
    assert (q + 1) * m == q * m + m;
  }

  /** For every length that is not a multiple of the packet size. */
  lemma SplitCovers(length: u32, m: nat)
    requires IsPacketSize(m) && length % m != 0
    ensures 0 < m <= BOUNCE_SIZE
    ensures Covers(SplitOf(length, m), length, m)
  {
    DivMod(length, m);
    SplitIs(length, m, length / m, length % m);
    CoversPackets(SplitOf(length, m), length, m, length / m, length % m);
  }

  function Min(a: int, b: int): int {
    if a < b then a else b
  }

  /** The controller's side: `received` fills the first TRB's buffer, then the second's.
      Gives what is left of each TRB. */
  method HwReceive(buf: array<byte>, bounce: array<byte>, s: Split, received: seq<byte>)
    returns (left1: u32, left2: u32)
    requires buf != bounce && s.direct <= buf.Length && s.bounced <= bounce.Length
    requires |received| <= s.direct + s.bounced
    modifies buf, bounce
    ensures var n := Min(|received|, s.direct);
            && left1 == s.direct - n && left2 == s.bounced - (|received| - n)
            && buf[..n] == received[..n] && buf[n..] == old(buf[n..])
            && bounce[..|received| - n] == received[n..]
  {
    var n := if |received| < s.direct then |received| else s.direct;
    forall i | 0 <= i < n {
      buf[i] := received[i];
    }
    forall i | 0 <= i < |received| - n {
      bounce[i] := received[n + i];
    }
    left1, left2 := s.direct - n, s.bounced - (|received| - n);
  }

  /** The driver's side, when the data stage completes: count what came in and copy the
      tail out of the bounce buffer. */
  method CompleteBounced(buf: array<byte>, bounce: array<byte>, length: u32, m: u32, left1: u32, left2: u32)
    returns (actual: nat)
    requires 0 < m <= BOUNCE_SIZE && buf.Length == length && buf != bounce && bounce.Length == BOUNCE_SIZE
    requires left1 <= SplitOf(length, m).direct < length && left2 <= SplitOf(length, m).bounced <= BOUNCE_SIZE
    modifies buf
    ensures var s := SplitOf(length, m);
            var got1, got2 := s.direct - left1, s.bounced - left2;
            && actual == got1 + Min(length - got1, got2)
            && buf[..] == old(buf[..got1]) + bounce[..actual - got1] + old(buf[actual..])
  {
    var transferSize: u32 := 0;
    var transferred: u32 := 0;
    var remaining: u32 := length;
    var from: u32 := 0;
    actual := 0;
    if length > BOUNCE_SIZE {
      transferSize := Align(length - m, m);
      transferred := transferSize - left1;
      from := transferred;
      actual := actual + transferred;
      remaining := remaining - transferred;
    }
    transferSize := RoundUp((length - transferSize) % U32, m);
    transferred := if remaining < transferSize - left2 then remaining else transferSize - left2;
    CopyIn(buf, from, bounce, transferred);
    actual := actual + transferred;
  }

  /** memcpy of n bytes from the start of the bounce buffer. */
  method CopyIn(buf: array<byte>, from: nat, bounce: array<byte>, n: nat)
    requires buf != bounce && from + n <= buf.Length && n <= bounce.Length
    modifies buf
    ensures buf[..] == old(buf[..from]) + bounce[..n] + old(buf[from + n..])
  {
    for i := 0 to n
      invariant buf[..] == old(buf[..from]) + bounce[..i] + old(buf[from + i..])
    {
      buf[from + i] := bounce[i];
    }
  }

  lemma Assembled(before: seq<byte>, mid: seq<byte>, tail: seq<byte>, received: seq<byte>, n: nat, actual: nat)
    requires n <= actual <= |received| && actual <= |mid| == |before| && |received| - n <= |tail|
    requires mid[..n] == received[..n] && mid[n..] == before[n..] && tail[..|received| - n] == received[n..]
    ensures var got := mid[..n] + tail[..actual - n] + mid[actual..];
            got[..actual] == received[..actual] && got[actual..] == before[actual..]
  {
    assert tail[..actual - n] == tail[..|received| - n][..actual - n] == received[n..actual];
    assert mid[actual..] == mid[n..][actual - n..] == before[actual..];
  }

  /** A whole bounced data stage: whatever the host sends, the request ends up with its
      first bytes, as many as fit, in order, and reports that many; the rest of its
      buffer is untouched. */
  method OutDataStage(buf: array<byte>, bounce: array<byte>, length: u32, m: u32, received: seq<byte>)
    returns (actual: nat)
    requires IsPacketSize(m) && length % m != 0 && buf.Length == length && buf != bounce
    requires bounce.Length == BOUNCE_SIZE
    requires |received| <= InPackets(length, m)
    modifies buf, bounce
    ensures actual == Min(length, |received|)
    ensures buf[..actual] == received[..actual]
    ensures buf[actual..] == old(buf[actual..])
  {
    SplitCovers(length, m);
    var s := SplitOf(length, m);
    ghost var before := buf[..];
    var left1, left2 := HwReceive(buf, bounce, s, received);
    ghost var mid, tail := buf[..], bounce[..];
    actual := CompleteBounced(buf, bounce, length, m, left1, left2);
    Assembled(before, mid, tail, received, Min(|received|, s.direct), actual);
  }
}
