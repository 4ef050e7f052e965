/**
 The byte count reported for a finished request.  The driver adds the length of the
 whole request for every TRB it reads back, so the count is right for requests without a
 buffer chain and wrong for most others.
 */
module EndpointBytes {
  import opened Octets
  import opened TrbRing
  import opened EndpointModel

  /** How many TRBs of a request are read back, from the i-th on. */
  function Walked(dirIn: bool, pool: seq<Trb>, r: Request, i: nat, e: Event): (n: nat)
    requires |pool| == TRB_NUM && i < Width(r)
    ensures 1 <= n <= Width(r) - i
    decreases Width(r) - i
  {
    var one := ReadTrb(dirIn, pool[CleanupSlot(r.startSlot, i)], r.length, e, 0, false);
    if one.done || i + 1 == Width(r) then 1 else 1 + Walked(dirIn, pool, r, i + 1, e)
  }

  /** Bytes that the controller reports as not moved by n TRBs of a request. */
  function Left(pool: seq<Trb>, r: Request, i: nat, n: nat): nat
    requires |pool| == TRB_NUM
    decreases n
  {
    if n == 0 then 0 else pool[CleanupSlot(r.startSlot, i)].count + Left(pool, r, i + 1, n - 1)
  }

  /** The count accumulated by reading back, in terms of what was left of each TRB. */
  lemma {:induction false} WalkCounts(dirIn: bool, pool: seq<Trb>, r: Request, i: nat, e: Event, actual: nat,
                                      missed: bool)
    requires |pool| == TRB_NUM && i < Width(r)
    ensures var n := Walked(dirIn, pool, r, i, e);
            WalkTrbs(dirIn, pool, r, i, e, actual, missed).actual
            == (actual + n * r.length - Left(pool, r, i, n)) % U32
    decreases Width(r) - i
  {
    var trb := pool[CleanupSlot(r.startSlot, i)];
    var one := ReadTrb(dirIn, trb, r.length, e, actual, missed);
    var n := Walked(dirIn, pool, r, i, e);
    if one.done || i + 1 == Width(r) {
      CountOne(pool, r, i);
    } else {
      var rest := Left(pool, r, i + 1, n - 1);
      WalkCounts(dirIn, pool, r, i + 1, e, one.actual, one.missedIsoc);
      CountStep(actual, r.length, trb.count, n, rest);
      assert Left(pool, r, i, n) == trb.count + rest;
    }
  }

  lemma CountOne(pool: seq<Trb>, r: Request, i: nat)
    requires |pool| == TRB_NUM
    ensures Left(pool, r, i, 1) == pool[CleanupSlot(r.startSlot, i)].count
  {
    assert Left(pool, r, i + 1, 0) == 0;
  }

  /** One TRB read back, and n - 1 more. */
  lemma CountStep(actual: int, length: nat, count: int, n: int, left: int)
    ensures ((actual + length - count) % U32 + (n - 1) * length - left) % U32
         == (actual + n * length - (count + left)) % U32
  {
    assert n * length == length + (n - 1) * length;
    ModStep(actual + length - count, (n - 1) * length - left);
  }

  lemma ModStep(a: int, b: int)
    ensures (a % U32 + b) % U32 == (a + b) % U32
  {
  }

  /** The size a TRB can take of a length: its low 24 bits. */
  function Programmed(len: nat): nat {
    len % 0x100_0000
  }

  function SumOf(bufs: seq<Buf>): nat {
    if bufs == [] then 0 else Programmed(bufs[0].len) + SumOf(bufs[1..])
  }

  /** The bytes the TRBs of a request are for, one for each buffer or one in all. */
  function Bytes(r: Request): nat {
    if r.bufs == [] then Programmed(r.length) else SumOf(r.bufs)
  }

  /** The sizes in the TRBs the driver makes for a request, from the i-th on. */
  function Sizes(c: Config, r: Request, i: nat, last: bool): nat
    requires i <= Width(r)
    decreases Width(r) - i
  {
    if i == Width(r) then 0 else MakeTrb(c, r, i, last).count + Sizes(c, r, i + 1, last)
  }

  /** They are those bytes. */
  lemma BytesAreProgrammed(c: Config, r: Request, last: bool)
    ensures Sizes(c, r, 0, last) == Bytes(r)
  {
    if r.bufs == [] {
      assert Sizes(c, r, 1, last) == 0;
    } else {
      assert r.bufs[0..] == r.bufs;
      BuffersAreProgrammed(c, r, 0, last);
    }
  }

  lemma {:induction false} BuffersAreProgrammed(c: Config, r: Request, i: nat, last: bool)
    requires r.bufs != [] && i <= |r.bufs|
    ensures Sizes(c, r, i, last) == SumOf(r.bufs[i..])
    decreases |r.bufs| - i
  {
    if i < |r.bufs| {
      BuffersAreProgrammed(c, r, i + 1, last);
      assert r.bufs[i..][1..] == r.bufs[i + 1..];
    }
  }

  /** For a request read back whole, starting from a zero count: the number reported is
      the number of bytes moved exactly when that fits 32 bits and the surplus, one request
      length for every TRB less the bytes its TRBs are for, is a multiple of 2^32. */
  lemma ByteCountExact(dirIn: bool, pool: seq<Trb>, r: Request, e: Event, missed: bool)
    requires |pool| == TRB_NUM && r.actual == 0
    requires Walked(dirIn, pool, r, 0, e) == Width(r)
    requires Left(pool, r, 0, Width(r)) <= Bytes(r)
    ensures WalkTrbs(dirIn, pool, r, 0, e, r.actual, missed).actual == Bytes(r) - Left(pool, r, 0, Width(r))
       <==> && Bytes(r) - Left(pool, r, 0, Width(r)) < U32
            && (Width(r) * r.length - Bytes(r)) % U32 == 0
  {
    WalkCounts(dirIn, pool, r, 0, e, 0, missed);
    SurplusMod(Bytes(r) - Left(pool, r, 0, Width(r)), Width(r) * r.length - Bytes(r));
  }

  lemma SurplusMod(moved: nat, surplus: int)
    ensures (surplus + moved) % U32 == moved <==> moved < U32 && surplus % U32 == 0
  {
  }

  /** A request of one TRB reports what was moved exactly if its length is what that TRB is
      for: without a buffer chain, if the length is below 2^24. */
  lemma OneTrbCount(dirIn: bool, pool: seq<Trb>, r: Request, e: Event, missed: bool)
    requires |pool| == TRB_NUM && r.actual == 0 && r.length < U32 && Width(r) == 1
    requires pool[CleanupSlot(r.startSlot, 0)].count <= Bytes(r)
    ensures WalkTrbs(dirIn, pool, r, 0, e, r.actual, missed).actual
         == Bytes(r) - pool[CleanupSlot(r.startSlot, 0)].count
       <==> r.length == Bytes(r)
    ensures r.bufs == [] ==> (r.length == Bytes(r) <==> r.length < 0x100_0000)
  {
    assert Left(pool, r, 1, 0) == 0;
    assert Width(r) * r.length == r.length;
    assert Bytes(r) < 0x100_0000 by {
      if r.bufs != [] {
        assert SumOf(r.bufs[1..]) == 0;
      }
    }
    ByteCountExact(dirIn, pool, r, e, missed);
  }

  /** A request of 2^24 bytes without a buffer chain: its TRB is for none, and the request
      reports all of them. */
  lemma LongRequestCount(c: Config, e: Event, last: bool)
    requires !e.ioc && !e.lst
    ensures var r := Request(0, true, [], 0, 0x100_0000, false, 0, 0, true, 0, EINPROGRESS);
            var pool := seq(TRB_NUM, _ => ZERO_TRB);
            && MakeTrb(c, r, 0, last).count == 0 && Bytes(r) == 0
            && WalkTrbs(true, pool, r, 0, e, 0, false).actual == 0x100_0000
  {
  }

  /** Two buffers of 100 bytes, all moved, on a request with this length. */
  function TwoBuffers(length: nat): Request {
    Request(0, true, [Buf(0, 100), Buf(0, 100)], 0, length, false, 0, 0, true, 0, EINPROGRESS)
  }

  /** The code is wrong for a request that gives the length of its buffers, and for one
      that leaves its length at zero; half the buffers' length happens to be right. */
  lemma TwoBuffersCount(length: nat, e: Event)
    requires !e.ioc && !e.lst
    ensures var pool := seq(TRB_NUM, _ => ZERO_TRB);
            WalkTrbs(true, pool, TwoBuffers(length), 0, e, 0, false).actual == (2 * length) % U32
    ensures Bytes(TwoBuffers(length)) == 200
  {
    var r := TwoBuffers(length);
    var pool := seq(TRB_NUM, _ => ZERO_TRB);
    assert SumOf(r.bufs[1..]) == 100 + SumOf(r.bufs[1..][1..]);
    var first := ReadTrb(true, pool[CleanupSlot(0, 0)], length, e, 0, false);
    assert WalkTrbs(true, pool, r, 0, e, 0, false) == WalkTrbs(true, pool, r, 1, e, first.actual, false);
    ModStep(length, length);
  }
}
