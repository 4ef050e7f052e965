/** Bytes in memory, and the 32-bit numbers of the driver. */
module Octets {

  const U32: nat := 0x1_0000_0000

  type byte = x: int | 0 <= x < 256
  type u32 = x: int | 0 <= x < U32

  /** Several pieces end to end. */
  function Flat(pieces: seq<seq<byte>>): seq<byte> {
    if pieces == [] then [] else pieces[0] + Flat(pieces[1..])
  }

  lemma {:induction false} FlatConcat(a: seq<seq<byte>>, b: seq<seq<byte>>)
    ensures Flat(a + b) == Flat(a) + Flat(b)
  {
    if a == [] {
      assert a + b == b;
    } else {
      FlatConcat(a[1..], b);
      assert (a + b)[1..] == a[1..] + b && (a + b)[0] == a[0];
      assert Flat(a + b) == a[0] + (Flat(a[1..]) + Flat(b));
      assert a[0] + (Flat(a[1..]) + Flat(b)) == (a[0] + Flat(a[1..])) + Flat(b);
    }
  }

  lemma FlatOne(pieces: seq<seq<byte>>, piece: seq<byte>)
    ensures Flat(pieces + [piece]) == Flat(pieces) + piece
  {
    FlatConcat(pieces, [piece]);
    assert [piece][1..] == [];
    assert Flat([piece]) == piece + Flat([]);
  }
}
