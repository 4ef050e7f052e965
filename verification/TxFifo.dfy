/**
 The layout of the transmit FIFOs in the controller's RAM: one register word per enabled
 IN endpoint, the start depth in its upper half and the size in its lower half, both in
 units of the master bus width.
 */
module TxFifo {
  import opened Division

  const HALF: nat := 0x1_0000

  datatype InEp = InEp(enabled: bool, bulkOrIsoc: bool, maxPacket: nat)

  /** One register write. */
  datatype Write = Write(num: nat, word: nat)

  function Mult(ep: InEp): nat {
    if ep.bulkOrIsoc then 3 else 1
  }

  /** Bytes an endpoint's FIFO has to hold. */
  function Needed(ep: InEp, width: nat): nat {
    Mult(ep) * (ep.maxPacket + width) + width
  }

  function SizeField(word: nat): nat {
    word % HALF
  }

  function StartField(word: nat): nat {
    word / HALF
  }

  /** The word the driver composes: the start shifted up, or-ed with the size.  The two
      do not overlap as long as the size fits its half. */
  function Word(size: nat, start: nat): nat
    requires size < HALF
    ensures SizeField(Word(size, start)) == size && StartField(Word(size, start)) == start
  {
    size + start * HALF
  }

  /** What the sixteen endpoints at most, packets of 1024 bytes at most, can need. */
  predicate Sensible(eps: seq<InEp>, width: nat) {
    && |eps| <= 16 && width >= 1
    && forall i :: 0 <= i < |eps| ==> eps[i].maxPacket <= 1024
  }

  /** The regions written lie end to end from depth 0 on. */
  ghost predicate EndToEnd(ws: seq<Write>) {
    forall i :: 0 <= i < |ws| ==>
      StartField(ws[i].word) == if i == 0 then 0 else StartField(ws[i - 1].word) + SizeField(ws[i - 1].word)
  }

  /** Endpoints that get a register, in order. */
  function EnabledNums(eps: seq<InEp>): (nums: seq<nat>)
    ensures forall i :: 0 <= i < |nums| ==> nums[i] < |eps| && eps[nums[i]].enabled
    ensures |nums| <= |eps|
  {
    if eps == [] then []
    else
      var n := |eps| - 1;
      EnabledNums(eps[..n]) + if eps[n].enabled then [n] else []
  }

  lemma SizeBound(need: nat, width: nat)
    requires width >= 1 && need <= 3 * 1024 + 4 * width
    ensures var size := (need + width - 1) / width;
            && size <= 3076
            && need <= size * width < need + width
  {
    var x := need + width - 1;
    DivMod(x, width);
    if x / width > 3076 {
      OneMore(3076, x / width, width);
      assert false;
    }
  }

  /** A region large enough for its endpoint, and no larger than rounding up makes it. */
  predicate Fits(w: Write, eps: seq<InEp>, num: nat, width: nat)
    requires num < |eps|
  {
    && w.num == num
    && StartField(w.word) + SizeField(w.word) < HALF
    && Needed(eps[num], width) <= SizeField(w.word) * width < Needed(eps[num], width) + width
  }

  /** The depth reached by the regions written so far. */
  function Depth(ws: seq<Write>): nat {
    if ws == [] then 0 else StartField(ws[|ws| - 1].word) + SizeField(ws[|ws| - 1].word)
  }

  ghost predicate LaidOut(eps: seq<InEp>, width: nat, ws: seq<Write>) {
    var nums := EnabledNums(eps);
    && |ws| == |nums|
    && (forall i :: 0 <= i < |ws| ==> Fits(ws[i], eps, nums[i], width))
    && EndToEnd(ws)
  }

  lemma LaidOutStep(eps: seq<InEp>, width: nat, ws: seq<Write>, n: nat, w: Write)
    requires n < |eps| && LaidOut(eps[..n], width, ws)
    ensures !eps[n].enabled ==> LaidOut(eps[..n + 1], width, ws)
    ensures eps[n].enabled && Fits(w, eps, n, width) && StartField(w.word) == Depth(ws) ==>
              LaidOut(eps[..n + 1], width, ws + [w])
  {
    assert eps[..n + 1][..n] == eps[..n];
    var before, after := EnabledNums(eps[..n]), EnabledNums(eps[..n + 1]);
    forall i | 0 <= i < |ws|
      ensures Fits(ws[i], eps[..n + 1], after[i], width)
    {
      assert after[i] == before[i] && Fits(ws[i], eps[..n], before[i], width);
    }
  }

  method SizeFor(ep: InEp, width: nat) returns (fifoSize: nat)
    requires width >= 1 && ep.maxPacket <= 1024
    ensures fifoSize <= 3076
    ensures Needed(ep, width) <= fifoSize * width < Needed(ep, width) + width
  {
    var mult := 1;
    if ep.bulkOrIsoc {
      mult := 3;
    }
    var tmp := mult * (ep.maxPacket + width);
    tmp := tmp + width;
    SizeBound(tmp, width);
    fifoSize := (tmp + width - 1) / width;
  }

  /** The registers written decode to one region per enabled endpoint, in order, end to
      end from 0, nothing overflowing its half of a word, each region large enough. */
  method ResizeTxFifos(eps: seq<InEp>, width: nat) returns (ws: seq<Write>)
    requires Sensible(eps, width)
    ensures LaidOut(eps, width, ws)
  {
    ws := [];
    var lastDepth := 0;
    var num := 0;
    while num < |eps|
      invariant num <= |eps| && |ws| <= num
      invariant LaidOut(eps[..num], width, ws)
      invariant lastDepth <= 3076 * num && lastDepth == Depth(ws)
    {
      ghost var before := ws;
      if eps[num].enabled {
        var fifoSize := SizeFor(eps[num], width);
        var w := Write(num, Word(fifoSize, lastDepth));
        LaidOutStep(eps, width, ws, num, w);
        ws := ws + [w];
        lastDepth := lastDepth + fifoSize;
      } else {
        LaidOutStep(eps, width, ws, num, Write(0, 0));
      }
      num := num + 1;
    }
    assert eps[..num] == eps;
  }

  /** End to end means disjoint, and in order. */
  lemma {:induction false} Disjoint(ws: seq<Write>, i: nat, j: nat)
    requires EndToEnd(ws) && i < j < |ws|
    ensures StartField(ws[i].word) + SizeField(ws[i].word) <= StartField(ws[j].word)
    decreases j
  {
    if i + 1 < j {
      Disjoint(ws, i, j - 1);
    }
  }
}
