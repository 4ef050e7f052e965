/**
 The event path of the DWC3 driver: the controller writes 4-byte events into a ring of
 256 bytes, the interrupt's top half copies a wrapping window of it into a cache and
 acknowledges it, and the bottom half handles the cache one event at a time while the
 controller goes on writing.  The three together are a plain FIFO.
 */
module EventRing {
  import opened Octets

  const SIZE: nat := 256
  const COUNT_MASK_RANGE: nat := 0x1_0000

  /** One event, as the four bytes in memory. */
  type Event = e: seq<byte> | |e| == 4 witness [0, 0, 0, 0]

  /** `left` is what the bottom half still has to handle of the window it was given;
      `unread` is the controller's count register and `wpos` its write position, which
      the driver never sees. */
  datatype State = State(ring: seq<byte>, cache: seq<byte>, lpos: nat, left: nat, pending: bool,
                         wpos: nat, unread: nat, produced: seq<Event>, handled: seq<Event>)

  /** The i-th position from `start` on, round the end of the buffer if need be. */
  function At(start: nat, i: nat): (p: nat)
    requires start < SIZE && i <= SIZE
    ensures p < SIZE
  {
    if start + i < SIZE then start + i else start + i - SIZE
  }

  lemma AtIsMod(start: nat, i: nat)
    requires start < SIZE && i <= SIZE
    ensures At(start, i) == (start + i) % SIZE
  {
  }

  /** n bytes from `start` on. */
  function Bytes(buf: seq<byte>, start: nat, n: nat): (bytes: seq<byte>)
    requires |buf| == SIZE && start < SIZE && n <= SIZE
    ensures |bytes| == n
    ensures forall i :: 0 <= i < n ==> bytes[i] == buf[At(start, i)]
  {
    seq(n, i requires 0 <= i < n => buf[At(start, i)])
  }

  /** How the four positions relate: everything is aligned to events, and the
      controller writes right behind what is neither handled nor acknowledged. */
  predicate Positions(lpos: nat, left: nat, wpos: nat, unread: nat) {
    && lpos % 4 == 0 && lpos + 4 <= SIZE
    && wpos % 4 == 0 && wpos + 4 <= SIZE
    && left % 4 == 0 && left <= SIZE
    && unread % 4 == 0 && unread <= SIZE
    && wpos == At(At(lpos, left), unread)
  }

  predicate InPlace(s: State) {
    |s.ring| == SIZE && |s.cache| == SIZE && Positions(s.lpos, s.left, s.wpos, s.unread)
  }

  /** A window is only being drained while the bottom half has been called. */
  predicate Placed(s: State) {
    InPlace(s) && (s.left > 0 ==> s.pending)
  }

  /** Handled, then waiting in the cache, then waiting in the ring: together the bytes
      of every event produced, in order. */
  ghost predicate Inv(s: State) {
    && Placed(s)
    && Stream(s) == Flat(s.produced)
  }

  ghost function Stream(s: State): seq<byte>
    requires InPlace(s)
  {
    Flat(s.handled) + Bytes(s.cache, s.lpos, s.left) + Bytes(s.ring, At(s.lpos, s.left), s.unread)
  }

  /** The controller stores one event behind those not yet acknowledged. */
  function HwWrite(s: State, e: Event): State
    requires |s.ring| == SIZE && s.wpos + 4 <= SIZE
  {
    s.(ring := s.ring[..s.wpos] + e + s.ring[s.wpos + 4..],
       wpos := At(s.wpos, 4),
       unread := s.unread + 4,
       produced := s.produced + [e])
  }

  /** The count register as the top half masks it. */
  function Masked(unread: nat): nat {
    (unread % COUNT_MASK_RANGE) / 4 * 4
  }

  /** The cache after `count` bytes from `lpos` on were copied over in two pieces. */
  function Copied(s: State, count: nat): seq<byte>
    requires |s.ring| == SIZE && |s.cache| == SIZE && s.lpos < SIZE && count <= SIZE
  {
    if count <= SIZE - s.lpos then
      s.cache[..s.lpos] + s.ring[s.lpos..s.lpos + count] + s.cache[s.lpos + count..]
    else
      s.ring[..count - (SIZE - s.lpos)] + s.cache[count - (SIZE - s.lpos)..s.lpos] + s.ring[s.lpos..]
  }

  /** The top half.  The controller does not interrupt while its interrupt is masked,
      which it is from here until the bottom half is done. */
  function TopHalf(s: State): State
    requires |s.ring| == SIZE && |s.cache| == SIZE && s.lpos < SIZE && s.unread <= SIZE
  {
    var count := Masked(s.unread);
    if count == 0 then s
    else s.(cache := Copied(s, count), left := count, pending := true, unread := s.unread - count)
  }

  /** One turn of the bottom half's loop. */
  function HandleOne(s: State): State
    requires |s.cache| == SIZE && s.lpos + 4 <= SIZE && s.left >= 4
  {
    s.(handled := s.handled + [s.cache[s.lpos..s.lpos + 4]],
       lpos := At(s.lpos, 4),
       left := s.left - 4)
  }

  datatype Action = Produce(e: Event) | Interrupt | Handle | Unmask

  /** Who may move: the controller as long as it reports no more than a buffer full,
      the top half while unmasked, the bottom half while it has been called. */
  predicate Enabled(s: State, a: Action) {
    match a
    case Produce(_) => s.unread + 4 <= SIZE
    case Interrupt => !s.pending
    case Handle => s.pending && s.left > 0
    case Unmask => s.pending && s.left == 0
  }

  function Step(s: State, a: Action): (s': State)
    requires Placed(s) && Enabled(s, a)
    ensures Placed(s')
  {
    PositionsStep(s.lpos, s.left, s.wpos, s.unread);
    MaskedCount(s.unread);
    match a
    case Produce(e) => HwWrite(s, e)
    case Interrupt => TopHalf(s)
    case Handle => HandleOne(s)
    case Unmask => s.(pending := false)
  }

  // ---------------------------------------------------------------- every step

  lemma {:induction false} FlatLength(es: seq<Event>)
    ensures |Flat(es)| == 4 * |es|
  {
    if es != [] {
      FlatLength(es[1..]);
    }
  }

  lemma BytesSplit(buf: seq<byte>, start: nat, a: nat, b: nat)
    requires |buf| == SIZE && start < SIZE && a + b <= SIZE
    ensures Bytes(buf, start, a + b) == Bytes(buf, start, a) + Bytes(buf, At(start, a), b)
  {
    forall i | 0 <= i < b
      ensures At(At(start, a), i) == At(start, a + i)
    {
    }
  }

  /** An aligned event does not wrap. */
  lemma BytesOfEvent(buf: seq<byte>, p: nat)
    requires |buf| == SIZE && p + 4 <= SIZE
    ensures Bytes(buf, p, 4) == buf[p..p + 4]
  {
  }

  /** Storing an event at the write position leaves the unread bytes alone. */
  lemma WriteKeepsUnread(ring: seq<byte>, start: nat, unread: nat, e: Event)
    requires |ring| == SIZE && start < SIZE && unread + 4 <= SIZE && At(start, unread) + 4 <= SIZE
    ensures var p := At(start, unread);
            var ring' := ring[..p] + e + ring[p + 4..];
            Bytes(ring', start, unread + 4) == Bytes(ring, start, unread) + e
  {
    var p := At(start, unread);
    var ring' := ring[..p] + e + ring[p + 4..];
    BytesSplit(ring', start, unread, 4);
    BytesOfEvent(ring', p);
  }

  lemma PositionsStep(lpos: nat, left: nat, wpos: nat, unread: nat)
    requires Positions(lpos, left, wpos, unread)
    ensures unread + 4 <= SIZE ==> Positions(lpos, left, At(wpos, 4), unread + 4)
    ensures left > 0 ==> Positions(At(lpos, 4), left - 4, wpos, unread)
    ensures left > 0 ==> At(At(lpos, 4), left - 4) == At(lpos, left)
    ensures left == 0 ==> Positions(lpos, unread, wpos, 0)
  {
  }

  lemma ProduceKeeps(s: State, e: Event)
    requires Inv(s) && s.unread + 4 <= SIZE
    ensures Inv(HwWrite(s, e))
  {
    PositionsStep(s.lpos, s.left, s.wpos, s.unread);
    var start := At(s.lpos, s.left);
    WriteKeepsUnread(s.ring, start, s.unread, e);
    FlatOne(s.produced, e);
    Append(Flat(s.handled), Bytes(s.cache, s.lpos, s.left), Bytes(s.ring, start, s.unread), e);
  }

  /** Copying the part before the end of the buffer, then the part after it. */
  lemma CopiedInTwo(s: State, count: nat, first: seq<byte>)
    requires |s.ring| == SIZE && |s.cache| == SIZE && s.lpos < SIZE && count <= SIZE
    requires count > SIZE - s.lpos
    requires first == s.cache[..s.lpos] + s.ring[s.lpos..SIZE] + s.cache[SIZE..]
    ensures var n := count - (SIZE - s.lpos);
            Copied(s, count) == first[..0] + s.ring[0..n] + first[n..]
  {
  }

  lemma CopiedWindow(s: State, count: nat)
    requires |s.ring| == SIZE && |s.cache| == SIZE && s.lpos < SIZE && count <= SIZE
    ensures Bytes(Copied(s, count), s.lpos, count) == Bytes(s.ring, s.lpos, count)
  {
  }

  lemma MaskedCount(unread: nat)
    requires unread % 4 == 0 && unread <= SIZE
    ensures Masked(unread) == unread
  {
  }

  /** What the top half does to a state in place. */
  function Taken(s: State): State
    requires InPlace(s)
  {
    s.(cache := Copied(s, s.unread), left := s.unread, pending := true, unread := 0)
  }

  lemma TopHalfTakes(s: State)
    requires Placed(s) && !s.pending
    ensures TopHalf(s) == (if s.unread == 0 then s else Taken(s)) && Placed(TopHalf(s))
  {
    MaskedCount(s.unread);
    PositionsStep(s.lpos, s.left, s.wpos, s.unread);
  }

  /** The whole unread window moves to the cache. */
  lemma WindowTaken(s: State)
    requires InPlace(s) && s.left == 0 && InPlace(Taken(s))
    ensures Stream(Taken(s)) == Stream(s)
  {
    CopiedWindow(s, s.unread);
    WindowMoves(Flat(s.handled), Bytes(s.cache, s.lpos, 0), Bytes(s.ring, s.lpos, s.unread),
                Bytes(s.ring, At(s.lpos, s.unread), 0));
  }

  lemma WindowMoves(handled: seq<byte>, none: seq<byte>, window: seq<byte>, rest: seq<byte>)
    requires none == [] && rest == []
    ensures handled + window + rest == handled + none + window
  {
  }

  lemma InterruptKeeps(s: State)
    requires Inv(s) && !s.pending
    ensures Inv(TopHalf(s))
    ensures TopHalf(s).unread == 0
  {
    TopHalfTakes(s);
    if s.unread > 0 {
      WindowTaken(s);
    }
  }

  /** The first event of a window, and the rest of it. */
  lemma TakeEvent(buf: seq<byte>, p: nat, n: nat)
    requires |buf| == SIZE && p + 4 <= SIZE && 4 <= n <= SIZE
    ensures Bytes(buf, p, n) == buf[p..p + 4] + Bytes(buf, At(p, 4), n - 4)
  {
    BytesSplit(buf, p, 4, n - 4);
    BytesOfEvent(buf, p);
  }

  lemma HandleKeepsPlace(s: State)
    requires InPlace(s) && s.left > 0
    ensures s.left >= 4 && InPlace(HandleOne(s)) && At(At(s.lpos, 4), s.left - 4) == At(s.lpos, s.left)
  {
    PositionsStep(s.lpos, s.left, s.wpos, s.unread);
  }

  lemma HandleKeepsStream(s: State)
    requires InPlace(s) && s.left >= 4 && InPlace(HandleOne(s))
    requires At(At(s.lpos, 4), s.left - 4) == At(s.lpos, s.left)
    ensures Stream(HandleOne(s)) == Stream(s)
  {
    TakeFirst(s.handled, s.cache, s.lpos, s.left, Bytes(s.ring, At(s.lpos, s.left), s.unread));
  }

  lemma TakeFirst(handled: seq<Event>, cache: seq<byte>, p: nat, n: nat, more: seq<byte>)
    requires |cache| == SIZE && p + 4 <= SIZE && 4 <= n <= SIZE
    ensures Flat(handled + [cache[p..p + 4]]) + Bytes(cache, At(p, 4), n - 4) + more
         == Flat(handled) + Bytes(cache, p, n) + more
  {
    TakeEvent(cache, p, n);
    FlatOne(handled, cache[p..p + 4]);
    Regroup(Flat(handled), cache[p..p + 4], Bytes(cache, At(p, 4), n - 4), more);
  }

  lemma HandleKeeps(s: State)
    requires Inv(s) && s.left > 0
    ensures Inv(HandleOne(s))
  {
    HandleKeepsPlace(s);
    HandleKeepsStream(s);
  }

  lemma Append(a: seq<byte>, b: seq<byte>, c: seq<byte>, d: seq<byte>)
    ensures a + b + (c + d) == (a + b + c) + d
  {
  }

  lemma Regroup(a: seq<byte>, b: seq<byte>, c: seq<byte>, d: seq<byte>)
    ensures (a + b) + c + d == a + (b + c) + d
  {
  }

  lemma StepKeeps(s: State, a: Action)
    requires Inv(s) && Enabled(s, a)
    ensures Inv(Step(s, a))
  {
    match a
    case Produce(e) => ProduceKeeps(s, e);
    case Interrupt => InterruptKeeps(s);
    case Handle => HandleKeeps(s);
    case Unmask =>
  }

  // ---------------------------------------------------------------- whole runs

  ghost predicate IsRun(s: State, acts: seq<Action>)
    requires Placed(s)
    decreases |acts|
  {
    acts != [] ==> Enabled(s, acts[0]) && IsRun(Step(s, acts[0]), acts[1..])
  }

  ghost function After(s: State, acts: seq<Action>): State
    requires Placed(s) && IsRun(s, acts)
    decreases |acts|
  {
    if acts == [] then s else After(Step(s, acts[0]), acts[1..])
  }

  /** The events an interleaving produces, in the order the controller wrote them. */
  function ProducedBy(acts: seq<Action>): seq<Event> {
    if acts == [] then []
    else (if acts[0].Produce? then [acts[0].e] else []) + ProducedBy(acts[1..])
  }

  /** The start state: empty, with anything at all in the two buffers. */
  function Start(ring: seq<byte>, cache: seq<byte>): State {
    State(ring, cache, 0, 0, false, 0, 0, [], [])
  }

  lemma StepProduces(s: State, a: Action)
    requires Inv(s) && Enabled(s, a)
    ensures Step(s, a).produced == s.produced + (if a.Produce? then [a.e] else [])
  {
  }

  lemma {:induction false} RunKeeps(s: State, acts: seq<Action>)
    requires Inv(s) && IsRun(s, acts)
    ensures Inv(After(s, acts))
    decreases |acts|
  {
    if acts != [] {
      StepKeeps(s, acts[0]);
      RunKeeps(Step(s, acts[0]), acts[1..]);
    }
  }

  lemma EventsAppend(a: seq<Event>, b: seq<Event>, c: seq<Event>)
    ensures (a + b) + c == a + (b + c)
  {
  }

  lemma {:induction false} RunProduces(s: State, acts: seq<Action>)
    requires Inv(s) && IsRun(s, acts)
    ensures After(s, acts).produced == s.produced + ProducedBy(acts)
    decreases |acts|
  {
    if acts != [] {
      var a := acts[0];
      StepKeeps(s, a);
      StepProduces(s, a);
      RunProduces(Step(s, a), acts[1..]);
      EventsAppend(s.produced, if a.Produce? then [a.e] else [], ProducedBy(acts[1..]));
    }
  }

  lemma {:induction false} FlatPrefix(a: seq<Event>, b: seq<Event>, rest: seq<byte>)
    requires Flat(a) + rest == Flat(b)
    ensures a <= b
    ensures rest == [] ==> a == b
  {
    FlatLength(a);
    FlatLength(b);
    if a != [] {
      assert |Flat(b)| >= 4 && b != [];
      assert a[0] == (Flat(a) + rest)[..4];
      assert b[0] == Flat(b)[..4];
      assert Flat(a[1..]) + rest == (Flat(a) + rest)[4..];
      assert Flat(b[1..]) == Flat(b)[4..];
      FlatPrefix(a[1..], b[1..], rest);
      assert a == [a[0]] + a[1..] && b == [b[0]] + b[1..];
    } else if rest == [] {
      assert |Flat(b)| == 0;
    }
  }

  /** Whatever the interleaving of controller, top half and bottom half, the events
      handled are the first ones produced, in order, none lost and none twice; and once
      both buffers are drained they are all of them. */
  lemma RefinesFifo(ring: seq<byte>, cache: seq<byte>, acts: seq<Action>)
    requires |ring| == SIZE && |cache| == SIZE && IsRun(Start(ring, cache), acts)
    ensures var s := After(Start(ring, cache), acts);
            && s.handled <= ProducedBy(acts)
            && |ProducedBy(acts)| == |s.handled| + s.left / 4 + s.unread / 4
            && (s.left == 0 && s.unread == 0 ==> s.handled == ProducedBy(acts))
            && s.lpos % 4 == 0 && s.lpos < SIZE
  {
    var s0 := Start(ring, cache);
    StartInv(ring, cache);
    RunKeeps(s0, acts);
    RunProduces(s0, acts);
    assert s0.produced + ProducedBy(acts) == ProducedBy(acts);
    InvMeans(After(s0, acts));
  }

  lemma StartInv(ring: seq<byte>, cache: seq<byte>)
    requires |ring| == SIZE && |cache| == SIZE
    ensures Inv(Start(ring, cache))
  {
    assert Stream(Start(ring, cache)) == [];
  }

  lemma InvMeans(s: State)
    requires Inv(s)
    ensures s.handled <= s.produced
    ensures |s.produced| == |s.handled| + s.left / 4 + s.unread / 4
    ensures s.left == 0 && s.unread == 0 ==> s.handled == s.produced
  {
    var rest := Bytes(s.cache, s.lpos, s.left) + Bytes(s.ring, At(s.lpos, s.left), s.unread);
    assert Stream(s) == Flat(s.handled) + rest;
    FlatLength(s.handled);
    FlatLength(s.produced);
    assert 4 * |s.produced| == 4 * |s.handled| + s.left + s.unread;
    FlatPrefix(s.handled, s.produced, rest);
  }

  /** A state in which nothing can move but the controller has handled everything. */
  lemma DrainedMeansHandled(s: State)
    requires Inv(s) && !Enabled(s, Handle) && !Enabled(s, Unmask) && TopHalf(s) == s
    ensures s.handled == s.produced
  {
    assert !s.pending;
    InterruptKeeps(s);
    InvMeans(s);
  }

  // ---------------------------------------------------------------- one bottom half

  function WriteAll(s: State, es: seq<Event>): (s': State)
    requires InPlace(s) && s.unread + 4 * |es| <= SIZE
    ensures InPlace(s') && s'.unread == s.unread + 4 * |es|
    ensures s'.left == s.left && s'.pending == s.pending
    decreases |es|
  {
    PositionsStep(s.lpos, s.left, s.wpos, s.unread);
    if es == [] then s else WriteAll(HwWrite(s, es[0]), es[1..])
  }

  /** One event written, and the rest. */
  lemma WriteAllTurn(s: State, es: seq<Event>)
    requires InPlace(s) && es != [] && s.unread + 4 * |es| <= SIZE
    ensures InPlace(HwWrite(s, es[0])) && HwWrite(s, es[0]).unread == s.unread + 4
    ensures WriteAll(s, es) == WriteAll(HwWrite(s, es[0]), es[1..])
  {
    PositionsStep(s.lpos, s.left, s.wpos, s.unread);
  }

  function Concat(es: seq<seq<Event>>): seq<Event> {
    if es == [] then [] else es[0] + Concat(es[1..])
  }

  /** A bottom half run to its end: while the k-th event of the window is being handled,
      the controller stores the events of meanwhile[k]. */
  function BottomHalf(s: State, meanwhile: seq<seq<Event>>): (s': State)
    requires InPlace(s) && s.left == 4 * |meanwhile| && s.unread + 4 * |Concat(meanwhile)| <= SIZE
    ensures InPlace(s') && s'.left == 0 && !s'.pending
    decreases |meanwhile|
  {
    PositionsStep(s.lpos, s.left, s.wpos, s.unread);
    if s.left == 0 then s.(pending := false)
    else BottomHalf(WriteAll(HandleOne(s), meanwhile[0]), meanwhile[1..])
  }

  /** One turn of the bottom half, and the rest of it. */
  lemma BottomHalfTurn(s: State, meanwhile: seq<seq<Event>>)
    requires InPlace(s) && s.left == 4 * |meanwhile| && s.unread + 4 * |Concat(meanwhile)| <= SIZE && s.left > 0
    ensures InPlace(HandleOne(s)) && s.unread + 4 * |meanwhile[0]| + 4 * |Concat(meanwhile[1..])| <= SIZE
    ensures BottomHalf(s, meanwhile) == BottomHalf(WriteAll(HandleOne(s), meanwhile[0]), meanwhile[1..])
    ensures s.left >= 4 && s.left - 4 == 4 * |meanwhile[1..]|
  {
    PositionsStep(s.lpos, s.left, s.wpos, s.unread);
  }

  lemma {:induction false} WriteAllKeeps(s: State, es: seq<Event>)
    requires Inv(s) && s.unread + 4 * |es| <= SIZE
    ensures Inv(WriteAll(s, es))
    ensures WriteAll(s, es).produced == s.produced + es && WriteAll(s, es).handled == s.handled
    decreases |es|
  {
    if es != [] {
      ProduceKeeps(s, es[0]);
      WriteAllKeeps(HwWrite(s, es[0]), es[1..]);
      EventsAppend(s.produced, [es[0]], es[1..]);
      assert [es[0]] + es[1..] == es;
    }
  }

  /** The bottom half handles exactly the window it was given, whatever the controller
      stores meanwhile, and loses none of that. */
  lemma {:induction false} BottomHalfKeeps(s: State, meanwhile: seq<seq<Event>>)
    requires Inv(s) && s.left == 4 * |meanwhile| && s.unread + 4 * |Concat(meanwhile)| <= SIZE
    ensures Inv(BottomHalf(s, meanwhile))
    ensures BottomHalf(s, meanwhile).produced == s.produced + Concat(meanwhile)
    ensures s.handled <= BottomHalf(s, meanwhile).handled
    ensures |BottomHalf(s, meanwhile).handled| == |s.handled| + |meanwhile|
    decreases |meanwhile|
  {
    if s.left > 0 {
      HandleKeeps(s);
      WriteAllKeeps(HandleOne(s), meanwhile[0]);
      BottomHalfKeeps(WriteAll(HandleOne(s), meanwhile[0]), meanwhile[1..]);
      EventsAppend(s.produced, meanwhile[0], Concat(meanwhile[1..]));
    }
  }

  // ---------------------------------------------------------------- the buffers in place

  /** The event buffer the driver shares with the controller. */
  class EventBuffer {
    const buf: array<byte>
    const cache: array<byte>
    var lpos: nat
    var count: nat
    var pending: bool
    /** The controller's write position, count register, and interrupt mask bit. */
    var wpos: nat
    var gevntcount: nat
    var masked: bool
    ghost var produced: seq<Event>
    ghost var handled: seq<Event>

    /** The state, `left` bytes of the current window being still to be handled. */
    ghost function Abs(left: nat): State
      reads this, buf, cache
    {
      State(buf[..], cache[..], lpos, left, pending, wpos, gevntcount, produced, handled)
    }

    ghost predicate Valid(left: nat)
      reads this, buf, cache
    {
      buf != cache && InPlace(Abs(left))
    }

    constructor ()
      ensures Valid(0) && fresh(buf) && fresh(cache)
      ensures Abs(0) == Start(buf[..], cache[..]) && Inv(Abs(0)) && count == 0 && !masked
    {
      buf := new byte[SIZE](_ => 0);
      cache := new byte[SIZE](_ => 0);
      lpos, count, pending, wpos, gevntcount, masked := 0, 0, false, 0, 0, false;
      produced, handled := [], [];
      new;
      StartInv(buf[..], cache[..]);
    }

    method WriteOne(e: Event, ghost left: nat)
      requires Valid(left) && gevntcount + 4 <= SIZE
      modifies this`wpos, this`gevntcount, this`produced, buf
      ensures Abs(left) == HwWrite(old(Abs(left)), e)
    {
      buf[wpos], buf[wpos + 1], buf[wpos + 2], buf[wpos + 3] := e[0], e[1], e[2], e[3];
      assert buf[..] == old(buf[..wpos]) + e + old(buf[wpos + 4..]);
      wpos := At(wpos, 4);
      gevntcount := gevntcount + 4;
      produced := produced + [e];
    }

    /** The controller stores events while `left` bytes are still to be handled. */
    method Write(es: seq<Event>, ghost left: nat)
      requires Valid(left) && gevntcount + 4 * |es| <= SIZE
      modifies this`wpos, this`gevntcount, this`produced, buf
      ensures Valid(left)
      ensures Abs(left) == WriteAll(old(Abs(left)), es)
    {
      ghost var goal := WriteAll(Abs(left), es);
      var i := 0;
      while i < |es|
        invariant i <= |es| && Valid(left) && gevntcount + 4 * (|es| - i) <= SIZE
        invariant WriteAll(Abs(left), es[i..]) == goal
      {
        assert es[i..][0] == es[i] && es[i..][1..] == es[i + 1..];
        WriteAllTurn(Abs(left), es[i..]);
        WriteOne(es[i], left);
        i := i + 1;
      }
    }

    /** Copy n bytes of the ring to the same place in the cache. */
    method CopyOver(start: nat, n: nat)
      requires buf != cache && buf.Length == SIZE && cache.Length == SIZE && start + n <= SIZE
      modifies cache
      ensures cache[..] == old(cache[..start]) + buf[start..start + n] + old(cache[start + n..])
    {
      forall i | 0 <= i < n {
        cache[start + i] := buf[start + i];
      }
    }

    /** Copy a window of n bytes, round the end of the buffer if need be. */
    method CopyWindow(n: nat)
      requires buf != cache && buf.Length == SIZE && cache.Length == SIZE && lpos < SIZE && n <= SIZE
      modifies cache
      ensures cache[..] == Copied(old(Abs(0)), n)
    {
      var amount := if n < SIZE - lpos then n else SIZE - lpos;
      CopyOver(lpos, amount);
      if amount < n {
        CopiedInTwo(old(Abs(0)), n, cache[..]);
        CopyOver(0, n - amount);
      }
    }

    /** The top half.  Gives whether the bottom half is to be called. */
    method CheckEventBuf() returns (call: bool)
      requires Valid(0) && count == 0 && !masked && !pending
      modifies this`count, this`pending, this`masked, this`gevntcount, cache
      ensures Abs(count) == TopHalf(old(Abs(0)))
      ensures call == masked == pending && call == (Masked(old(gevntcount)) > 0)
    {
      var n := gevntcount % COUNT_MASK_RANGE / 4 * 4;
      MaskedCount(gevntcount);
      assert n == gevntcount && TopHalf(Abs(0)) == if n == 0 then Abs(0) else Taken(Abs(0));
      if n == 0 {
        return false;
      }
      count := n;
      pending := true;
      masked := true;
      CopyWindow(n);
      gevntcount := gevntcount - n;
      return true;
    }

    method HandleEvent(ghost left: nat)
      requires Valid(left) && left >= 4
      modifies this`lpos, this`handled
      ensures Abs(left - 4) == HandleOne(old(Abs(left)))
    {
      AtIsMod(lpos, 4);
      handled := handled + [cache[lpos..lpos + 4]];
      lpos := (lpos + 4) % SIZE;
    }

    /** One turn of the bottom half's loop. */
    method Turn(meanwhile: seq<Event>, ghost left: nat)
      requires Valid(left) && left >= 4 && gevntcount + 4 * |meanwhile| <= SIZE
      modifies this`lpos, this`handled, this`wpos, this`gevntcount, this`produced, buf
      ensures Valid(left - 4) && gevntcount == old(gevntcount) + 4 * |meanwhile|
      ensures InPlace(HandleOne(old(Abs(left))))
      ensures Abs(left - 4) == WriteAll(HandleOne(old(Abs(left))), meanwhile)
    {
      PositionsStep(lpos, left, wpos, gevntcount);
      HandleEvent(left);
      Write(meanwhile, left - 4);
    }

    /** The bottom half's loop, over a window of n bytes. */
    method DrainWindow(meanwhile: seq<seq<Event>>, n: nat)
      requires Valid(n) && n == 4 * |meanwhile|
      requires gevntcount + 4 * |Concat(meanwhile)| <= SIZE
      modifies this`lpos, this`handled, this`wpos, this`gevntcount, this`produced, buf
      ensures Valid(0)
      ensures Abs(0).(pending := false) == BottomHalf(old(Abs(n)), meanwhile)
    {
      ghost var goal := BottomHalf(Abs(n), meanwhile);
      var left, rest := n, meanwhile;
      while left > 0
        invariant left == 4 * |rest| && Valid(left)
        invariant gevntcount + 4 * |Concat(rest)| <= SIZE
        invariant BottomHalf(Abs(left), rest) == goal
      {
        BottomHalfTurn(Abs(left), rest);
        ghost var next := WriteAll(HandleOne(Abs(left)), rest[0]);
        Turn(rest[0], left);
        left := left - 4;
        rest := rest[1..];
        assert Abs(left) == next;
      }
    }

    /** The bottom half, the controller storing events meanwhile. */
    method ProcessEventBuf(meanwhile: seq<seq<Event>>)
      requires Valid(count) && count == 4 * |meanwhile| && (pending || count == 0)
      requires gevntcount + 4 * |Concat(meanwhile)| <= SIZE
      modifies this, buf
      ensures Valid(0) && count == 0
      ensures Abs(0) == BottomHalf(old(Abs(count)), meanwhile)
      ensures old(pending) ==> !masked
    {
      if !pending {
        return;
      }
      DrainWindow(meanwhile, count);
      count := 0;
      pending := false;
      masked := false;
    }
  }
}
