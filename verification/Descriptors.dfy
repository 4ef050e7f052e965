/**
 Descriptors as bytes: filling a buffer with them, the whole configuration descriptor a
 host asks for, and reading it back the way a host does, by the length each descriptor
 starts with (section 9.5 of USB 2.0).
 */
module Descriptors {
  import opened Wrappers
  import opened Octets

  const BUFSIZ: nat := 1024
  const DT_CONFIG_SIZE: nat := 9
  const DT_CONFIG: byte := 2
  const ATT_ONE: nat := 0x80
  const VBUS_DRAW: nat := 1
  const EINVAL: int := -22

  /** A descriptor: its first byte is its length, its second its type. */
  type Desc = d: seq<byte> | |d| >= 2 && d[0] == |d| witness [2, 0]

  lemma FlatNext(ds: seq<Desc>, i: nat)
    requires i < |ds|
    ensures Flat(ds[..i + 1]) == Flat(ds[..i]) + ds[i]
    ensures |Flat(ds[..i + 1])| <= |Flat(ds)|
  {
    assert ds[..i + 1] == ds[..i] + [ds[i]];
    FlatOne(ds[..i], ds[i]);
    assert ds == ds[..i + 1] + ds[i + 1..];
    FlatConcat(ds[..i + 1], ds[i + 1..]);
  }

  /** What a host makes of the bytes. */
  function Parse(bytes: seq<byte>): Option<seq<Desc>>
    decreases |bytes|
  {
    if bytes == [] then Some([])
    else if bytes[0] < 2 || bytes[0] > |bytes| then None
    else
      var first: Desc := bytes[..bytes[0]];
      var rest := Parse(bytes[bytes[0]..]);
      if rest.None? then None else Some([first] + rest.value)
  }

  lemma {:induction false} ParseFlat(ds: seq<Desc>)
    ensures Parse(Flat(ds)) == Some(ds)
  {
    if ds != [] {
      ParseFlat(ds[1..]);
      var bytes := Flat(ds);
      assert bytes[..|ds[0]|] == ds[0] && bytes[|ds[0]|..] == Flat(ds[1..]);
      assert [ds[0]] + ds[1..] == ds;
    }
  }

  // ---------------------------------------------------------------- filling a buffer

  /** Bytes overwritten from a position on. */
  function Patched(s: seq<byte>, at: nat, d: seq<byte>): (t: seq<byte>)
    requires at + |d| <= |s|
    ensures |t| == |s|
  {
    s[..at] + d + s[at + |d|..]
  }

  lemma PatchedTwice(s: seq<byte>, at: nat, a: seq<byte>, b: seq<byte>)
    requires at + |a| + |b| <= |s|
    ensures Patched(Patched(s, at, a), at + |a|, b) == Patched(s, at, a + b)
  {
  }

  /** One more descriptor behind those in place. */
  lemma FillNext(before: seq<byte>, at: nat, ds: seq<Desc>, i: nat)
    requires i < |ds| && at + |Flat(ds[..i])| + |ds[i]| <= |before|
    ensures |Flat(ds[..i + 1])| == |Flat(ds[..i])| + |ds[i]|
    ensures Patched(Patched(before, at, Flat(ds[..i])), at + |Flat(ds[..i])|, ds[i])
         == Patched(before, at, Flat(ds[..i + 1]))
  {
    FlatNext(ds, i);
    PatchedTwice(before, at, Flat(ds[..i]), ds[i]);
  }

  /** memcpy */
  method Copy(buf: array<byte>, at: nat, d: seq<byte>)
    requires at + |d| <= buf.Length
    modifies buf
    ensures buf[..] == Patched(old(buf[..]), at, d)
  {
    forall i | 0 <= i < |d| {
      buf[at + i] := d[i];
    }
  }

  /** usb_descriptor_fillbuf, on the `room` bytes of buf from `at` on: all descriptors or
      an error, which it is exactly when they do not fit; nothing outside is written. */
  method FillBuf(buf: array<byte>, at: nat, room: nat, src: Option<seq<Desc>>) returns (status: int)
    requires at + room <= buf.Length
    modifies buf
    ensures status == if src.Some? && |Flat(src.value)| <= room then |Flat(src.value)| else EINVAL
    ensures status >= 0 ==> buf[..] == Patched(old(buf[..]), at, Flat(src.value))
    ensures buf[..at] == old(buf[..at]) && buf[at + room..] == old(buf[at + room..])
  {
    if src.None? {
      return EINVAL;
    }
    ghost var before := buf[..];
    ghost var k;
    status, k := FillLoop(buf, at, room, src.value);
    PatchedInside(before, at, Flat(src.value[..k]), at + room);
    assert status >= 0 ==> src.value[..k] == src.value;
  }

  /** Its loop: the first k descriptors are in, all or as many as fit. */
  method FillLoop(buf: array<byte>, at: nat, room: nat, ds: seq<Desc>) returns (status: int, ghost k: nat)
    requires at + room <= buf.Length
    modifies buf
    ensures k <= |ds| && |Flat(ds[..k])| <= room
    ensures buf[..] == Patched(old(buf[..]), at, Flat(ds[..k]))
    ensures status == if |Flat(ds)| <= room then |Flat(ds)| else EINVAL
    ensures status >= 0 ==> k == |ds|
  {
    ghost var before := buf[..];
    var i := 0;
    var dest: nat := at;
    var left: nat := room;
    while i < |ds|
      invariant i <= |ds| && dest == at + |Flat(ds[..i])| && left == room - |Flat(ds[..i])|
      invariant buf[..] == Patched(before, at, Flat(ds[..i]))
    {
      FlatNext(ds, i);
      var len := ds[i][0];
      if len > left {
        return EINVAL, i;
      }
      FillNext(before, at, ds, i);
      Copy(buf, dest, ds[i]);
      left := left - len;
      dest := dest + len;
      i := i + 1;
    }
    assert ds[..i] == ds;
    return dest - at, i;
  }

  /** Overwriting part of a stretch leaves what is before and behind the stretch alone. */
  lemma PatchedInside(s: seq<byte>, at: nat, d: seq<byte>, end: nat)
    requires at + |d| <= end <= |s|
    ensures Patched(s, at, d)[..at] == s[..at] && Patched(s, at, d)[end..] == s[end..]
  {
  }

  // ---------------------------------------------------------------- the configuration descriptor

  /** What of a configuration goes into its descriptor.  `descriptors` are its own extra
      descriptors; `functions` those of each function at the speed asked for. */
  datatype Config = Config(nextInterfaceId: byte, value: byte, iConfiguration: byte, attributes: byte,
                           maxPower: nat, descriptors: Option<seq<Desc>>, functions: seq<Option<seq<Desc>>>)

  /** encode_bMaxPower */
  function MaxPower(superSpeed: bool, maxPower: nat): byte {
    var val := if maxPower != 0 then maxPower else VBUS_DRAW;
    (if superSpeed then (val + 7) / 8 else (val + 1) / 2) % 256
  }

  /** The attributes with the bit that must be set. */
  function Attributes(attributes: byte): byte {
    if attributes >= ATT_ONE then attributes else attributes + ATT_ONE
  }

  function Header(c: Config, superSpeed: bool, typ: byte, total: nat): (d: Desc)
    ensures |d| == DT_CONFIG_SIZE
  {
    [DT_CONFIG_SIZE, typ, total % 256, total / 256 % 256, c.nextInterfaceId, c.value, c.iConfiguration,
     Attributes(c.attributes), MaxPower(superSpeed, c.maxPower)]
  }

  /** wTotalLength of a configuration descriptor. */
  function TotalLength(d: Desc): nat
    requires |d| == DT_CONFIG_SIZE
  {
    d[2] as int + 256 * d[3] as int
  }

  /** The current a configuration asks for, in milliamperes. */
  function Current(c: Config): nat {
    if c.maxPower != 0 then c.maxPower else VBUS_DRAW
  }

  /** Milliamperes per unit of bMaxPower. */
  function PowerUnit(superSpeed: bool): nat {
    if superSpeed then 8 else 2
  }

  /** What a host reads in the header, by the offsets of table 9-10 of USB 2.0.  The current it
      grants is the smallest multiple of the unit that is enough, exactly if a byte can hold
      that; the attributes are those given, with the bit that must be set. */
  lemma HeaderTells(c: Config, superSpeed: bool, typ: byte, total: nat)
    ensures var h := Header(c, superSpeed, typ, total);
            && h[0] as int == |h| && h[1] == typ
            && (TotalLength(h) == total <==> total < 0x1_0000)
            && h[4] == c.nextInterfaceId && h[5] == c.value && h[6] == c.iConfiguration
            && h[7] >= ATT_ONE && h[7] % ATT_ONE == c.attributes % ATT_ONE
            && (PowerUnit(superSpeed) * (h[8] as int - 1) < Current(c) <= PowerUnit(superSpeed) * h[8] as int
                <==> Current(c) <= PowerUnit(superSpeed) * 255)
  {
    TwoBytes(total);
  }

  lemma TwoBytes(n: nat)
    ensures n % 256 + 256 * (n / 256 % 256) == n <==> n < 0x1_0000
  {
  }

  function Present(o: Option<seq<Desc>>): seq<Desc> {
    if o.Some? then o.value else []
  }

  /** Everything that follows the header. */
  function Body(c: Config): seq<Desc> {
    Present(c.descriptors) + OfFunctions(c.functions)
  }

  function OfFunctions(fs: seq<Option<seq<Desc>>>): seq<Desc> {
    if fs == [] then [] else OfFunctions(fs[..|fs| - 1]) + Present(fs[|fs| - 1])
  }

  lemma {:induction false} OfFunctionsPrefix(fs: seq<Option<seq<Desc>>>, i: nat)
    requires i <= |fs|
    ensures |Flat(OfFunctions(fs[..i]))| <= |Flat(OfFunctions(fs))|
    decreases |fs|
  {
    if i == |fs| {
      assert fs[..i] == fs;
    } else {
      var n := |fs| - 1;
      OfFunctionsPrefix(fs[..n], i);
      assert fs[..n][..i] == fs[..i];
      FlatConcat(OfFunctions(fs[..n]), Present(fs[n]));
    }
  }

  /** The header as config_buf first writes it: everything but wTotalLength. */
  method WriteHeader(buf: array<byte>, c: Config, superSpeed: bool, typ: byte)
    requires buf.Length >= DT_CONFIG_SIZE
    modifies buf
    ensures var h := Header(c, superSpeed, typ, 0);
            buf[..] == h[..2] + old(buf[2..4]) + h[4..] + old(buf[DT_CONFIG_SIZE..])
  {
    buf[0], buf[1] := DT_CONFIG_SIZE, typ;
    buf[4], buf[5], buf[6] := c.nextInterfaceId, c.value, c.iConfiguration;
    buf[7] := if c.attributes >= ATT_ONE then c.attributes else c.attributes + ATT_ONE;
    buf[8] := MaxPower(superSpeed, c.maxPower);
  }

  /** The body once one more function's descriptors are in. */
  lemma BodyNext(first: seq<Desc>, fs: seq<Option<seq<Desc>>>, i: nat)
    requires i < |fs|
    ensures Flat(first + OfFunctions(fs[..i + 1])) == Flat(first + OfFunctions(fs[..i])) + Flat(Present(fs[i]))
    ensures |Flat(first + OfFunctions(fs[..i + 1]))| <= |Flat(first + OfFunctions(fs))|
  {
    assert fs[..i + 1][..i] == fs[..i];
    assert first + OfFunctions(fs[..i + 1]) == (first + OfFunctions(fs[..i])) + Present(fs[i]);
    FlatConcat(first + OfFunctions(fs[..i]), Present(fs[i]));
    FlatConcat(first, OfFunctions(fs[..i + 1]));
    FlatConcat(first, OfFunctions(fs));
    OfFunctionsPrefix(fs, i + 1);
  }

  /** One group of descriptors behind what is already there; none if the group is absent. */
  method AppendGroup(buf: array<byte>, next: nat, group: Option<seq<Desc>>, ghost before: seq<byte>,
                     ghost done: seq<byte>) returns (status: int)
    requires buf.Length == BUFSIZ == |before| && next == DT_CONFIG_SIZE + |done| <= BUFSIZ
    requires buf[..] == Patched(before, DT_CONFIG_SIZE, done)
    modifies buf
    ensures var n := |Flat(Present(group))|;
            && status == (if next + n <= BUFSIZ then n else EINVAL)
            && (status >= 0 ==> buf[..] == Patched(before, DT_CONFIG_SIZE, done + Flat(Present(group))))
  {
    if group.None? {
      assert done + Flat([]) == done;
      return 0;
    }
    if next + |Flat(group.value)| <= BUFSIZ {
      PatchedTwice(before, DT_CONFIG_SIZE, done, Flat(group.value));
    }
    status := FillBuf(buf, next, BUFSIZ - next, group);
  }

  /** The descriptors behind the header.  Gives their length in bytes, or an error. */
  method WriteBody(buf: array<byte>, c: Config) returns (status: int)
    requires buf.Length == BUFSIZ
    modifies buf
    ensures var n := |Flat(Body(c))|;
            && status == (if DT_CONFIG_SIZE + n <= BUFSIZ then n else EINVAL)
            && (status >= 0 ==> buf[..] == Patched(old(buf[..]), DT_CONFIG_SIZE, Flat(Body(c))))
  {
    ghost var before := buf[..];
    ghost var first := Present(c.descriptors);
    FlatConcat(first, OfFunctions(c.functions));
    status := AppendGroup(buf, DT_CONFIG_SIZE, c.descriptors, before, []);
    if status < 0 {
      return;
    }
    assert [] + Flat(first) == Flat(first);
    status := AppendFunctions(buf, DT_CONFIG_SIZE + status, c.functions, before, first);
  }

  /** The functions' descriptors, one group after the other, behind the `first` ones. */
  method AppendFunctions(buf: array<byte>, start: nat, fs: seq<Option<seq<Desc>>>, ghost before: seq<byte>,
                         ghost first: seq<Desc>) returns (status: int)
    requires buf.Length == BUFSIZ == |before| && start == DT_CONFIG_SIZE + |Flat(first)| <= BUFSIZ
    requires buf[..] == Patched(before, DT_CONFIG_SIZE, Flat(first))
    modifies buf
    ensures var all := Flat(first + OfFunctions(fs));
            && status == (if DT_CONFIG_SIZE + |all| <= BUFSIZ then |all| else EINVAL)
            && (status >= 0 ==> buf[..] == Patched(before, DT_CONFIG_SIZE, all))
  {
    var next := start;
    ghost var done := Flat(first);
    assert first + OfFunctions(fs[..0]) == first;
    var i := 0;
    while i < |fs|
      invariant i <= |fs| && done == Flat(first + OfFunctions(fs[..i]))
      invariant next == DT_CONFIG_SIZE + |done| <= BUFSIZ
      invariant buf[..] == Patched(before, DT_CONFIG_SIZE, done)
    {
      BodyNext(first, fs, i);
      status := AppendGroup(buf, next, fs[i], before, done);
      if status < 0 {
        return;
      }
      next := next + status;
      done := done + Flat(Present(fs[i]));
      i := i + 1;
    }
    assert fs[..i] == fs;
    return next - DT_CONFIG_SIZE;
  }

  /** Header, body and total length together make up the bytes of the whole. */
  lemma Assembled(h: seq<byte>, old_: seq<byte>, body: seq<byte>, top: seq<byte>, lo: byte, hi: byte)
    requires |h| == DT_CONFIG_SIZE && |old_| == BUFSIZ && DT_CONFIG_SIZE + |body| <= BUFSIZ
    requires top == h[..2] + old_[2..4] + h[4..] + old_[DT_CONFIG_SIZE..]
    requires h[2] == lo && h[3] == hi
    ensures |top| == BUFSIZ
    ensures var len := DT_CONFIG_SIZE + |body|;
            var whole := Patched(top, DT_CONFIG_SIZE, body)[2 := lo][3 := hi];
            whole[..len] == h + body && whole[len..] == old_[len..]
  {
  }

  /** config_buf, for the configuration's own and its functions' descriptors: an error
      exactly when they do not fit the response buffer, which is never overrun, and
      otherwise bytes that parse to the header and then exactly the descriptors, with
      the header's total length the length written. */
  method ConfigBuf(buf: array<byte>, c: Config, superSpeed: bool, typ: byte) returns (len: int)
    requires buf.Length == BUFSIZ
    modifies buf
    ensures len == if DT_CONFIG_SIZE + |Flat(Body(c))| <= BUFSIZ then DT_CONFIG_SIZE + |Flat(Body(c))| else EINVAL
    ensures len >= 0 ==>
              && len <= BUFSIZ
              && Parse(buf[..len]) == Some([Header(c, superSpeed, typ, len)] + Body(c))
              && TotalLength(Header(c, superSpeed, typ, len)) == len
              && buf[len..] == old(buf[len..])
  {
    WriteHeader(buf, c, superSpeed, typ);
    ghost var top := buf[..];
    var status := WriteBody(buf, c);
    if status < 0 {
      return status;
    }
    len := DT_CONFIG_SIZE + status;
    buf[2] := len % 256;
    buf[3] := len / 256 % 256;
    ghost var h := Header(c, superSpeed, typ, len);
    ghost var h0 := Header(c, superSpeed, typ, 0);
    assert h[..2] == h0[..2] && h[4..] == h0[4..];
    Assembled(h, old(buf[..]), Flat(Body(c)), top, len % 256, len / 256 % 256);
    WholeParses(h, Body(c));
  }

  lemma WholeParses(h: Desc, ds: seq<Desc>)
    ensures Parse(h + Flat(ds)) == Some([h] + ds)
  {
    assert ([h] + ds)[1..] == ds;
    assert Flat([h] + ds) == h + Flat(ds);
    ParseFlat([h] + ds);
  }

  // ---------------------------------------------------------------- the simpler builder

  /** A given header with its fixed fields and its total length put in. */
  function Fixed(header: seq<byte>, total: nat): (d: Desc)
    requires |header| == DT_CONFIG_SIZE
    ensures |d| == DT_CONFIG_SIZE
  {
    [DT_CONFIG_SIZE, DT_CONFIG, total % 256, total / 256 % 256, header[4], header[5], header[6],
     Attributes(header[7]), header[8]]
  }

  method FixHeader(buf: array<byte>, total: nat)
    requires buf.Length >= DT_CONFIG_SIZE
    modifies buf
    ensures buf[..] == Fixed(old(buf[..DT_CONFIG_SIZE]), total) + old(buf[DT_CONFIG_SIZE..])
  {
    buf[0], buf[1] := DT_CONFIG_SIZE, DT_CONFIG;
    buf[2], buf[3] := total % 256, total / 256 % 256;
    if buf[7] < ATT_ONE {
      buf[7] := buf[7] + ATT_ONE;
    }
  }

  lemma PatchedBeyond(s: seq<byte>, at: nat, d: seq<byte>, k: nat)
    requires at + |d| <= k <= |s|
    ensures Patched(s, at, d)[k..] == s[k..]
  {
  }

  /** The caller's header, the descriptors behind it, and the header fixed in place. */
  lemma HeaderFixed(before: seq<byte>, header: seq<byte>, body: seq<byte>, length: nat, fixed: seq<byte>)
    requires |header| == DT_CONFIG_SIZE == |fixed| && DT_CONFIG_SIZE + |body| <= length <= |before|
    ensures var filled := Patched(Patched(before, 0, header), DT_CONFIG_SIZE, body);
            var whole := fixed + filled[DT_CONFIG_SIZE..];
            && filled[..DT_CONFIG_SIZE] == header
            && whole[..DT_CONFIG_SIZE + |body|] == fixed + body
            && whole[length..] == before[length..]
  {
  }

  /** usb_gadget_config_buf: as config_buf, for one vector of descriptors and a header and
      buffer length of the caller's, with room for a 16-bit total length at most. */
  method GadgetConfigBuf(header: seq<byte>, buf: array<byte>, length: nat, desc: Option<seq<Desc>>) returns (len: int)
    requires |header| == DT_CONFIG_SIZE && length <= buf.Length
    modifies buf
    ensures len == if && desc.Some?
                      && DT_CONFIG_SIZE + |Flat(desc.value)| <= length
                      && DT_CONFIG_SIZE + |Flat(desc.value)| <= 0xffff
                   then DT_CONFIG_SIZE + |Flat(desc.value)| else EINVAL
    ensures len >= 0 ==>
              && Parse(buf[..len]) == Some([Fixed(header, len)] + desc.value)
              && TotalLength(Fixed(header, len)) == len
    ensures buf[length..] == old(buf[length..])
  {
    if length < DT_CONFIG_SIZE || desc.None? {
      return EINVAL;
    }
    ghost var before := buf[..];
    Copy(buf, 0, header);
    PatchedBeyond(before, 0, header, length);
    len := FillBuf(buf, DT_CONFIG_SIZE, length - DT_CONFIG_SIZE, desc);
    if len < 0 {
      return;
    }
    len := len + DT_CONFIG_SIZE;
    if len > 0xffff {
      return EINVAL;
    }
    FixHeader(buf, len);
    HeaderFixed(before, header, Flat(desc.value), length, Fixed(header, len));
    WholeParses(Fixed(header, len), desc.value);
  }

  // ---------------------------------------------------------------- copying a vector of descriptors

  const PTR_SIZE: nat := 4
  const ADDRESSES: nat := 0x1_0000_0000

  /** The k-th descriptor among the bytes of all. */
  lemma FlatSlice(ds: seq<Desc>, k: nat)
    requires k < |ds|
    ensures |Flat(ds[..k])| + |ds[k]| <= |Flat(ds)|
    ensures Flat(ds)[|Flat(ds[..k])|..|Flat(ds[..k])| + |ds[k]|] == ds[k]
  {
    FlatNext(ds, k);
    assert ds == ds[..k + 1] + ds[k + 1..];
    FlatConcat(ds[..k + 1], ds[k + 1..]);
  }

  /** Bytes taken by the copies, as the driver adds them up first. */
  method CountBytes(src: seq<Desc>) returns (bytes: nat, n: nat)
    ensures bytes == |Flat(src)| && n == |src|
  {
    bytes, n := 0, 0;
    while n < |src|
      invariant n <= |src| && bytes == |Flat(src[..n])|
    {
      FlatNext(src, n);
      bytes := bytes + src[n][0];
      n := n + 1;
    }
    assert src[..n] == src;
  }

  ghost predicate IsCopy(mem: seq<byte>, at: nat, d: Desc) {
    at + |d| <= |mem| && mem[at..at + |d|] == d
  }

  lemma CopyInPlace(src: seq<Desc>, mem: seq<byte>, start: nat, k: nat)
    requires k < |src| && |mem| == start + |Flat(src)| && mem[start..] == Flat(src)
    ensures IsCopy(mem, start + |Flat(src[..k])|, src[k])
  {
    FlatSlice(src, k);
    SliceOfTail(mem, start, |Flat(src[..k])|, |src[k]|);
  }

  lemma SliceOfTail(s: seq<byte>, start: nat, at: nat, n: nat)
    requires start + at + n <= |s|
    ensures s[start + at..start + at + n] == s[start..][at..at + n]
  {
  }

  /** The bytes of a pointer, low byte first. */
  function PointerBytes(p: nat): (bytes: seq<byte>)
    ensures |bytes| == PTR_SIZE
  {
    [p % 256, p / 256 % 256, p / 256 / 256 % 256, p / 256 / 256 / 256 % 256]
  }

  function PointerOf(bytes: seq<byte>): nat
    requires |bytes| == PTR_SIZE
  {
    bytes[0] as int + 256 * (bytes[1] as int + 256 * (bytes[2] as int + 256 * bytes[3] as int))
  }

  lemma PointerRoundTrip(p: nat)
    requires p < ADDRESSES
    ensures PointerOf(PointerBytes(p)) == p
  {
  }

  /** The k-th pointer of a vector at the start of a block. */
  ghost predicate PointsAt(mem: seq<byte>, k: nat, p: nat) {
    PTR_SIZE * k + PTR_SIZE <= |mem| && mem[PTR_SIZE * k..PTR_SIZE * k + PTR_SIZE] == PointerBytes(p)
  }

  /** Writing elsewhere leaves a pointer alone. */
  lemma StillPointsAt(mem: seq<byte>, k: nat, p: nat, at: nat, d: seq<byte>)
    requires PointsAt(mem, k, p) && at + |d| <= |mem|
    requires PTR_SIZE * k + PTR_SIZE <= at || at + |d| <= PTR_SIZE * k
    ensures PointsAt(Patched(mem, at, d), k, p)
  {
    PatchedElsewhere(mem, at, d, PTR_SIZE * k, PTR_SIZE * k + PTR_SIZE);
  }

  lemma PatchedElsewhere(s: seq<byte>, at: nat, d: seq<byte>, x: nat, y: nat)
    requires at + |d| <= |s| && x <= y <= |s| && (y <= at || at + |d| <= x)
    ensures Patched(s, at, d)[x..y] == s[x..y]
  {
  }

  lemma PatchedThere(s: seq<byte>, at: nat, d: seq<byte>)
    requires at + |d| <= |s|
    ensures Patched(s, at, d)[at..at + |d|] == d
  {
  }

  /** The first i pointers lead to where the copies go. */
  ghost predicate Vector(mem: seq<byte>, base: nat, src: seq<Desc>, i: nat)
    requires i <= |src|
  {
    forall k :: 0 <= k < i ==> PointsAt(mem, k, base + Place(src, k))
  }

  /** Where the k-th copy goes: behind the vector and the copies before. */
  function Place(src: seq<Desc>, k: nat): nat
    requires k <= |src|
  {
    PTR_SIZE * (|src| + 1) + |Flat(src[..k])|
  }

  /** Where the copies end, in all and so far. */
  lemma PlaceNext(src: seq<Desc>, k: nat)
    requires k < |src|
    ensures Place(src, k + 1) == Place(src, k) + |src[k]| <= Place(src, |src|)
    ensures Place(src, |src|) == PTR_SIZE * (|src| + 1) + |Flat(src)|
  {
    FlatNext(src, k);
    assert src[..|src|] == src;
  }

  lemma VectorNext(mem: seq<byte>, base: nat, src: seq<Desc>, i: nat)
    requires i < |src| && Place(src, |src|) <= |mem| && Vector(mem, base, src, i)
    requires Place(src, i) + |src[i]| <= |mem|
    ensures Place(src, i + 1) <= |mem|
    ensures Vector(Patched(Patched(mem, Place(src, i), src[i]), PTR_SIZE * i, PointerBytes(base + Place(src, i))),
                   base, src, i + 1)
  {
    PlaceNext(src, i);
    var mem1 := Patched(mem, Place(src, i), src[i]);
    var bytes := PointerBytes(base + Place(src, i));
    PatchedThere(mem1, PTR_SIZE * i, bytes);
    forall k | 0 <= k < i
      ensures PointsAt(Patched(mem1, PTR_SIZE * i, bytes), k, base + Place(src, k))
    {
      StillPointsAt(mem, k, base + Place(src, k), Place(src, i), src[i]);
      StillPointsAt(mem1, k, base + Place(src, k), PTR_SIZE * i, bytes);
    }
  }

  lemma VectorEnds(mem: seq<byte>, base: nat, src: seq<Desc>)
    requires Place(src, |src|) <= |mem| && Vector(mem, base, src, |src|)
    ensures Vector(Patched(mem, PTR_SIZE * |src|, PointerBytes(0)), base, src, |src|)
    ensures PointsAt(Patched(mem, PTR_SIZE * |src|, PointerBytes(0)), |src|, 0)
  {
    PatchedThere(mem, PTR_SIZE * |src|, PointerBytes(0));
    forall k | 0 <= k < |src|
      ensures PointsAt(Patched(mem, PTR_SIZE * |src|, PointerBytes(0)), k, base + Place(src, k))
    {
      StillPointsAt(mem, k, base + Place(src, k), PTR_SIZE * |src|, PointerBytes(0));
    }
  }

  /** The first i descriptors, copied where they go. */
  ghost predicate Copied(mem: seq<byte>, src: seq<Desc>, i: nat)
    requires i <= |src|
  {
    Place(src, i) <= |mem| && mem[Place(src, 0)..Place(src, i)] == Flat(src[..i])
  }

  lemma CopiedNext(mem: seq<byte>, src: seq<Desc>, i: nat, bytes: seq<byte>)
    requires i < |src| && Place(src, |src|) <= |mem| && Copied(mem, src, i) && |bytes| == PTR_SIZE
    requires Place(src, i) + |src[i]| <= |mem|
    ensures Place(src, i + 1) <= |mem|
    ensures Copied(Patched(Patched(mem, Place(src, i), src[i]), PTR_SIZE * i, bytes), src, i + 1)
  {
    PlaceNext(src, i);
    FlatNext(src, i);
    var mem1 := Patched(mem, Place(src, i), src[i]);
    PatchedElsewhere(mem, Place(src, i), src[i], Place(src, 0), Place(src, i));
    PatchedThere(mem, Place(src, i), src[i]);
    PatchedElsewhere(mem1, PTR_SIZE * i, bytes, Place(src, 0), Place(src, i + 1));
    assert mem1[Place(src, 0)..Place(src, i + 1)]
        == mem1[Place(src, 0)..Place(src, i)] + mem1[Place(src, i)..Place(src, i + 1)];
  }

  lemma CopiedEnds(mem: seq<byte>, src: seq<Desc>, bytes: seq<byte>)
    requires |mem| == Place(src, |src|) && Copied(mem, src, |src|) && |bytes| == PTR_SIZE
    ensures forall k :: 0 <= k < |src| ==> IsCopy(Patched(mem, PTR_SIZE * |src|, bytes), Place(src, k), src[k])
  {
    var mem' := Patched(mem, PTR_SIZE * |src|, bytes);
    assert src[..|src|] == src && src[..0] == [];
    PatchedElsewhere(mem, PTR_SIZE * |src|, bytes, Place(src, 0), |mem|);
    assert mem'[Place(src, 0)..] == mem'[Place(src, 0)..|mem|];
    forall k | 0 <= k < |src|
      ensures IsCopy(mem', Place(src, k), src[k])
    {
      CopyInPlace(src, mem', Place(src, 0), k);
    }
  }

  method WritePointer(mem: array<byte>, at: nat, p: nat)
    requires at + PTR_SIZE <= mem.Length
    modifies mem
    ensures mem[..] == Patched(old(mem[..]), at, PointerBytes(p))
  {
    Copy(mem, at, PointerBytes(p));
  }

  /** One turn of the copying loop: the i-th descriptor, and the pointer to it. */
  method CopyOne(mem: array<byte>, base: nat, src: seq<Desc>, i: nat)
    requires i < |src| && mem.Length == Place(src, |src|)
    requires Vector(mem[..], base, src, i) && Copied(mem[..], src, i)
    modifies mem
    ensures Vector(mem[..], base, src, i + 1) && Copied(mem[..], src, i + 1)
  {
    PlaceNext(src, i);
    VectorNext(mem[..], base, src, i);
    CopiedNext(mem[..], src, i, PointerBytes(base + Place(src, i)));
    Copy(mem, Place(src, i), src[i]);
    WritePointer(mem, PTR_SIZE * i, base + Place(src, i));
  }

  /** usb_copy_descriptors: one block of memory at address `base`, the vector of pointers
      first and the copies behind it, up to its very end.  Each pointer leads to a copy of
      its descriptor, right behind the one before, and the last pointer is null. */
  method CopyDescriptors(src: seq<Desc>, base: nat) returns (mem: array<byte>)
    requires base + Place(src, |src|) <= ADDRESSES
    ensures fresh(mem) && mem.Length == PTR_SIZE * (|src| + 1) + |Flat(src)|
    ensures forall k :: 0 <= k < |src| ==> PointsAt(mem[..], k, base + Place(src, k))
    ensures forall k :: 0 <= k < |src| ==> IsCopy(mem[..], Place(src, k), src[k])
    ensures PointsAt(mem[..], |src|, 0)
  {
    var bytes, n := CountBytes(src);
    assert src[..n] == src;
    mem := new byte[bytes + PTR_SIZE * (n + 1)](_ => 0);
    var i := 0;
    while i < n
      invariant i <= n && Vector(mem[..], base, src, i) && Copied(mem[..], src, i)
    {
      CopyOne(mem, base, src, i);
      i := i + 1;
    }
    VectorEnds(mem[..], base, src);
    CopiedEnds(mem[..], src, PointerBytes(0));
    WritePointer(mem, PTR_SIZE * n, 0);
  }
}
