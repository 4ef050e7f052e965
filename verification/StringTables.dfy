/**
 String descriptors: drivers attach tables of strings in several languages and get ids
 for them; the host asks for a string by language and id.
 */
module StringTables {
  import opened Wrappers

  const MAX_ID: nat := 254

  /** One language's strings as a driver hands them in; some may be missing. */
  datatype Given = Given(language: nat, texts: seq<Option<string>>)

  /** The copy made of them: a missing string is empty. */
  datatype Source = Source(language: nat, texts: seq<string>)

  function Filled(text: Option<string>): string {
    if text.Some? then text.value else ""
  }

  /** Every language's array has the n entries that are copied. */
  predicate Long(given: seq<Given>, n: nat) {
    forall i :: 0 <= i < |given| ==> |given[i].texts| >= n
  }

  function Copies(given: seq<Given>, n: nat): (sources: seq<Source>)
    requires Long(given, n)
    ensures |sources| == |given|
    ensures forall i :: 0 <= i < |sources| ==>
              && sources[i].language == given[i].language && |sources[i].texts| == n
              && forall k :: 0 <= k < n ==> sources[i].texts[k] == Filled(given[i].texts[k])
  {
    seq(|given|, i requires 0 <= i < |given| =>
      Source(given[i].language, seq(n, k requires 0 <= k < n => Filled(given[i].texts[k]))))
  }

  datatype Str = Str(id: nat, text: string)

  datatype Table = Table(language: nat, strings: seq<Str>)

  /** The tables attached by one driver, one per language. */
  type Container = seq<Table>

  /** The texts of a source with ids first + 1, first + 2, ... */
  function Numbered(texts: seq<string>, first: nat): (strs: seq<Str>)
    ensures |strs| == |texts|
  {
    seq(|texts|, i requires 0 <= i < |texts| => Str(first + 1 + i, texts[i]))
  }

  /** What attaching these sources puts on the device's list. */
  function Tables(sources: seq<Source>, first: nat): Container {
    seq(|sources|, i requires 0 <= i < |sources| => Table(sources[i].language, Numbered(sources[i].texts, first)))
  }

  /** The string a table has under an id. */
  function InStrings(strs: seq<Str>, id: nat): Option<string> {
    if strs == [] then None
    else if strs[0].id == id then Some(strs[0].text)
    else InStrings(strs[1..], id)
  }

  function InContainer(c: Container, language: nat, id: nat): Option<string> {
    if c == [] then None
    else
      var here := if c[0].language == language then InStrings(c[0].strings, id) else None;
      if here.Some? then here else InContainer(c[1..], language, id)
  }

  function InAll(cs: seq<Container>, language: nat, id: nat): Option<string> {
    if cs == [] then None
    else
      var here := InContainer(cs[0], language, id);
      if here.Some? then here else InAll(cs[1..], language, id)
  }

  /** Ids of a container lie above `lo` and up to `hi`. */
  ghost predicate IdsWithin(c: Container, lo: nat, hi: nat) {
    forall i, n :: 0 <= i < |c| && 0 <= n < |c[i].strings| ==> lo < c[i].strings[n].id <= hi
  }

  lemma {:induction false} NotInStrings(strs: seq<Str>, id: nat)
    requires forall n :: 0 <= n < |strs| ==> strs[n].id != id
    ensures InStrings(strs, id) == None
  {
    if strs != [] {
      NotInStrings(strs[1..], id);
    }
  }

  lemma {:induction false} NotInContainer(c: Container, language: nat, id: nat, lo: nat, hi: nat)
    requires IdsWithin(c, lo, hi) && !(lo < id <= hi)
    ensures InContainer(c, language, id) == None
  {
    if c != [] {
      assert forall n :: 0 <= n < |c[0].strings| ==> lo < c[0].strings[n].id <= hi;
      NotInStrings(c[0].strings, id);
      NotInContainer(c[1..], language, id, lo, hi);
    }
  }

  lemma {:induction false} InNumbered(texts: seq<string>, first: nat, k: nat)
    requires k < |texts|
    ensures InStrings(Numbered(texts, first), first + 1 + k) == Some(texts[k])
  {
    var strs := Numbered(texts, first);
    if k > 0 {
      assert strs[1..] == Numbered(texts[1..], first + 1);
      InNumbered(texts[1..], first + 1, k - 1);
    }
  }

  /** Languages of different tables differ. */
  predicate DistinctLanguages(sources: seq<Source>) {
    forall i, j :: 0 <= i < j < |sources| ==> sources[i].language != sources[j].language
  }

  lemma {:induction false} InTables(sources: seq<Source>, first: nat, i: nat, k: nat)
    requires DistinctLanguages(sources) && i < |sources| && k < |sources[i].texts|
    ensures InContainer(Tables(sources, first), sources[i].language, first + 1 + k) == Some(sources[i].texts[k])
  {
    var c := Tables(sources, first);
    assert c[1..] == Tables(sources[1..], first);
    if i == 0 {
      InNumbered(sources[0].texts, first, k);
    } else {
      InTables(sources[1..], first, i - 1, k);
    }
  }

  // ---------------------------------------------------------------- the registry and its runs

  datatype Registry = Registry(nextId: nat, containers: seq<Container>)

  /** n strings in each language. */
  predicate Even(sources: seq<Source>, n: nat) {
    forall i :: 0 <= i < |sources| ==> |sources[i].texts| == n
  }

  /** Attaching fails, and changes nothing, without a table and when ids run out. */
  function Attach(r: Registry, sources: seq<Source>, n: nat): (Registry, bool) {
    if sources == [] || r.nextId + n > MAX_ID then (r, false)
    else (Registry(r.nextId + n, r.containers + [Tables(sources, r.nextId)]), true)
  }

  /** Attached containers use up ids in order, without overlap: container k those above
      bounds[k] and up to bounds[k + 1]. */
  ghost predicate Ordered(r: Registry, bounds: seq<nat>) {
    && |bounds| == |r.containers| + 1
    && bounds[|bounds| - 1] == r.nextId
    && (forall i, j :: 0 <= i <= j < |bounds| ==> bounds[i] <= bounds[j])
    && forall k :: 0 <= k < |r.containers| ==> IdsWithin(r.containers[k], bounds[k], bounds[k + 1])
  }

  lemma AttachKeeps(r: Registry, bounds: seq<nat>, sources: seq<Source>, n: nat) returns (bounds': seq<nat>)
    requires Ordered(r, bounds) && Even(sources, n)
    ensures Ordered(Attach(r, sources, n).0, bounds')
    ensures bounds <= bounds'
  {
    bounds' := if Attach(r, sources, n).1 then bounds + [r.nextId + n] else bounds;
  }

  lemma {:induction false} SkipContainers(cs: seq<Container>, bounds: seq<nat>, k: nat, language: nat, id: nat)
    requires |bounds| == |cs| + 1 && k <= |cs|
    requires forall i, j :: 0 <= i <= j < |bounds| ==> bounds[i] <= bounds[j]
    requires forall i :: 0 <= i < |cs| ==> IdsWithin(cs[i], bounds[i], bounds[i + 1])
    requires bounds[k] < id
    ensures InAll(cs, language, id) == InAll(cs[k..], language, id)
    decreases k
  {
    if k > 0 {
      NotInContainer(cs[0], language, id, bounds[0], bounds[1]);
      SkipContainers(cs[1..], bounds[1..], k - 1, language, id);
      assert cs[1..][k - 1..] == cs[k..];
    }
  }

  /** A string attached is a string found, under its own id, in its own language,
      whatever was attached before and is attached later. */
  lemma AttachedIsFound(r: Registry, bounds: seq<nat>, k: nat, sources: seq<Source>, first: nat, i: nat, s: nat)
    requires Ordered(r, bounds) && k < |r.containers|
    requires r.containers[k] == Tables(sources, first) && bounds[k] == first
    requires DistinctLanguages(sources) && i < |sources| && s < |sources[i].texts|
    ensures InAll(r.containers, sources[i].language, first + 1 + s) == Some(sources[i].texts[s])
  {
    SkipContainers(r.containers, bounds, k, sources[i].language, first + 1 + s);
    InTables(sources, first, i, s);
  }

  /** A later attach call. */
  datatype Call = Call(given: seq<Given>, n: nat)

  predicate AllLong(calls: seq<Call>) {
    forall i :: 0 <= i < |calls| ==> Long(calls[i].given, calls[i].n)
  }

  function AttachAll(r: Registry, calls: seq<Call>): Registry
    requires AllLong(calls)
    decreases |calls|
  {
    if calls == [] then r
    else AttachAll(Attach(r, Copies(calls[0].given, calls[0].n), calls[0].n).0, calls[1..])
  }

  lemma {:induction false} LaterCallsKeep(r: Registry, bounds: seq<nat>, calls: seq<Call>) returns (bounds': seq<nat>)
    requires Ordered(r, bounds) && AllLong(calls)
    ensures Ordered(AttachAll(r, calls), bounds') && bounds <= bounds'
    ensures r.containers <= AttachAll(r, calls).containers
    decreases |calls|
  {
    if calls == [] {
      bounds' := bounds;
    } else {
      var sources := Copies(calls[0].given, calls[0].n);
      var mid := AttachKeeps(r, bounds, sources, calls[0].n);
      bounds' := LaterCallsKeep(Attach(r, sources, calls[0].n).0, mid, calls[1..]);
    }
  }

  /** Attach and look up, any number of other tables being attached before and after:
      every string comes back under the id counted from the one its table was given. */
  lemma AttachThenLookup(r: Registry, bounds: seq<nat>, given: seq<Given>, n: nat, later: seq<Call>, i: nat, s: nat)
    requires Ordered(r, bounds) && Long(given, n) && AllLong(later)
    requires forall j, k :: 0 <= j < k < |given| ==> given[j].language != given[k].language
    requires Attach(r, Copies(given, n), n).1 && i < |given| && s < n
    ensures InAll(AttachAll(Attach(r, Copies(given, n), n).0, later).containers, given[i].language, r.nextId + 1 + s)
         == Some(Filled(given[i].texts[s]))
  {
    var sources := Copies(given, n);
    var r1 := Attach(r, sources, n).0;
    var mid := AttachKeeps(r, bounds, sources, n);
    var end := LaterCallsKeep(r1, mid, later);
    var k := |r.containers|;
    var last := AttachAll(r1, later);
    assert last.containers[k] == r1.containers[k] == Tables(sources, r.nextId);
    assert end[k] == mid[k] == bounds[k] == r.nextId;
    AttachedIsFound(last, end, k, sources, r.nextId, i, s);
  }

  // ---------------------------------------------------------------- in place

  class StringRegistry {
    var nextStringId: nat
    var gstrings: seq<Container>

    ghost function Abs(): Registry
      reads this
    {
      Registry(nextStringId, gstrings)
    }

    constructor ()
      ensures Abs() == Registry(0, []) && Ordered(Abs(), [0])
    {
      nextStringId, gstrings := 0, [];
    }

    /** usb_string_ids_tab: number the strings of a table, or fail half way. */
    method NumberTable(texts: seq<string>) returns (ok: bool, strs: seq<Str>)
      requires nextStringId <= MAX_ID
      modifies this`nextStringId
      ensures ok <==> old(nextStringId) + |texts| <= MAX_ID
      ensures ok ==> strs == Numbered(texts, old(nextStringId)) && nextStringId == old(nextStringId) + |texts|
      ensures !ok ==> nextStringId == old(nextStringId)
    {
      var next := nextStringId;
      strs := [];
      var i := 0;
      while i < |texts|
        invariant i <= |texts| && nextStringId == old(nextStringId) && next == nextStringId + i
        invariant strs == Numbered(texts[..i], nextStringId)
        invariant next <= MAX_ID
      {
        if next >= MAX_ID {
          return false, strs;
        }
        next := next + 1;
        strs := strs + [Str(next, texts[i])];
        i := i + 1;
      }
      assert texts[..i] == texts;
      nextStringId := next;
      return true, strs;
    }

    /** copy_gadget_strings: the first n strings of each language. */
    method CopyStrings(given: seq<Given>, n: nat) returns (sources: seq<Source>)
      requires Long(given, n)
      ensures sources == Copies(given, n)
    {
      sources := [];
      var i := 0;
      while i < |given|
        invariant i <= |given| && sources == Copies(given, n)[..i]
      {
        var texts := [];
        var m := 0;
        while m < n
          invariant m <= n && texts == Copies(given, n)[i].texts[..m]
        {
          texts := texts + [if given[i].texts[m].Some? then given[i].texts[m].value else ""];
          m := m + 1;
        }
        assert Source(given[i].language, texts) == Copies(given, n)[i];
        sources := sources + [Source(given[i].language, texts)];
        i := i + 1;
      }
    }

    /** usb_gstrings_attach, for tables of n strings each. */
    method AttachStrings(given: seq<Given>, n: nat) returns (ok: bool)
      requires Long(given, n) && nextStringId <= MAX_ID
      modifies this
      ensures (Abs(), ok) == Attach(old(Abs()), Copies(given, n), n)
      ensures nextStringId <= MAX_ID
    {
      if given == [] {
        return false;
      }
      var sources := CopyStrings(given, n);
      ghost var first := nextStringId;
      var master;
      ok, master := NumberTable(sources[0].texts);
      if !ok {
        return;
      }
      var tables: Container := [Table(sources[0].language, master)];
      var i := 1;
      while i < |sources|
        invariant 1 <= i <= |sources| && nextStringId == first + n && gstrings == old(gstrings)
        invariant tables == Tables(sources[..i], first)
      {
        var strs: seq<Str> := [];
        var m := 0;
        while m < n
          invariant m <= n && nextStringId == first + n && gstrings == old(gstrings)
          invariant strs == Numbered(sources[i].texts[..m], first)
        {
          strs := strs + [Str(master[m].id, sources[i].texts[m])];
          m := m + 1;
        }
        assert sources[i].texts[..n] == sources[i].texts;
        tables := tables + [Table(sources[i].language, strs)];
        i := i + 1;
      }
      assert sources[..i] == sources;
      gstrings := gstrings + [tables];
    }

    /** usb_gadget_get_string, up to encoding the text. */
    method FindString(strs: seq<Str>, id: nat) returns (r: Option<string>)
      ensures r == InStrings(strs, id)
    {
      var i := 0;
      while i < |strs| && strs[i].id != id
        invariant i <= |strs| && InStrings(strs[i..], id) == InStrings(strs, id)
      {
        assert strs[i..][1..] == strs[i + 1..];
        i := i + 1;
      }
      return if i < |strs| then Some(strs[i].text) else None;
    }

    /** lookup_string */
    method LookupString(c: Container, language: nat, id: nat) returns (r: Option<string>)
      ensures r == InContainer(c, language, id)
    {
      var i := 0;
      while i < |c|
        invariant i <= |c| && InContainer(c[i..], language, id) == InContainer(c, language, id)
      {
        assert c[i..][1..] == c[i + 1..];
        if c[i].language == language {
          r := FindString(c[i].strings, id);
          if r.Some? {
            return;
          }
        }
        i := i + 1;
      }
      return None;
    }

    /** get_string, for a non-zero id, among attached tables. */
    method GetString(language: nat, id: nat) returns (r: Option<string>)
      ensures r == InAll(gstrings, language, id)
    {
      var i := 0;
      while i < |gstrings|
        invariant i <= |gstrings| && InAll(gstrings[i..], language, id) == InAll(gstrings, language, id)
      {
        assert gstrings[i..][1..] == gstrings[i + 1..];
        r := LookupString(gstrings[i], language, id);
        if r.Some? {
          return;
        }
        i := i + 1;
      }
      return None;
    }
  }
}
