/**
 The intrusive circular doubly linked list.  A list is a ring of nodes through its head;
 its value is the sequence of the other nodes, following `next`.  Each operation does a
 constant number of pointer writes and acts on that sequence.
 */
module LinkedLists {

  class ListHead {
    var next: ListHead
    var prev: ListHead

    constructor ()
      ensures Ring(this, [])
    {
      next, prev := this, this;
    }

    /** INIT_LIST_HEAD. */
    method Init()
      modifies this
      ensures Ring(this, [])
    {
      next := this;
      prev := this;
    }
  }

  ghost predicate Distinct(s: seq<ListHead>) {
    forall i, j :: 0 <= i < j < |s| ==> s[i] != s[j]
  }

  /** From a to b by way of s, neighbours pointing at each other. */
  ghost predicate Path(a: ListHead, s: seq<ListHead>, b: ListHead)
    reads a, b, s
  {
    && (s == [] ==> a.next == b && b.prev == a)
    && (s != [] ==> a.next == s[0] && s[0].prev == a && s[|s| - 1].next == b && b.prev == s[|s| - 1])
    && (forall i {:trigger s[i].next} :: 0 <= i < |s| - 1 ==> s[i].next == s[i + 1])
    && (forall i {:trigger s[i].prev} :: 0 < i < |s| ==> s[i].prev == s[i - 1])
  }

  /** The ring through `head` visits the nodes of s, each once, and comes back. */
  ghost predicate Ring(head: ListHead, s: seq<ListHead>)
    reads head, s
  {
    head !in s && Distinct(s) && Path(head, s, head)
  }

  /** Two lists share no node. */
  ghost predicate Apart(h1: ListHead, s1: seq<ListHead>, h2: ListHead, s2: seq<ListHead>) {
    h1 != h2 && h1 !in s2 && h2 !in s1 && forall i, j :: 0 <= i < |s1| && 0 <= j < |s2| ==> s1[i] != s2[j]
  }

  lemma {:induction false} SamePrefix(head: ListHead, s: seq<ListHead>, t: seq<ListHead>, n: nat)
    requires Ring(head, s) && Ring(head, t) && n <= |s| <= |t|
    ensures s[..n] == t[..n]
    ensures n < |t| ==> (if n == 0 then head else s[n - 1]).next == t[n]
  {
    if n > 0 {
      SamePrefix(head, s, t, n - 1);
      if n > 1 {
        assert s[n - 2] == s[..n - 1][n - 2] == t[..n - 1][n - 2] == t[n - 2];
        assert s[n - 2].next == s[n - 1];
      }
      assert s[n - 1] == t[n - 1];
    }
  }

  /** A ring determines its sequence: there is only one way round. */
  lemma RingUnique(head: ListHead, s: seq<ListHead>, t: seq<ListHead>)
    requires Ring(head, s) && Ring(head, t)
    ensures s == t
  {
    if |s| <= |t| {
      SamePrefix(head, s, t, |s|);
    } else {
      SamePrefix(head, t, s, |t|);
    }
  }

  // ---------------------------------------------------------------- adding

  /** __list_add between positions k - 1 and k. */
  method AddBetween(node: ListHead, prev: ListHead, next: ListHead,
                    ghost head: ListHead, ghost s: seq<ListHead>, ghost k: nat)
    requires Ring(head, s) && node != head && node !in s && k <= |s|
    requires prev == (if k == 0 then head else s[k - 1])
    requires next == (if k == |s| then head else s[k])
    modifies node, prev`next, next`prev
    ensures Ring(head, s[..k] + [node] + s[k..])
  {
    next.prev := node;
    node.next := next;
    node.prev := prev;
    prev.next := node;
  }

  method Add(node: ListHead, head: ListHead, ghost s: seq<ListHead>)
    requires Ring(head, s) && node != head && node !in s
    modifies node, head, s
    ensures Ring(head, [node] + s)
  {
    AddBetween(node, head, head.next, head, s, 0);
    assert s[..0] + [node] + s[0..] == [node] + s;
  }

  method AddTail(node: ListHead, head: ListHead, ghost s: seq<ListHead>)
    requires Ring(head, s) && node != head && node !in s
    modifies node, head, s
    ensures Ring(head, s + [node])
  {
    AddBetween(node, head.prev, head, head, s, |s|);
    assert s[..|s|] + [node] + s[|s|..] == s + [node];
  }

  // ---------------------------------------------------------------- deleting

  /** list_del: the entry keeps its own pointers. */
  method Del(entry: ListHead, ghost head: ListHead, ghost s: seq<ListHead>, ghost k: nat)
    requires Ring(head, s) && k < |s| && s[k] == entry
    modifies entry.prev`next, entry.next`prev
    ensures Ring(head, s[..k] + s[k + 1..])
    ensures entry.next == old(entry.next) && entry.prev == old(entry.prev)
  {
    var prev, next := entry.prev, entry.next;
    next.prev := prev;
    prev.next := next;
  }

  method DelInit(entry: ListHead, ghost head: ListHead, ghost s: seq<ListHead>, ghost k: nat)
    requires Ring(head, s) && k < |s| && s[k] == entry
    modifies head, s
    ensures Ring(head, s[..k] + s[k + 1..]) && Ring(entry, [])
  {
    Del(entry, head, s, k);
    entry.Init();
  }

  // ---------------------------------------------------------------- asking

  function IsLast(entry: ListHead, head: ListHead): bool
    reads entry
  {
    entry.next == head
  }

  function IsEmpty(head: ListHead): bool
    reads head
  {
    head.next == head
  }

  function IsSingular(head: ListHead): bool
    reads head
  {
    !IsEmpty(head) && head.next == head.prev
  }

  /** What the three tests tell about the sequence. */
  lemma TestsTell(head: ListHead, s: seq<ListHead>)
    requires Ring(head, s)
    ensures IsEmpty(head) <==> s == []
    ensures IsSingular(head) <==> |s| == 1
    ensures forall k :: 0 <= k < |s| ==> (IsLast(s[k], head) <==> k == |s| - 1)
  {
    forall k | 0 <= k < |s|
      ensures IsLast(s[k], head) <==> k == |s| - 1
    {
      if k < |s| - 1 {
        assert s[k].next == s[k + 1];
      }
    }
  }

  // ---------------------------------------------------------------- moving

  /** The neighbours of an entry belong to its own list. */
  lemma Neighbours(from: ListHead, s: seq<ListHead>, k: nat, head: ListHead, t: seq<ListHead>)
    requires Ring(from, s) && Apart(from, s, head, t) && k < |s|
    ensures s[k].prev == (if k == 0 then from else s[k - 1])
    ensures s[k].next == (if k == |s| - 1 then from else s[k + 1])
    ensures s[k].prev != head && s[k].prev !in t && s[k].next != head && s[k].next !in t
  {
  }

  lemma TakenApart(from: ListHead, s: seq<ListHead>, k: nat, head: ListHead, t: seq<ListHead>)
    requires from !in s && Distinct(s) && Apart(from, s, head, t) && k < |s|
    ensures var rest := s[..k] + s[k + 1..];
            && s[k] !in rest && s[k] != from
            && Apart(from, rest, head, t + [s[k]]) && Apart(from, rest, head, [s[k]] + t)
  {
    var rest := s[..k] + s[k + 1..];
    assert forall i :: 0 <= i < |rest| ==> rest[i] == s[if i < k then i else i + 1];
  }

  /** The entries left. */
  lemma WithoutEntry(s: seq<ListHead>, k: nat)
    requires Distinct(s) && k < |s|
    ensures var rest := s[..k] + s[k + 1..];
            s[k] !in rest && forall e :: e in rest ==> e in s
  {
  }

  /** list_move_tail, from one list to another or within one. */
  method MoveTail(entry: ListHead, head: ListHead,
                  ghost from: ListHead, ghost s: seq<ListHead>, ghost k: nat, ghost t: seq<ListHead>)
    requires Ring(from, s) && Ring(head, t) && k < |s| && s[k] == entry
    requires (from == head && s == t) || Apart(from, s, head, t)
    modifies from, s, head, t
    ensures var rest := s[..k] + s[k + 1..];
            if from == head then Ring(head, rest + [entry])
            else Ring(from, rest) && Ring(head, t + [entry]) && Apart(from, rest, head, t + [entry])
  {
    ghost var rest := s[..k] + s[k + 1..];
    WithoutEntry(s, k);
    if from != head {
      Neighbours(from, s, k, head, t);
      TakenApart(from, s, k, head, t);
    }
    Del(entry, from, s, k);
    ghost var there := if from == head then rest else t;
    assert Ring(head, there) && entry !in there;
    AddTail(entry, head, there);
  }

  /** list_move, from one list to another or within one. */
  method Move(entry: ListHead, head: ListHead,
              ghost from: ListHead, ghost s: seq<ListHead>, ghost k: nat, ghost t: seq<ListHead>)
    requires Ring(from, s) && Ring(head, t) && k < |s| && s[k] == entry
    requires (from == head && s == t) || Apart(from, s, head, t)
    modifies from, s, head, t
    ensures var rest := s[..k] + s[k + 1..];
            if from == head then Ring(head, [entry] + rest)
            else Ring(from, rest) && Ring(head, [entry] + t) && Apart(from, rest, head, [entry] + t)
  {
    ghost var rest := s[..k] + s[k + 1..];
    WithoutEntry(s, k);
    if from != head {
      Neighbours(from, s, k, head, t);
      TakenApart(from, s, k, head, t);
    }
    Del(entry, from, s, k);
    ghost var there := if from == head then rest else t;
    assert Ring(head, there) && entry !in there;
    Add(entry, head, there);
  }

  method RotateLeft(head: ListHead, ghost s: seq<ListHead>)
    requires Ring(head, s)
    modifies head, s
    ensures Ring(head, if s == [] then [] else s[1..] + [s[0]])
  {
    if !IsEmpty(head) {
      var first := head.next;
      Del(first, head, s, 0);
      assert s[..0] + s[1..] == s[1..];
      AddTail(first, head, s[1..]);
    }
  }

  method Replace(old_: ListHead, new_: ListHead, ghost head: ListHead, ghost s: seq<ListHead>, ghost k: nat)
    requires Ring(head, s) && k < |s| && s[k] == old_ && new_ != head && new_ !in s
    modifies new_, old_.next`prev, old_.prev`next
    ensures Ring(head, s[k := new_])
  {
    new_.next := old_.next;
    new_.next.prev := new_;
    new_.prev := old_.prev;
    new_.prev.next := new_;
  }

  // ---------------------------------------------------------------- joining and cutting

  /** __list_splice between the head of a list and its first or after its last entry. */
  method SpliceBetween(list: ListHead, prev: ListHead, next: ListHead, ghost s: seq<ListHead>,
                       ghost head: ListHead, ghost t: seq<ListHead>, ghost k: nat)
    requires Ring(list, s) && s != [] && Ring(head, t) && Apart(list, s, head, t) && k <= |t|
    requires prev == (if k == 0 then head else t[k - 1])
    requires next == (if k == |t| then head else t[k])
    modifies list.next`prev, list.prev`next, prev`next, next`prev
    ensures Ring(head, t[..k] + s + t[k..])
    ensures list.next == s[0] && list.prev == s[|s| - 1]
  {
    var first, last := list.next, list.prev;
    first.prev := prev;
    prev.next := first;
    last.next := next;
    next.prev := last;
    ghost var r := t[..k] + s + t[k..];
    Inserted(head, t, k, list, s);
    forall i | 0 <= i < |r| - 1
      ensures r[i].next == r[i + 1] && r[i + 1].prev == r[i]
    {
      if i + 1 < k {
        assert t[i].next == t[i + 1] && t[i + 1].prev == t[i];
      } else if k <= i < k + |s| - 1 {
        assert s[i - k].next == s[i - k + 1] && s[i - k + 1].prev == s[i - k];
      } else if k + |s| <= i {
        assert t[i - |s|].next == t[i - |s| + 1] && t[i - |s| + 1].prev == t[i - |s|];
      }
    }
  }

  /** Where the entries are after one list went into another at position k. */
  lemma Inserted(head: ListHead, t: seq<ListHead>, k: nat, list: ListHead, s: seq<ListHead>)
    requires head !in t && Distinct(t) && Distinct(s) && Apart(list, s, head, t) && k <= |t|
    ensures var r := t[..k] + s + t[k..];
            && head !in r && Distinct(r)
            && (forall i :: 0 <= i < |r| ==>
                  r[i] == if i < k then t[i] else if i < k + |s| then s[i - k] else t[i - |s|])
  {
  }

  /** list_splice: the entries of `list` go to the front of `head`'s.  The spliced head
      is left as it is, pointing into the other list. */
  method Splice(list: ListHead, head: ListHead, ghost s: seq<ListHead>, ghost t: seq<ListHead>)
    requires Ring(list, s) && Ring(head, t) && Apart(list, s, head, t)
    modifies head, s, t
    ensures Ring(head, s + t)
  {
    if !IsEmpty(list) {
      SpliceBetween(list, head, head.next, s, head, t, 0);
      assert t[..0] + s + t[0..] == s + t;
    } else {
      assert s + t == t;
    }
  }

  method SpliceTail(list: ListHead, head: ListHead, ghost s: seq<ListHead>, ghost t: seq<ListHead>)
    requires Ring(list, s) && Ring(head, t) && Apart(list, s, head, t)
    modifies head, s, t
    ensures Ring(head, t + s)
  {
    if !IsEmpty(list) {
      SpliceBetween(list, head.prev, head, s, head, t, |t|);
      assert t[..|t|] + s + t[|t|..] == t + s;
    } else {
      assert t + s == t;
    }
  }

  method SpliceInit(list: ListHead, head: ListHead, ghost s: seq<ListHead>, ghost t: seq<ListHead>)
    requires Ring(list, s) && Ring(head, t) && Apart(list, s, head, t)
    modifies list, head, s, t
    ensures Ring(head, s + t) && Ring(list, []) && Apart(list, [], head, s + t)
  {
    if !IsEmpty(list) {
      Splice(list, head, s, t);
      list.Init();
    } else {
      assert s + t == t;
    }
  }

  method SpliceTailInit(list: ListHead, head: ListHead, ghost s: seq<ListHead>, ghost t: seq<ListHead>)
    requires Ring(list, s) && Ring(head, t) && Apart(list, s, head, t)
    modifies list, head, s, t
    ensures Ring(head, t + s) && Ring(list, []) && Apart(list, [], head, t + s)
  {
    if !IsEmpty(list) {
      SpliceTail(list, head, s, t);
      list.Init();
    } else {
      assert t + s == t;
    }
  }

  /** __list_cut_position: the first k entries go to `list`. */
  method CutAt(list: ListHead, head: ListHead, entry: ListHead, ghost s: seq<ListHead>, ghost k: nat)
    requires Ring(head, s) && 0 < k <= |s| && s[k - 1] == entry && list != head && list !in s
    modifies list, head, s
    ensures Ring(list, s[..k]) && Ring(head, s[k..]) && Apart(list, s[..k], head, s[k..])
  {
    var newFirst := entry.next;
    list.next := head.next;
    list.next.prev := list;
    list.prev := entry;
    entry.next := list;
    head.next := newFirst;
    newFirst.prev := head;
  }

  /** list_cut_position: the entries up to and including `entry`, none if it is the head,
      move to `list`, whatever that held. */
  method CutPosition(list: ListHead, head: ListHead, entry: ListHead, ghost s: seq<ListHead>, ghost k: nat)
    requires Ring(head, s) && k <= |s| && entry == (if k == 0 then head else s[k - 1])
    requires list != head && list !in s
    modifies list, head, s
    ensures s != [] ==> Ring(list, s[..k]) && Apart(list, s[..k], head, s[k..])
    ensures Ring(head, s[k..])
    ensures s == [] ==> list.next == old(list.next) && list.prev == old(list.prev)
  {
    TestsTell(head, s);
    if IsEmpty(head) {
      return;
    }
    if IsSingular(head) && head.next != entry && head != entry {
      return;
    }
    if entry == head {
      list.Init();
      assert s[..0] == [] && s[0..] == s;
    } else {
      CutAt(list, head, entry, s, k);
    }
  }

  // ---------------------------------------------------------------- safe iteration

  /** The entries a loop body keeps. */
  function Kept(s: seq<ListHead>, removes: set<ListHead>): seq<ListHead> {
    if s == [] then []
    else (if s[0] in removes then [] else [s[0]]) + Kept(s[1..], removes)
  }

  lemma {:induction false} KeptAppend(s: seq<ListHead>, x: ListHead, removes: set<ListHead>)
    ensures Kept(s + [x], removes) == Kept(s, removes) + (if x in removes then [] else [x])
  {
    if s == [] {
      assert s + [x] == [x] && [x][1..] == [];
    } else {
      KeptAppend(s[1..], x, removes);
      assert (s + [x])[1..] == s[1..] + [x];
    }
  }

  lemma {:induction false} KeptLast(s: seq<ListHead>, removes: set<ListHead>)
    ensures Kept(s, removes) != [] ==> Kept(s, removes)[|Kept(s, removes)| - 1] in s
  {
    if s != [] {
      KeptLast(s[1..], removes);
    }
  }

  /** The list after k turns of the loop below. */
  function Turned(s: seq<ListHead>, removes: set<ListHead>, k: nat): seq<ListHead>
    requires k <= |s|
  {
    Kept(s[..k], removes) + s[k..]
  }

  lemma TurnedEnds(s: seq<ListHead>, removes: set<ListHead>)
    ensures Turned(s, removes, 0) == s
    ensures Turned(s, removes, |s|) == Kept(s, removes)
    ensures s[..|s|] == s
  {
    assert s[..|s|] == s && s[|s|..] == [] && s[0..] == s;
  }

  /** The entry after the one to be visited next. */
  lemma NextAtTurn(head: ListHead, s: seq<ListHead>, removes: set<ListHead>, k: nat)
    requires k < |s| && Ring(head, Turned(s, removes, k))
    ensures s[k].next == (if k + 1 < |s| then s[k + 1] else head)
    ensures s[..k] + [s[k]] == s[..k + 1]
  {
    var done, ring := Kept(s[..k], removes), Turned(s, removes, k);
    assert ring[|done|] == s[k];
    if k + 1 < |s| {
      assert ring[|done|].next == ring[|done| + 1] == s[k + 1];
    }
  }

  /** The entry before the one to be visited next. */
  lemma PrevAtTurn(head: ListHead, s: seq<ListHead>, removes: set<ListHead>, k: nat)
    requires k < |s| && Ring(head, Turned(s, removes, k))
    ensures s[k].prev == head || s[k].prev in s
  {
    var done, ring := Kept(s[..k], removes), Turned(s, removes, k);
    KeptLast(s[..k], removes);
    assert ring[|done|] == s[k];
    if done != [] {
      assert ring[|done|].prev == ring[|done| - 1] == done[|done| - 1];
    }
  }

  /** The list with the entry to be visited next, and without it. */
  lemma AtTurn(s: seq<ListHead>, removes: set<ListHead>, k: nat)
    requires k < |s|
    ensures var done, ring := Kept(s[..k], removes), Turned(s, removes, k);
            && ring[|done|] == s[k]
            && Turned(s, removes, k + 1) == if s[k] in removes then ring[..|done|] + ring[|done| + 1..] else ring
  {
    var done, ring := Kept(s[..k], removes), Turned(s, removes, k);
    assert s[..k + 1] == s[..k] + [s[k]];
    KeptAppend(s[..k], s[k], removes);
    Cut(done, s[k..]);
    assert s[k..] == [s[k]] + s[k + 1..];
    assert done + s[k..] == (done + [s[k]]) + s[k + 1..];
  }

  lemma Cut(done: seq<ListHead>, rest: seq<ListHead>)
    requires rest != []
    ensures (done + rest)[|done|] == rest[0]
    ensures (done + rest)[..|done|] == done && (done + rest)[|done| + 1..] == rest[1..]
  {
  }

  /** The body of the loop below: the current entry is deleted or not. */
  method Visit(pos: ListHead, head: ListHead, removes: set<ListHead>, ghost s: seq<ListHead>, ghost k: nat)
    requires k < |s| && pos == s[k] && Ring(head, Turned(s, removes, k))
    modifies head, s
    ensures Ring(head, Turned(s, removes, k + 1))
  {
    NextAtTurn(head, s, removes, k);
    PrevAtTurn(head, s, removes, k);
    AtTurn(s, removes, k);
    if pos in removes {
      Del(pos, head, Turned(s, removes, k), |Kept(s[..k], removes)|);
    }
  }

  /** list_for_each_safe with a body that deletes the current entry or not: every entry
      there was is visited once, in order, and those not deleted remain, in order. */
  method ForEachSafe(head: ListHead, removes: set<ListHead>, ghost s: seq<ListHead>) returns (visited: seq<ListHead>)
    requires Ring(head, s)
    modifies head, s
    ensures visited == s
    ensures Ring(head, Kept(s, removes))
  {
    visited := [];
    var pos := head.next;
    var n := pos.next;
    ghost var k := 0;
    TurnedEnds(s, removes);
    while pos != head
      invariant k <= |s| && visited == s[..k]
      invariant Ring(head, Turned(s, removes, k))
      invariant pos == (if k == |s| then head else s[k]) && n == pos.next
      decreases |s| - k
    {
      NextAtTurn(head, s, removes, k);
      visited := visited + [pos];
      Visit(pos, head, removes, s, k);
      k := k + 1;
      pos := n;
      n := n.next;
    }
  }
}
