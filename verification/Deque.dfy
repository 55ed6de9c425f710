/** The intrusive doubly linked list of connections (src/Deque.h) as a sequence. */
module Deques {

  /** A client connection: its links, when it was last active, whether it has no requests, and whether it stands in
      the list of posted events. */
  class Client {
    var prev: Client?
    var next: Client?
    var lastActive: int
    var empty: bool
    var posted: bool

    constructor (now: int)
      ensures Loose() && lastActive == now && empty && !posted
    {
      prev, next, lastActive, empty, posted := null, null, now, true, false;
    }

    ghost predicate Loose()
      reads `prev, `next
    {
      prev == null && next == null
    }
  }

  ghost function Without(s: seq<Client>, x: Client): (r: seq<Client>)
    ensures x !in s ==> r == s
  {
    if s == [] then [] else if s[0] == x then s[1..] else [s[0]] + Without(s[1..], x)
  }

  /** The sequence without the element at `at`. */
  function Cut(s: seq<Client>, at: nat): (r: seq<Client>)
    requires at < |s|
    ensures |r| == |s| - 1 && forall i :: 0 <= i < |r| ==> r[i] == s[if i < at then i else i + 1]
  {
    s[..at] + s[at + 1..]
  }

  lemma {:induction false} WithoutAt(s: seq<Client>, i: nat)
    requires i < |s| && Distinct(s)
    ensures Without(s, s[i]) == Cut(s, i)
  {
    hide Cut, Distinct;
    CutStep(s, i);
    if i > 0 {
      assert s[0] != s[i] && Distinct(s[1..]) by { DistinctStep(s, i); }
      WithoutAt(s[1..], i - 1);
    }
  }

  lemma {:induction false} CutStep(s: seq<Client>, i: nat)
    requires i < |s|
    ensures Cut(s, i) == if i == 0 then s[1..] else [s[0]] + Cut(s[1..], i - 1)
  {
  }

  lemma {:induction false} DistinctStep(s: seq<Client>, i: nat)
    requires 0 < i < |s| && Distinct(s)
    ensures s[0] != s[i] && Distinct(s[1..])
  {
  }

  lemma {:induction false} CutIsDistinct(s: seq<Client>, i: nat)
    requires i < |s| && Distinct(s)
    ensures Distinct(Cut(s, i)) && Distinct(Cut(s, i) + [s[i]]) && s[i] !in Cut(s, i)
  {
  }

  ghost predicate Distinct(s: seq<Client>) {
    forall i, j :: 0 <= i < j < |s| ==> s[i] != s[j]
  }

  /** The links of node `i` lead to its neighbours. */
  ghost predicate LinkedAt(s: seq<Client>, i: nat)
    requires i < |s|
    reads s`prev, s`next
  {
    && s[i].prev == (if i > 0 then s[i - 1] else null)
    && s[i].next == (if i + 1 < |s| then s[i + 1] else null)
  }

  ghost predicate LinkedAll(s: seq<Client>)
    reads s`prev, s`next
  {
    forall i :: 0 <= i < |s| ==> LinkedAt(s, i)
  }

  /** The links of node `i` when node `at` has been taken out from between its neighbours and put behind the last. */
  ghost predicate RelinkedAt(s: seq<Client>, at: nat, i: nat)
    requires at + 1 < |s| && i < |s|
    reads s`prev, s`next
  {
    && s[i].prev == (if i == at then s[|s| - 1]
                     else if i == at + 1 then (if at > 0 then s[at - 1] else null)
                     else if i > 0 then s[i - 1] else null)
    && s[i].next == (if i == at then null
                     else if i == |s| - 1 then s[at]
                     else if i + 1 == at then s[at + 1] else s[i + 1])
  }

  lemma {:induction false} Relinked(s: seq<Client>, at: nat)
    requires at + 1 < |s| && forall i :: 0 <= i < |s| ==> RelinkedAt(s, at, i)
    ensures LinkedAll(Cut(s, at) + [s[at]])
  {
    hide Cut;
    var rest := Cut(s, at) + [s[at]];
    forall i | 0 <= i < |rest| ensures LinkedAt(rest, i) {
      assert RelinkedAt(s, at, if i < at then i else if i < |rest| - 1 then i + 1 else at);
    }
  }

  class Deque {
    var size: nat
    var head: Client?
    var tail: Client?
    ghost var nodes: seq<Client>

    ghost predicate Valid()
      reads this, nodes`prev, nodes`next
    {
      && size == |nodes| && Distinct(nodes)
      && head == (if nodes == [] then null else nodes[0])
      && tail == (if nodes == [] then null else nodes[|nodes| - 1])
      && LinkedAll(nodes)
    }

    constructor ()
      ensures Valid() && nodes == []
    {
      size, head, tail, nodes := 0, null, null, [];
    }

    method Exist(obj: Client) returns (r: bool)
      requires Valid() && (obj !in nodes ==> obj.Loose())
      ensures r == (obj in nodes)
    {
      r := obj.prev != null || obj.next != null || obj == head;
      if obj in nodes {
        var i :| 0 <= i < |nodes| && nodes[i] == obj;
        assert LinkedAt(nodes, i);
      }
    }

    function Next(obj: Client): Client?
      reads obj`next
    {
      obj.next
    }

    method PushBack(obj: Client)
      requires Valid() && obj !in nodes && obj.Loose()
      modifies this, nodes`next, obj`prev
      ensures Valid() && nodes == old(nodes) + [obj]
    {
      ghost var n := |nodes|;
      if tail != null {
        tail.next := obj;
        obj.prev := tail;
        tail := obj;
      } else {
        head, tail := obj, obj;
      }
      size := size + 1;
      nodes := nodes + [obj];
      forall i | 0 <= i < |nodes| ensures LinkedAt(nodes, i) {
        if i < n { assert old(LinkedAt(nodes, i)); }
      }
    }

    method PushFront(obj: Client)
      requires Valid() && obj !in nodes && obj.Loose()
      modifies this, nodes`prev, obj`next
      ensures Valid() && nodes == [obj] + old(nodes)
    {
      if head != null {
        obj.next := head;
        head.prev := obj;
        head := obj;
      } else {
        head, tail := obj, obj;
      }
      size := size + 1;
      nodes := [obj] + nodes;
      forall i | 0 <= i < |nodes| ensures LinkedAt(nodes, i) {
        if i > 0 { assert old(LinkedAt(nodes, i - 1)); }
      }
    }

    /** Removing what is not in the list changes nothing. */
    method Remove(obj: Client)
      requires Valid() && (obj !in nodes ==> obj.Loose())
      modifies this, nodes`prev, nodes`next, obj`prev, obj`next
      ensures Valid() && obj.Loose() && nodes == Without(old(nodes), obj)
      ensures obj !in nodes
    {
      hide Without, Cut, IndexIn;
      ghost var at := if obj in nodes then IndexIn(nodes, obj) else 0;
      ghost var was := nodes;
      ghost var rest := Without(nodes, obj);
      if obj in nodes {
        assert LinkedAt(nodes, at);
        WithoutAt(nodes, at);
        CutIsDistinct(nodes, at);
        assert rest == Cut(was, at);
      }
      var prev, next, found := obj.prev, obj.next, 1;
      if prev != null && next != null {
        prev.next := next;
        next.prev := prev;
      } else if prev != null {
        prev.next := null;
        tail := prev;
      } else if next != null {
        next.prev := null;
        head := next;
      } else if head == obj {
        head, tail := null, null;
      } else {
        found := 0;
      }
      size := size - found;
      obj.prev, obj.next := null, null;
      nodes := rest;
      if obj in was {
        forall i | 0 <= i < |rest| ensures LinkedAt(rest, i) {
          if i < at { assert old(LinkedAt(was, i)); } else { assert old(LinkedAt(was, i + 1)); }
        }
      }
    }

    /** Nothing happens to the last node, or to one that is not in the list. */
    method MoveBack(obj: Client)
      requires Valid() && (obj !in nodes ==> obj.Loose())
      modifies this, nodes`prev, nodes`next
      ensures Valid() && nodes == if obj in old(nodes) then Without(old(nodes), obj) + [obj] else old(nodes)
    {
      hide Without, Cut, IndexIn;
      ghost var at := if obj in nodes then IndexIn(nodes, obj) else 0;
      ghost var was := nodes;
      ghost var rest := Without(nodes, obj) + [obj];
      if obj in nodes {
        assert LinkedAt(nodes, at);
        WithoutAt(nodes, at);
        CutIsDistinct(nodes, at);
        assert rest == Cut(was, at) + [obj];
      }
      var next := obj.next;
      if next != null {
        assert LinkedAt(nodes, at + 1) && LinkedAt(nodes, |nodes| - 1);
        var prev := obj.prev;
        if prev != null {
          assert LinkedAt(nodes, at - 1);
          prev.next := next;
          next.prev := prev;
        } else {
          next.prev := null;
          head := next;
        }
        tail.next := obj;
        obj.prev := tail;
        tail := obj;
        obj.next := null;
        nodes := rest;
        forall i | 0 <= i < |was| ensures RelinkedAt(was, at, i) { assert old(LinkedAt(was, i)); }
        Relinked(was, at);
      } else if obj in nodes {
        assert at == |nodes| - 1 && nodes == Cut(nodes, at) + [obj];
      }
    }

    method PopFront() returns (obj: Client?)
      requires Valid()
      modifies this, nodes
      ensures Valid()
      ensures old(nodes) == [] ==> obj == null && nodes == []
      ensures old(nodes) != [] ==> obj == old(nodes)[0] && obj.Loose() && nodes == old(nodes)[1..]
    {
      obj := head;
      if obj != null {
        assert LinkedAt(nodes, 0);
        WithoutAt(nodes, 0);
        Remove(obj);
      }
    }

    method PopBack() returns (obj: Client?)
      requires Valid()
      modifies this, nodes
      ensures Valid()
      ensures old(nodes) == [] ==> obj == null && nodes == []
      ensures old(nodes) != [] ==>
                obj == old(nodes)[|old(nodes)| - 1] && obj.Loose() && nodes == old(nodes)[..|old(nodes)| - 1]
    {
      obj := tail;
      if obj != null {
        assert LinkedAt(nodes, |nodes| - 1);
        WithoutAt(nodes, |nodes| - 1);
        Remove(obj);
      }
    }
  }

  ghost function IndexIn(s: seq<Client>, x: Client): (i: nat)
    requires x in s
    ensures i < |s| && s[i] == x
  {
    if s[0] == x then 0 else 1 + IndexIn(s[1..], x)
  }
}
