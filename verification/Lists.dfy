/** Intrusive singly linked lists: the link is in the node, and two lists that hold the same kind of node use the
    same link (src/List.h). A redirected request is pushed onto one list while it is at the front of another. */
module Lists {

  class Node {
    /** `mNext[Idx]` */
    var next: Node?

    constructor ()
      ensures next == null
    {
      next := null;
    }
  }

  class List {
    var size: nat
    var head: Node?
    var tail: Node?
    ghost var nodes: seq<Node>

    /** The nodes are linked one to the next, but the link of the last is not looked at. */
    ghost predicate Linked()
      reads this, nodes
    {
      && size == |nodes|
      && (forall i, j :: 0 <= i < j < |nodes| ==> nodes[i] != nodes[j])
      && (nodes == [] ==> head == null && tail == null)
      && (nodes != [] ==> head == nodes[0] && tail == nodes[|nodes| - 1])
      && (forall i :: 0 <= i < |nodes| - 1 ==> nodes[i].next == nodes[i + 1])
    }

    /** Following the links from the front gives exactly the nodes, and then null. */
    ghost predicate Exact()
      reads this, nodes
    {
      Linked() && (nodes != [] ==> nodes[|nodes| - 1].next == null)
    }

    constructor ()
      ensures Exact() && nodes == []
    {
      size, head, tail, nodes := 0, null, null, [];
    }

    /** The link of `p` is left as it was: it may still lead into another list. */
    method PushBack(p: Node)
      requires Exact() && p !in nodes
      modifies this, tail
      ensures Linked() && nodes == old(nodes) + [p]
      ensures p.next == old(p.next)
    {
      if tail != null {
        tail.next := p;
        tail := p;
      } else {
        head, tail := p, p;
      }
      size := size + 1;
      nodes := nodes + [p];
    }

    method PushFront(p: Node)
      requires Exact() && p !in nodes
      modifies this, p
      ensures Linked() && nodes == [p] + old(nodes)
      ensures old(nodes) != [] || old(p.next) == null ==> Exact()
    {
      if head != null {
        p.next := head;
        head := p;
      } else {
        head, tail := p, p;
      }
      size := size + 1;
      nodes := [p] + nodes;
    }

    /** The link of the node is cleared, so that it can be pushed anywhere. */
    method PopFront() returns (obj: Node?)
      requires Exact()
      modifies this, head
      ensures Exact()
      ensures old(nodes) == [] ==> obj == null && nodes == []
      ensures old(nodes) != [] ==> obj == old(nodes)[0] && nodes == old(nodes)[1..] && obj.next == null
    {
      obj := head;
      if obj != null {
        head := obj.next;
        size := size - 1;
        if size == 0 {
          tail := null;
        }
        obj.next := null;
        nodes := nodes[1..];
      }
    }
  }

  ghost predicate Apart(a: List, b: List)
    reads a, b
  {
    a != b && forall i, j :: 0 <= i < |a.nodes| && 0 <= j < |b.nodes| ==> a.nodes[i] != b.nodes[j]
  }

  /** What a redirection does to the lists: the request at the front of `sent` is pushed onto `send`, which for a
      moment ends in a link into `sent`, and is then popped off `sent`. Both lists are exact again, and the
      request is in one of them only. With an ASK, `asking` goes in between. */
  method MoveFront(sent: List, send: List, asking: Node?) returns (req: Node)
    requires sent.Exact() && send.Exact() && Apart(sent, send) && sent.nodes != []
    requires asking != null ==> asking !in sent.nodes && asking !in send.nodes && asking.next == null
    modifies sent, send, sent.nodes, send.nodes, asking
    ensures sent.Exact() && send.Exact() && Apart(sent, send)
    ensures req == old(sent.nodes)[0] && sent.nodes == old(sent.nodes)[1..]
    ensures send.nodes == old(send.nodes) + (if asking != null then [asking] else []) + [req]
  {
    req := sent.head;
    if asking != null {
      send.PushBack(asking);
    }
    send.PushBack(req);
    assert |sent.nodes| > 1 ==> send.tail.next == sent.nodes[1];
    var front := sent.PopFront();
  }
}
