/** The singly linked lists of libs/libdstdec/dst_decoder.c and yarn.c, spliced in place.  A pointer to
    the cell that points at a node (`prior` in the source) is the node that has the cell, or null for
    the head of the list. */
module LinkedLists {

  class Node<T> {
    const item: T
    var next: Node?<T>

    constructor (item: T)
      ensures this.item == item && next == null
    {
      this.item, next := item, null;
    }
  }

  /** Node i of a chain, or null behind its end. */
  function NodeAt<T>(nodes: seq<Node<T>>, i: nat): Node?<T> { if i < |nodes| then nodes[i] else null }

  /** What the nodes of a chain hold. */
  function Items<T>(nodes: seq<Node<T>>): seq<T> { seq(|nodes|, i requires 0 <= i < |nodes| => nodes[i].item) }

  /** x at place k, and what was there and behind one place later. */
  function InsertedAt<X>(s: seq<X>, k: nat, x: X): seq<X>
    requires k <= |s|
  {
    seq(|s| + 1, i requires 0 <= i <= |s| => if i < k then s[i] else if i == k then x else s[i - 1])
  }

  function RemovedAt<X>(s: seq<X>, k: nat): seq<X>
    requires k < |s|
  {
    seq(|s| - 1, i requires 0 <= i < |s| - 1 => if i < k then s[i] else s[i + 1])
  }

  lemma InsertedParts<X>(s: seq<X>, k: nat, x: X)
    requires k <= |s|
    ensures InsertedAt(s, k, x) == s[..k] + [x] + s[k..]
  {
  }

  lemma RemovedParts<X>(s: seq<X>, k: nat)
    requires k < |s|
    ensures RemovedAt(s, k) == s[..k] + s[k + 1..]
  {
  }

  class List<T> {
    var head: Node?<T>
    ghost var nodes: seq<Node<T>>

    /** The chain from the head is `nodes`. */
    ghost predicate Valid()
      reads this, nodes
    {
      && head == NodeAt(nodes, 0)
      && (forall i {:trigger nodes[i].next} :: 0 <= i < |nodes| ==> nodes[i].next == NodeAt(nodes, i + 1))
      && (forall i, j :: 0 <= i < j < |nodes| ==> nodes[i] != nodes[j])
    }

    /** `prior` has the cell in front of place k. */
    ghost predicate Before(prior: Node?<T>, k: nat)
      reads this
    {
      k <= |nodes| && prior == if k == 0 then null else nodes[k - 1]
    }

    constructor ()
      ensures Valid() && nodes == []
    {
      head, nodes := null, [];
    }

    /** What the cell points at. */
    method At(prior: Node?<T>, ghost k: nat) returns (here: Node?<T>)
      requires Valid() && Before(prior, k)
      ensures here == NodeAt(nodes, k)
    {
      here := if prior == null then head else prior.next;
    }

    /** node->next = *prior; *prior = node */
    method Link(prior: Node?<T>, node: Node<T>, ghost k: nat)
      requires Valid() && Before(prior, k) && node !in nodes
      modifies this, node`next, (if prior == null then {} else {prior})`next
      ensures Valid()
      ensures nodes == InsertedAt(old(nodes), k, node)
    {
      if prior == null { LinkFirst(node); } else { LinkBehind(prior, node, k); }
    }

    method LinkFirst(node: Node<T>)
      requires Valid() && node !in nodes
      modifies this, node`next
      ensures Valid()
      ensures nodes == InsertedAt(old(nodes), 0, node)
    {
      node.next := head;
      head := node;
      nodes := InsertedAt(nodes, 0, node);
    }

    method LinkBehind(prior: Node<T>, node: Node<T>, ghost k: nat)
      requires Valid() && 0 < k && Before(prior, k) && node !in nodes
      modifies `nodes, node`next, prior`next
      ensures Valid()
      ensures nodes == InsertedAt(old(nodes), k, node)
    {
      assert node != prior;
      node.next := prior.next;
      prior.next := node;
      nodes := InsertedAt(nodes, k, node);
    }

    /** *prior = node->next */
    method Unlink(prior: Node?<T>, ghost k: nat) returns (node: Node<T>)
      requires Valid() && Before(prior, k) && k < |nodes|
      modifies this, (if prior == null then {} else {prior})`next
      ensures Valid() && node == old(nodes[k]) && nodes == RemovedAt(old(nodes), k)
    {
      if prior == null { node := UnlinkFirst(); } else { node := UnlinkBehind(prior, k); }
    }

    method UnlinkFirst() returns (node: Node<T>)
      requires Valid() && nodes != []
      modifies this
      ensures Valid() && node == old(nodes[0]) && nodes == RemovedAt(old(nodes), 0)
    {
      node := head;
      head := node.next;
      nodes := RemovedAt(nodes, 0);
    }

    method UnlinkBehind(prior: Node<T>, ghost k: nat) returns (node: Node<T>)
      requires Valid() && 0 < k && Before(prior, k) && k < |nodes|
      modifies `nodes, prior`next
      ensures Valid() && node == old(nodes[k]) && nodes == RemovedAt(old(nodes), k)
    {
      ghost var was := nodes;
      node := prior.next;
      prior.next := node.next;
      nodes := RemovedAt(was, k);
      assert was[k - 1].next == NodeAt(was, k + 1);
    }

    /** head = node, and nothing behind it. */
    method Replace(node: Node<T>)
      modifies this, node`next
      ensures Valid() && nodes == [node]
    {
      node.next := null;
      head := node;
      nodes := [node];
    }
  }
}
