/** The list of threads of libs/libdstdec/yarn.c, and the operations that splice it: launch, reenter,
    join and join_all. */
module ThreadLists {
  import opened DstPipeline
  import opened LinkedLists

  /** thread_s without its link. */
  class Cell {
    const id: Id
    var done: bool

    constructor (id: Id)
      ensures this.id == id && !done
    {
      this.id, done := id, false;
    }
  }

  class ThreadList {
    const list: List<Cell>
    var value: int                      // threads_lock: how many threads ended and were not joined
    ghost var threads: seq<Thread>      // what is on the list

    ghost var cells: set<Cell>          // of the threads ever launched

    ghost predicate Valid()
      reads this, list, list.nodes, cells
    {
      && (forall i {:trigger list.nodes[i].item} :: 0 <= i < |list.nodes| ==> list.nodes[i].item in cells)
      && list.Valid() && |threads| == |list.nodes|
      && (forall i {:trigger threads[i]} {:trigger list.nodes[i].item} :: 0 <= i < |threads| ==>
            threads[i] == Thread(list.nodes[i].item.id, list.nodes[i].item.done))
      && (forall i, j :: 0 <= i < j < |list.nodes| ==> list.nodes[i].item != list.nodes[j].item)
    }

    constructor ()
      ensures Valid() && threads == [] && value == 0 && cells == {} && fresh(list)
    {
      list := new List();
      threads, value, cells := [], 0, {};
    }

    /** The end of launch: the new thread goes in front. */
    method Launch(id: Id)
      requires Valid()
      modifies `threads, `cells, list
      ensures Valid() && threads == [Thread(id, false)] + old(threads) && cells >= old(cells) && fresh(cells - old(cells))
    {
      var cell := new Cell(id);
      var node := new Node(cell);
      ghost var was, held := list.nodes, threads;
      list.Link(null, node, 0);
      InsertedParts(was, 0, node);
      threads, cells := [Thread(id, false)] + held, cells + {cell};
    }

    /** The search loop of reenter and join. */
    method Find(id: Id) returns (prior: Node?<Cell>, here: Node?<Cell>, ghost k: nat)
      requires Valid()
      ensures k == FindThread(threads, id) && list.Before(prior, k) && here == NodeAt(list.nodes, k)
    {
      prior, k := null, 0;
      here := list.At(prior, k);
      while here != null && here.item.id != id
        invariant list.Before(prior, k) && here == NodeAt(list.nodes, k)
        invariant FindThread(threads, id) == k + FindThread(threads[k..], id)
        decreases |list.nodes| - k
      {
        assert threads[k..][1..] == threads[k + 1..] && threads[k].id == here.item.id;
        prior := here;
        k := k + 1;
        here := here.next;
      }
    }

    /** The search loop of join_all. */
    method FindDone() returns (prior: Node?<Cell>, here: Node?<Cell>, ghost k: nat)
      requires Valid()
      ensures k == FirstDone(threads) && list.Before(prior, k) && here == NodeAt(list.nodes, k)
    {
      prior, k := null, 0;
      here := list.At(prior, k);
      while here != null && !here.item.done
        invariant list.Before(prior, k) && here == NodeAt(list.nodes, k)
        invariant FirstDone(threads) == k + FirstDone(threads[k..])
        decreases |list.nodes| - k
      {
        assert threads[k..][1..] == threads[k + 1..] && threads[k].done == here.item.done;
        prior := here;
        k := k + 1;
        here := here.next;
      }
    }

    /** *prior = match->next */
    method Unlink(prior: Node?<Cell>, ghost k: nat) returns (node: Node<Cell>)
      requires Valid() && list.Before(prior, k) && k < |list.nodes|
      modifies `threads, list, list.nodes`next
      ensures Valid() && threads == Without(old(threads), k)
      ensures node == old(list.nodes[k]) && list.nodes == RemovedAt(old(list.nodes), k)
    {
      threads := Without(threads, k);
      node := list.Unlink(prior, k);
    }

    /** reenter: the ending thread marks itself done, moves to the head of the list and is counted. */
    method Reenter(id: Id)
      requires Valid() && FindThread(threads, id) < |threads|
      modifies `value, `threads, list, list.nodes`next, cells`done
      ensures Valid() && threads == [Thread(id, true)] + Without(old(threads), FindThread(old(threads), id))
      ensures value == old(value) + 1
    {
      var prior, match', k := Find(id);
      Mark(match', k);
      if list.head != match' { MoveToHead(prior, k); }
      value := value + 1;
    }

    /** match->done = 1 */
    method Mark(node: Node<Cell>, ghost k: nat)
      requires Valid() && k < |list.nodes| && node == list.nodes[k]
      modifies `threads, node.item`done
      ensures Valid() && threads == old(threads)[k := Thread(node.item.id, true)]
    {
      threads := threads[k := Thread(node.item.id, true)];
      node.item.done := true;
    }

    /** The thread found moves to the head. */
    method MoveToHead(prior: Node?<Cell>, ghost k: nat)
      requires Valid() && list.Before(prior, k) && k < |list.nodes|
      modifies `threads, list, list.nodes`next
      ensures Valid() && threads == [old(threads)[k]] + Without(old(threads), k)
    {
      ghost var t, was := threads[k], list.nodes;
      var node := Unlink(prior, k);
      ghost var rest := list.nodes;
      list.Link(null, node, 0);
      InsertedParts(rest, 0, node);
      assert list.nodes == [node] + rest;
      assert forall n :: n in list.nodes ==> n in was;
      threads := [t] + threads;
    }

    /** join: the thread is taken off the list, and off the count if it has ended. */
    method Join(id: Id)
      requires Valid() && FindThread(threads, id) < |threads|
      modifies `value, `threads, list, list.nodes`next
      ensures Valid() && threads == Without(old(threads), FindThread(old(threads), id))
      ensures value == if old(threads)[FindThread(old(threads), id)].done then old(value) - 1 else old(value)
    {
      var prior, match', k := Find(id);
      if match'.item.done { value := value - 1; }
      var node := Unlink(prior, k);
    }

    /** One turn of the loop of join_all: the first thread marked done is taken off. */
    method JoinDone()
      requires Valid() && FirstDone(threads) < |threads|
      modifies `value, `threads, list, list.nodes`next
      ensures Valid() && threads == Without(old(threads), FirstDone(old(threads))) && value == old(value) - 1
    {
      var prior, match', k := FindDone();
      value := value - 1;
      var node := Unlink(prior, k);
    }
  }
}
