/** The two job lists of libs/libdstdec/dst_decoder.c, linked through the jobs' `next`.  A job is on one
    list at a time, so splicing one leaves the other alone.  A node holds the number of its job. */
module JobLists {
  import opened DstPipeline
  import opened LinkedLists

  function Last(s: seq<Node<int>>): Node?<int> { if s == [] then null else s[|s| - 1] }

  /** The node of its job: the number is the place in allocation order, or it is the stop job. */
  predicate Own(jobs: seq<Node<int>>, stop: Node<int>, node: Node<int>) {
    if node.item == STOP then node == stop else 0 <= node.item < |jobs| && node == jobs[node.item]
  }

  /** Which nodes are on the lists: each has the number of its job, the stop job is never on the
      write list, and nothing is on both. */
  predicate Placed(jobs: seq<Node<int>>, stop: Node<int>, decode: seq<Node<int>>, write: seq<Node<int>>) {
    && stop.item == STOP && (forall p :: 0 <= p < |jobs| ==> jobs[p].item == p)
    && (forall i :: 0 <= i < |decode| ==> Own(jobs, stop, decode[i]))
    && (forall i :: 0 <= i < |write| ==> write[i] != stop && Own(jobs, stop, write[i]))
    && (forall i, j :: 0 <= i < |decode| && 0 <= j < |write| ==> decode[i] != write[j])
  }

  class JobLists {
    const decodeQueue: List<int>        // decode_head
    var decodeTail: Node?<int>          // decode_tail points at the `next` of this node, or at the head
    const writeQueue: List<int>         // write_head
    var decodeHave: int                 // the lock's value: how many jobs are on the decode list
    var writeFirst: int                 // the lock's value: the first number on the write list, or -1
    var jobs: seq<Node<int>>            // the jobs ever allocated
    var data: seq<Job>                  // and what else is in them
    const stop: Node<int>               // the job on the stack of finish_decoding_jobs
    ghost var decodeList: seq<int>      // the numbers on the lists
    ghost var writeList: seq<nat>

    ghost predicate Valid()
      reads this, decodeQueue, decodeQueue.nodes, writeQueue, writeQueue.nodes
    {
      && decodeQueue != writeQueue && decodeQueue.Valid() && writeQueue.Valid()
      && decodeTail == Last(decodeQueue.nodes) && |data| == |jobs|
      && Placed(jobs, stop, decodeQueue.nodes, writeQueue.nodes)
      && decodeList == Items(decodeQueue.nodes) && writeList == Items(writeQueue.nodes)
    }

    /** setup_decoding_jobs */
    constructor ()
      ensures Valid() && decodeList == [] && writeList == [] && data == [] && decodeHave == 0 && writeFirst == -1
      ensures fresh(decodeQueue) && fresh(writeQueue) && fresh(stop)
    {
      decodeQueue := new List();
      writeQueue := new List();
      stop := new Node(STOP);
      decodeTail, decodeHave, writeFirst, jobs, data := null, 0, -1, [], [];
      decodeList, writeList := [], [];
    }

    /** malloc of a job. */
    method NewJob(job: Job)
      requires Valid()
      modifies `jobs, `data
      ensures Valid() && data == old(data) + [job] && |jobs| == |old(jobs)| + 1 && jobs[..|old(jobs)|] == old(jobs) && fresh(jobs[|old(jobs)|])
    {
      data := data + [job];
      var node := new Node(|jobs|);
      jobs := jobs + [node];
    }

    /** *decode_tail = job; decode_tail = &(job->next) */
    method Append(job: nat)
      requires Valid() && job < |data| && job !in decodeList && job !in writeList
      modifies `decodeTail, `decodeHave, `decodeList, decodeQueue, jobs`next, stop`next
      ensures Valid() && decodeList == old(decodeList) + [job] && decodeHave == old(decodeHave) + 1
    {
      var node := jobs[job];
      ghost var k := |decodeQueue.nodes|;
      AppendPlaced(jobs, stop, decodeQueue.nodes, writeQueue.nodes, node);
      InsertedParts(decodeQueue.nodes, k, node);
      decodeHave, decodeList := decodeHave + 1, decodeList + [job];
      decodeQueue.Link(decodeTail, node, k);
      decodeTail := node;
    }

    /** job = decode_head: its number. */
    method Head() returns (number: int)
      requires Valid() && decodeList != []
      ensures number == decodeList[0]
    {
      number := decodeQueue.head.item;
    }

    /** decode_head = job->next; if that is null, decode_tail = &decode_head */
    method TakeHead() returns (number: int)
      requires Valid() && decodeList != []
      modifies `decodeTail, `decodeHave, `decodeList, decodeQueue
      ensures Valid() && number == old(decodeList[0]) && decodeList == old(decodeList[1..]) && decodeHave == old(decodeHave) - 1
    {
      decodeHave, decodeList := decodeHave - 1, decodeList[1..];
      ghost var was := decodeQueue.nodes;
      var job := decodeQueue.Unlink(null, 0);
      RemovedParts(was, 0);
      RestPlaced(jobs, stop, was, writeQueue.nodes);
      if decodeQueue.head == null { decodeTail := null; }
      number := job.item;
    }

    /** decode_head = &job; decode_tail = &(job.next) */
    method PutStop()
      requires Valid()
      modifies `decodeTail, `decodeHave, `decodeList, decodeQueue, stop`next
      ensures Valid() && decodeList == [STOP] && decodeHave == old(decodeHave) + 1
    {
      decodeHave, decodeList := decodeHave + 1, [STOP];
      assert stop !in writeQueue.nodes;
      decodeQueue.Replace(stop);
      decodeTail := stop;
    }

    /** The search loop of decode_thread: the cell that points at the first job with a larger number. */
    method FindPlace(job: nat) returns (prior: Node?<int>, ghost k: nat)
      requires Valid()
      ensures writeQueue.Before(prior, k)
      ensures forall i :: 0 <= i < k ==> writeList[i] <= job
      ensures k < |writeList| ==> writeList[k] > job
    {
      prior, k := null, 0;
      var here := writeQueue.At(prior, k);
      while here != null && here.item <= job
        invariant writeQueue.Before(prior, k) && here == NodeAt(writeQueue.nodes, k)
        invariant forall i :: 0 <= i < k ==> writeQueue.nodes[i].item <= job
        decreases |writeQueue.nodes| - k
      {
        prior := here;
        k := k + 1;
        here := here.next;
      }
    }

    /** The insertion of decode_thread: in front of the first job with a larger number. */
    method Insert(job: nat) returns (ghost k: nat)
      requires Valid() && job < |data| && job !in decodeList && job !in writeList
      modifies `writeFirst, `writeList, writeQueue, jobs`next
      ensures Valid() && k <= |old(writeList)| && writeList == InsertedAt(old(writeList), k, job) && writeFirst == writeList[0]
      ensures forall i :: 0 <= i < k ==> old(writeList)[i] <= job
      ensures k < |old(writeList)| ==> old(writeList)[k] > job
    {
      var prior;
      prior, k := FindPlace(job);
      InsertPlaced(jobs, stop, decodeQueue.nodes, writeQueue.nodes, jobs[job], k);
      writeQueue.Link(prior, jobs[job], k);
      writeFirst, writeList := writeQueue.head.item, InsertedAt(writeList, k, job);
    }

    /** job = write_head; write_head = job->next, and its number is announced, or -1. */
    method TakeFirst() returns (number: int)
      requires Valid() && writeList != []
      modifies `writeFirst, `writeList, writeQueue
      ensures Valid() && number == old(writeList[0]) && writeList == old(writeList[1..])
      ensures writeFirst == if writeList == [] then -1 else writeList[0]
    {
      ghost var was := writeQueue.nodes;
      var job := writeQueue.Unlink(null, 0);
      RemovedParts(was, 0);
      number := job.item;
      writeFirst, writeList := if writeQueue.head == null then -1 else writeQueue.head.item, writeList[1..];
    }

    /** The closing statement of write_thread. */
    method NoFirst()
      requires Valid()
      modifies `writeFirst
      ensures Valid() && writeFirst == -1
    {
      writeFirst := -1;
    }

    /** What is in a job but its number and its link. */
    method Fill(job: nat, j: Job)
      requires Valid() && job < |data|
      modifies `data
      ensures Valid() && data == old(data)[job := j]
    {
      data := data[job := j];
    }
  }

  lemma AppendPlaced(jobs: seq<Node<int>>, stop: Node<int>, decode: seq<Node<int>>, write: seq<Node<int>>, node: Node<int>)
    requires Placed(jobs, stop, decode, write) && Own(jobs, stop, node) && node.item !in Items(decode) && node.item !in Items(write)
    ensures node !in decode && node !in write && Placed(jobs, stop, decode + [node], write)
    ensures Items(decode + [node]) == Items(decode) + [node.item]
  {
    assert forall i :: 0 <= i < |decode| ==> Items(decode)[i] == decode[i].item;
    assert forall i :: 0 <= i < |write| ==> Items(write)[i] == write[i].item;
  }

  lemma RestPlaced(jobs: seq<Node<int>>, stop: Node<int>, decode: seq<Node<int>>, write: seq<Node<int>>)
    requires Placed(jobs, stop, decode, write) && decode != []
    ensures Placed(jobs, stop, decode[1..], write) && Last(decode[1..]) == if |decode| == 1 then null else Last(decode)
  {
  }

  lemma InsertPlaced(jobs: seq<Node<int>>, stop: Node<int>, decode: seq<Node<int>>, write: seq<Node<int>>, node: Node<int>, k: nat)
    requires Placed(jobs, stop, decode, write) && Own(jobs, stop, node) && node.item != STOP && k <= |write|
    requires node.item !in Items(decode) && node.item !in Items(write)
    ensures node !in decode && node !in write && Placed(jobs, stop, decode, InsertedAt(write, k, node))
    ensures Items(InsertedAt(write, k, node)) == InsertedAt(Items(write), k, node.item)
  {
    assert forall i :: 0 <= i < |decode| ==> Items(decode)[i] == decode[i].item;
    assert forall i :: 0 <= i < |write| ==> Items(write)[i] == write[i].item;
  }
}
