/** The decoder object of libs/libdstdec/dst_decoder.c.  Each method is one lock-protected region, or
    one piece of private work, of one of its threads, and is proved to take the step of the
    transition system that stands for it: `now` is the state of that system, which the fields, the
    linked lists and the pools show, and some run of the threads leads to it.  A step is in two
    methods: one changes the object, and one adds that the transition system came along. */
module DstDecoder {
  import opened BufferPool
  import opened DstPipeline
  import opened DstInvariant
  import opened LinkedLists
  import opened JobLists
  import opened ThreadLists
  import DstTheorems

  /** Some run of the threads ends in the state. */
  ghost predicate Reachable(c: Config, s: State) {
    exists states, steps :: IsRun(c, states, steps) && states[|steps|] == s
  }

  lemma Starts(c: Config)
    ensures Reachable(c, Init(c))
  {
    var states: seq<State>, steps: seq<Step> := [Init(c)], [];
    assert IsRun(c, states, steps) && states[|steps|] == Init(c);
  }

  lemma ReachableInv(c: Config, s: State)
    requires c.procs >= 1 && Reachable(c, s)
    ensures Inv(c, s)
  {
    var states, steps :| IsRun(c, states, steps) && states[|steps|] == s;
    DstTheorems.RunKeeps(c, states, steps);
  }

  /** In a reachable state no step fails an assertion, and every step leads to a reachable state. */
  lemma Goes(c: Config, s: State, step: Step)
    requires c.procs >= 1 && Reachable(c, s) && Enabled(c, s, step)
    ensures !Next(c, s, step).failed && Reachable(c, Next(c, s, step))
  {
    NeverFails(c, s, step);
    var states, steps :| IsRun(c, states, steps) && states[|steps|] == s;
    RunExtends(c, states, steps, step, Next(c, s, step));
  }

  lemma NeverFails(c: Config, s: State, step: Step)
    requires c.procs >= 1 && Reachable(c, s) && Enabled(c, s, step)
    ensures !Next(c, s, step).failed
  {
    ReachableInv(c, s);
    DstTheorems.StepKeeps(c, s, step);
  }

  lemma RunExtends(c: Config, states: seq<State>, steps: seq<Step>, step: Step, t: State)
    requires IsRun(c, states, steps) && Enabled(c, states[|steps|], step) && t == Next(c, states[|steps|], step)
    ensures Reachable(c, t)
  {
    var more, moreSteps := states + [t], steps + [step];
    forall i | 0 <= i < |moreSteps| ensures Enabled(c, more[i], moreSteps[i]) && more[i + 1] == Next(c, more[i], moreSteps[i]) {
      if i < |steps| { assert moreSteps[i] == steps[i] && more[i] == states[i] && more[i + 1] == states[i + 1]; }
    }
    assert IsRun(c, more, moreSteps) && more[|moreSteps|] == t;
  }

  // ----- what the steps find -----

  /** A job about to be appended is on no list. */
  lemma AppendedApart(c: Config, s: State)
    requires c.procs >= 1 && Reachable(c, s) && s.producer.Append?
    ensures var job := s.producer.job; job < |s.jobs| && job !in s.decodeList && job !in s.writeList
  {
    ReachableInv(c, s);
  }

  /** Nor is a job about to be inserted, and the jobs on the write list are numbered in order. */
  lemma InsertedApart(c: Config, s: State, d: nat)
    requires c.procs >= 1 && Reachable(c, s) && Enabled(c, s, InsertJob(d))
    ensures var job := s.decoders[d].job; job < |s.jobs| && job !in s.decodeList && job !in s.writeList
    ensures ListSafe(s) && forall p :: 0 <= p < |s.jobs| ==> s.jobs[p].number == p
  {
    ReachableInv(c, s);
  }

  lemma Numbered(c: Config, s: State)
    requires c.procs >= 1 && Reachable(c, s)
    ensures ListSafe(s) && forall p :: 0 <= p < |s.jobs| ==> s.jobs[p].number == p
  {
    ReachableInv(c, s);
  }

  /** A job on the decode list is the stop job or has its number. */
  lemma HeadNumbered(c: Config, s: State)
    requires c.procs >= 1 && Reachable(c, s) && s.decodeHave != 0
    ensures s.decodeList != [] && NumberOf(s, s.decodeList[0]) == s.decodeList[0]
    ensures s.decodeList[0] == STOP || 0 <= s.decodeList[0] < |s.jobs|
  {
    ReachableInv(c, s);
  }

  lemma OneEach(c: Config, s: State)
    requires c.procs >= 1 && Reachable(c, s) && s.producer.Launch?
    ensures s.cthreads == |s.decoders|
  {
    ReachableInv(c, s);
  }

  function End(id: Id): Step {
    match id
    case WriterId => WriterReturn
    case DecoderId(d) => Step.Leave(d)
  }

  /** A thread that ends is on the list. */
  lemma EndingListed(c: Config, s: State, id: Id)
    requires c.procs >= 1 && Reachable(c, s) && Enabled(c, s, End(id))
    ensures FindThread(s.threads, id) < |s.threads|
    ensures var t := Next(c, s, End(id));
            t == s.(threads := [Thread(id, true)] + Without(s.threads, FindThread(s.threads, id)), threadsDone := s.threadsDone + 1,
                    writer := t.writer, decoders := t.decoders)
  {
    NeverFails(c, s, End(id));
  }

  lemma PoolsOk(c: Config, s: State)
    requires c.procs >= 1 && Reachable(c, s)
    ensures PoolInv(s.inPool, InLimit(c)) && PoolInv(s.outPool, -1)
  {
    ReachableInv(c, s);
  }

  /** The place that the search loop finds is the one of the recursive insertion. */
  lemma {:induction false} InsertedThere(jobs: seq<Job>, list: seq<nat>, job: nat, k: nat)
    requires job < |jobs| && (forall i :: 0 <= i < |list| ==> list[i] < |jobs|) && (forall p :: 0 <= p < |jobs| ==> jobs[p].number == p)
    requires k <= |list| && (forall i :: 0 <= i < k ==> list[i] <= job) && (k < |list| ==> list[k] > job)
    ensures Inserted(jobs, list, job) == InsertedAt(list, k, job)
  {
    if k == 0 {
      InsertedParts(list, 0, job);
    } else {
      var rest := list[1..];
      forall i | 0 <= i < |rest| ensures rest[i] == list[i + 1] && rest[i] < |jobs| {
      }
      InsertedThere(jobs, rest, job, k - 1);
      assert InsertedAt(list, k, job) == [list[0]] + InsertedAt(rest, k - 1, job);
    }
  }

  /** At the end of finish_decoding_jobs. */
  lemma AllBack(c: Config, s: State)
    requires c.procs >= 1 && Reachable(c, s) && s.producer.FreePools?
    ensures PoolInv(s.inPool, InLimit(c)) && forall b :: 0 <= b < s.inPool.made ==> s.inPool.use[b] == 0
    ensures PoolInv(s.outPool, -1) && forall b :: 0 <= b < s.outPool.made ==> s.outPool.use[b] == 0
    ensures s.events == Expected(c, |c.frames|)
  {
    ReachableInv(c, s);
    DstTheorems.NoneInUse(c, s);
  }

  class Decoder {
    const procs: nat
    const reportErrors: bool
    const decode: (Bytes, nat) -> Decoded
    ghost const frames: seq<Bytes>

    var sequence: nat
    var cthreads: nat
    const lists: JobLists
    const inPool: BufferPool
    const outPool: BufferPool
    var inMem: seq<Bytes>
    var outMem: seq<Bytes>
    const threads: ThreadList
    var writerSeq: nat
    var caught: nat
    var events: seq<Event>

    ghost var now: State                // the state of the transition system

    ghost function Conf(): Config { Config(frames, procs, decode, reportErrors) }

    /** The fields, the lists and the pools show the state. */
    ghost predicate Shown()
      reads this, inPool, outPool, lists, threads
    {
      && now.sequence == sequence && now.cthreads == cthreads && now.inMem == inMem && now.outMem == outMem
      && now.writerSeq == writerSeq && now.caught == caught && now.events == events && !now.failed
      && now.inPool == Pool(inPool.have, inPool.head, inPool.limit, inPool.made, inPool.use)
      && now.outPool == Pool(outPool.have, outPool.head, outPool.limit, outPool.made, outPool.use)
      && now.jobs == lists.data && now.decodeHave == lists.decodeHave && now.decodeList == lists.decodeList
      && now.writeFirst == lists.writeFirst && now.writeList == lists.writeList
      && now.threads == threads.threads && now.threadsDone == threads.value
    }

    /** The lists are linked as they should be. */
    ghost predicate Linked()
      reads lists, lists.decodeQueue, lists.decodeQueue.nodes, lists.writeQueue, lists.writeQueue.nodes
      reads threads, threads.list, threads.list.nodes, threads.cells
    {
      inPool != outPool && lists.Valid() && threads.Valid()
    }

    /** In every reachable state. */
    ghost predicate Valid()
      reads this, inPool, outPool, lists, lists.decodeQueue, lists.decodeQueue.nodes, lists.writeQueue, lists.writeQueue.nodes
      reads threads, threads.list, threads.list.nodes, threads.cells
    {
      procs >= 1 && Shown() && Linked() && Reachable(Conf(), now)
    }

    /** setup_decoding_jobs: the lists are empty and the pools new. */
    constructor (procs: nat, reportErrors: bool, decode: (Bytes, nat) -> Decoded, ghost frames: seq<Bytes>)
      ensures Conf() == Config(frames, procs, decode, reportErrors) && now == Init(Conf())
      ensures Linked() && threads.threads == [] && New()
      ensures fresh(inPool) && fresh(outPool) && fresh(lists) && fresh(threads) && fresh(threads.list)
    {
      this.procs, this.reportErrors, this.decode, this.frames := procs, reportErrors, decode, frames;
      inPool := new BufferPool(procs * 2 + 2);
      outPool := new BufferPool(-1);
      sequence, cthreads, inMem, outMem, writerSeq, caught, events := 0, 0, [], [], 0, 0, [];
      lists := new JobLists();
      threads := new ThreadList();
      now := Init(Config(frames, procs, decode, reportErrors));
    }

    /** The write thread is launched. */
    method Start()
      requires procs >= 1 && Linked() && New() && now == Init(Conf()) && threads.threads == []
      modifies threads`threads, threads`cells, threads.list
      ensures Valid() && now == Init(Conf())
    {
      threads.Launch(WriterId);
      Starts(Conf());
    }

    /** Nothing has happened. */
    ghost predicate New()
      reads this, inPool, outPool, lists, threads
    {
      && sequence == cthreads == writerSeq == caught == 0 && inMem == outMem == [] && events == []
      && inPool.State() == Create(procs * 2 + 2) && outPool.State() == Create(-1)
      && lists.data == [] && lists.decodeHave == 0 && lists.decodeList == [] && lists.writeFirst == -1 && lists.writeList == []
      && threads.value == 0
    }

    /** The transition system takes a step. */
    ghost method Move(step: Step)
      requires procs >= 1 && Reachable(Conf(), now) && Enabled(Conf(), now, step)
      modifies `now
      ensures now == Next(Conf(), old(now), step) && !now.failed && Reachable(Conf(), now)
    {
      Goes(Conf(), now, step);
      now := Next(Conf(), now, step);
    }

    // ----- dst_decoder_decode and finish_write_job -----

    method TakeInput() returns (space: nat)
      requires PoolInv(inPool.State(), InLimit(Conf())) && CanGet(inPool.State())
      modifies inPool, `inMem
      ensures (inPool.State(), space) == Get(old(inPool.State()))
      ensures inMem == if space == |old(inMem)| then old(inMem) + [[]] else old(inMem)
    {
      space := inPool.GetSpace(InLimit(Conf()));
      inMem := if space == |inMem| then inMem + [[]] else inMem;
    }

    method AddJob(job: Job)
      requires Linked()
      modifies lists`jobs, lists`data
      ensures Linked() && lists.data == old(lists.data) + [job]
    {
      lists.NewJob(job);
    }

    method NewJob() returns (job: nat)
      requires Valid() && Enabled(Conf(), now, TakeIn)
      modifies `now, inPool, `inMem, lists`jobs, lists`data
      ensures Valid() && now == Next(Conf(), old(now), TakeIn) && now.producer == Fill(job)
    {
      PoolsOk(Conf(), now);
      Move(TakeIn);
      var space := TakeInput();
      job := |lists.data|;
      AddJob(Job(sequence, true, space, -1, 0));
    }

    method CopyIn(job: nat, frame: Bytes)
      requires job < |lists.data| && 0 <= lists.data[job].inBuf < |inMem|
      modifies `inMem, `sequence
      ensures inMem == old(inMem)[lists.data[job].inBuf := frame] && sequence == old(sequence) + 1
    {
      inMem := inMem[lists.data[job].inBuf := frame];
      sequence := sequence + 1;
    }

    /** The next call is made with the next frame. */
    method FillJob(job: nat, frame: Bytes)
      requires Valid() && Enabled(Conf(), now, FillIn) && now.producer == Fill(job) && frame == NextFrame()
      modifies `now, `inMem, `sequence
      ensures Valid() && now == Next(Conf(), old(now), FillIn)
    {
      Move(FillIn);
      CopyIn(job, frame);
    }

    ghost function NextFrame(): Bytes
      reads this
    {
      if sequence < |frames| then frames[sequence] else []
    }

    method AddLast()
      requires Linked()
      modifies `sequence, lists`jobs, lists`data
      ensures Linked() && lists.data == old(lists.data) + [Job(old(sequence), false, -1, -1, 0)] && sequence == old(sequence) + 1
    {
      lists.NewJob(Job(sequence, false, -1, -1, 0));
      sequence := sequence + 1;
    }

    method NewLastJob() returns (job: nat)
      requires Valid() && Enabled(Conf(), now, Finish)
      modifies `now, `sequence, lists`jobs, lists`data
      ensures Valid() && now == Next(Conf(), old(now), Finish) && now.producer == Launch(job)
    {
      Move(Finish);
      job := |lists.data|;
      AddLast();
    }

    method AddDecoder()
      requires Linked()
      modifies `cthreads, threads`threads, threads`cells, threads.list
      ensures Linked() && cthreads == old(cthreads) + 1 && threads.threads == [Thread(DecoderId(old(cthreads)), false)] + old(threads.threads)
    {
      threads.Launch(DecoderId(cthreads));
      cthreads := cthreads + 1;
    }

    method StartDecoder()
      requires Valid() && Enabled(Conf(), now, LaunchDecoder)
      modifies `now, `cthreads, threads`threads, threads`cells, threads.list
      ensures Valid() && now == Next(Conf(), old(now), LaunchDecoder)
    {
      OneEach(Conf(), now);
      Move(LaunchDecoder);
      if cthreads < procs {
        AddDecoder();
      }
    }

    method AppendToList(job: nat)
      requires Linked() && job < |lists.data| && job !in lists.decodeList && job !in lists.writeList
      modifies lists`decodeTail, lists`decodeHave, lists`decodeList, lists.decodeQueue, lists.jobs`next, lists.stop`next
      ensures Linked() && lists.decodeList == old(lists.decodeList) + [job] && lists.decodeHave == old(lists.decodeHave) + 1
      ensures unchanged(this, threads, inPool, outPool)
    {
      lists.Append(job);
    }

    method QueueJob(job: nat)
      requires Valid() && Enabled(Conf(), now, Step.AppendJob) && now.producer == Append(job)
      modifies `now, lists`decodeTail, lists`decodeHave, lists`decodeList, lists.decodeQueue, lists.jobs`next, lists.stop`next
      ensures Valid() && now == Next(Conf(), old(now), Step.AppendJob)
    {
      AppendedApart(Conf(), now);
      Move(Step.AppendJob);
      AppendToList(job);
    }

    // ----- decode_thread -----

    method UnlinkHead() returns (number: int)
      requires Linked() && lists.decodeList != []
      modifies lists`decodeTail, lists`decodeHave, lists`decodeList, lists.decodeQueue
      ensures Linked() && number == old(lists.decodeList[0]) && unchanged(this, threads, inPool, outPool)
      ensures lists.decodeList == old(lists.decodeList[1..]) && lists.decodeHave == old(lists.decodeHave) - 1
    {
      number := lists.TakeHead();
    }

    /** The stop job stays on the list; another is taken off. */
    method TakeHead(ghost d: nat) returns (number: int)
      requires Valid() && Enabled(Conf(), now, TakeJob(d))
      modifies `now, lists`decodeTail, lists`decodeHave, lists`decodeList, lists.decodeQueue
      ensures Valid() && now == Next(Conf(), old(now), TakeJob(d))
      ensures number == old(now).decodeList[0] && lists.decodeList == if number == STOP then old(now).decodeList else old(now).decodeList[1..]
    {
      HeadNumbered(Conf(), now);
      Move(TakeJob(d));
      number := lists.Head();
      if number != STOP {
        number := UnlinkHead();
      }
    }

    method TakeOutput(job: nat)
      requires Linked() && job < |lists.data| && PoolInv(outPool.State(), -1)
      modifies outPool, `outMem, lists`data
      ensures Linked() && outPool.State() == Get(old(outPool.State())).0
      ensures var space := Get(old(outPool.State())).1;
              && outMem == (if space == |old(outMem)| then old(outMem) + [[]] else old(outMem))
              && lists.data == old(lists.data)[job := old(lists.data)[job].(outBuf := space)]
    {
      var space := outPool.GetSpace(-1);
      outMem := if space == |outMem| then outMem + [[]] else outMem;
      lists.Fill(job, lists.data[job].(outBuf := space));
    }

    method TakeOutSpace(ghost d: nat, job: nat)
      requires Valid() && Enabled(Conf(), now, TakeOut(d)) && now.decoders[d] == NeedOut(job)
      modifies `now, outPool, `outMem, lists`data
      ensures Valid() && now == Next(Conf(), old(now), TakeOut(d))
    {
      PoolsOk(Conf(), now);
      Move(TakeOut(d));
      TakeOutput(job);
    }

    method DecodeInto(job: nat)
      requires Linked() && job < |lists.data| && lists.data[job].number >= 0
      requires 0 <= lists.data[job].inBuf < |inMem| && 0 <= lists.data[job].outBuf < |outMem|
      modifies `outMem, lists`data
      ensures var j := old(lists.data)[job];
              var r := decode(inMem[j.inBuf], j.number);
              Linked() && outMem == old(outMem)[j.outBuf := r.dsd] && lists.data == old(lists.data)[job := j.(error := r.error)]
    {
      var j := lists.data[job];
      var r := decode(inMem[j.inBuf], j.number);
      outMem := outMem[j.outBuf := r.dsd];
      lists.Fill(job, j.(error := r.error));
    }

    method DecodeFrame(ghost d: nat, job: nat)
      requires Valid() && Enabled(Conf(), now, Decode(d)) && now.decoders[d] == Decoding(job)
      modifies `now, `outMem, lists`data
      ensures Valid() && now == Next(Conf(), old(now), Decode(d))
    {
      Move(Decode(d));
      DecodeInto(job);
    }

    method DropInSpace(ghost d: nat, job: nat)
      requires Valid() && Enabled(Conf(), now, DropInStep(d)) && now.decoders[d] == DropIn(job)
      modifies `now, inPool
      ensures Valid() && now == Next(Conf(), old(now), DropInStep(d))
    {
      PoolsOk(Conf(), now);
      Move(DropInStep(d));
      inPool.DropSpace(lists.data[job].inBuf, InLimit(Conf()));
    }

    method InsertInList(job: nat) returns (ghost k: nat)
      requires Linked() && job < |lists.data| && job !in lists.decodeList && job !in lists.writeList
      modifies lists`writeFirst, lists`writeList, lists.writeQueue, lists.jobs`next
      ensures Linked() && k <= |old(lists.writeList)| && lists.writeList == InsertedAt(old(lists.writeList), k, job)
      ensures lists.writeFirst == lists.writeList[0] && forall i :: 0 <= i < k ==> old(lists.writeList)[i] <= job
      ensures k < |old(lists.writeList)| ==> old(lists.writeList)[k] > job
      ensures unchanged(this, threads, inPool, outPool)
    {
      k := lists.Insert(job);
    }

    method QueueResult(ghost d: nat, job: nat)
      requires Valid() && Enabled(Conf(), now, InsertJob(d)) && now.decoders[d] == Insert(job)
      modifies `now, lists`writeFirst, lists`writeList, lists.writeQueue, lists.jobs`next
      ensures Valid() && now == Next(Conf(), old(now), InsertJob(d))
    {
      InsertedApart(Conf(), now, d);
      ghost var was := now;
      Move(InsertJob(d));
      ghost var k := InsertInList(job);
      InsertedThere(was.jobs, was.writeList, job, k);
    }

    // ----- write_thread -----

    method UnlinkFirst() returns (number: int)
      requires Linked() && lists.writeList != []
      modifies lists`writeFirst, lists`writeList, lists.writeQueue
      ensures Linked() && number == old(lists.writeList[0]) && lists.writeList == old(lists.writeList[1..])
      ensures lists.writeFirst == if lists.writeList == [] then -1 else lists.writeList[0]
    {
      number := lists.TakeFirst();
    }

    method TakeFirst() returns (job: nat)
      requires Valid() && Enabled(Conf(), now, TakeResult)
      modifies `now, lists`writeFirst, lists`writeList, lists.writeQueue
      ensures Valid() && now == Next(Conf(), old(now), TakeResult) && now.writer == Report(job)
    {
      Numbered(Conf(), now);
      Move(TakeResult);
      job := UnlinkFirst();
    }

    method TellError(j: Job)
      modifies `events, `writerSeq
      ensures events == if j.error != 0 && reportErrors then old(events) + [Error(j.number, j.error)] else old(events)
      ensures writerSeq == old(writerSeq) + if j.more then 0 else 1
    {
      if j.error != 0 && reportErrors {
        events := events + [Error(j.number, j.error)];
      }
      if !j.more {
        writerSeq := writerSeq + 1;
      }
    }

    method ReportError(job: nat) returns (more: bool)
      requires Valid() && Enabled(Conf(), now, ReportStep) && now.writer == Report(job)
      modifies `now, `events, `writerSeq
      ensures Valid() && now == Next(Conf(), old(now), ReportStep) && (more <==> now.writer.Emit?)
    {
      Move(ReportStep);
      TellError(lists.data[job]);
      more := lists.data[job].more;
    }

    method Deliver(dsd: Bytes)
      modifies `events
      ensures events == old(events) + [Frame(dsd)]
    {
      events := events + [Frame(dsd)];
    }

    method DeliverFrame(job: nat)
      requires Valid() && Enabled(Conf(), now, EmitStep) && now.writer == Emit(job)
      modifies `now, `events
      ensures Valid() && now == Next(Conf(), old(now), EmitStep)
    {
      Move(EmitStep);
      Deliver(outMem[lists.data[job].outBuf]);
    }

    method DropOutput(space: nat)
      requires PoolInv(outPool.State(), -1) && space < outPool.made && outPool.use[space] != 0
      modifies outPool, `writerSeq
      ensures outPool.State() == Drop(old(outPool.State()), space) && writerSeq == old(writerSeq) + 1
    {
      outPool.DropSpace(space, -1);
      writerSeq := writerSeq + 1;
    }

    method DropOutSpace(job: nat)
      requires Valid() && Enabled(Conf(), now, DropOutStep) && now.writer == DropOut(job)
      modifies `now, outPool, `writerSeq
      ensures Valid() && now == Next(Conf(), old(now), DropOutStep)
    {
      PoolsOk(Conf(), now);
      Move(DropOutStep);
      DropOutput(lists.data[job].outBuf);
    }

    /** The assertions hold in every run. */
    method CheckDecodeList()
      requires Valid() && Enabled(Conf(), now, CheckDecodeStep)
      modifies `now
      ensures Valid() && now == Next(Conf(), old(now), CheckDecodeStep)
    {
      Move(CheckDecodeStep);
      assert lists.decodeQueue.head == null && lists.decodeHave == 0;
    }

    method CheckWriteList()
      requires Valid() && Enabled(Conf(), now, CheckWriteStep)
      modifies `now, lists`writeFirst
      ensures Valid() && now == Next(Conf(), old(now), CheckWriteStep)
    {
      Move(CheckWriteStep);
      assert lists.writeQueue.head == null;
      lists.NoFirst();
    }

    // ----- the ends of the threads -----

    method MarkDone(id: Id)
      requires Linked() && FindThread(threads.threads, id) < |threads.threads|
      modifies threads`value, threads`threads, threads.list, threads.list.nodes`next, threads.cells`done
      ensures Linked() && threads.threads == [Thread(id, true)] + Without(old(threads.threads), FindThread(old(threads.threads), id))
      ensures threads.value == old(threads.value) + 1 && unchanged(this, lists, inPool, outPool)
    {
      threads.Reenter(id);
    }

    /** The end of the thread function, and reenter. */
    method Leave(id: Id)
      requires Valid() && Enabled(Conf(), now, End(id))
      modifies `now, threads`value, threads`threads, threads.list, threads.list.nodes`next, threads.cells`done
      ensures Valid() && now == Next(Conf(), old(now), End(id))
    {
      EndingListed(Conf(), now, id);
      Move(End(id));
      MarkDone(id);
    }

    method JoinOff(id: Id)
      requires Linked() && FindThread(threads.threads, id) < |threads.threads|
      modifies threads`value, threads`threads, threads.list, threads.list.nodes`next
      ensures Linked() && threads.threads == Without(old(threads.threads), FindThread(old(threads.threads), id))
      ensures threads.value == if old(threads.threads)[FindThread(old(threads.threads), id)].done then old(threads.value) - 1 else old(threads.value)
    {
      threads.Join(id);
    }

    method JoinWriteThread()
      requires Valid() && Enabled(Conf(), now, JoinWriterStep)
      modifies `now, threads`value, threads`threads, threads.list, threads.list.nodes`next
      ensures Valid() && now == Next(Conf(), old(now), JoinWriterStep)
    {
      Move(JoinWriterStep);
      JoinOff(WriterId);
    }

    method PutStopJob()
      requires Linked()
      modifies lists`decodeTail, lists`decodeHave, lists`decodeList, lists.decodeQueue, lists.stop`next
      ensures Linked() && lists.decodeList == [STOP] && lists.decodeHave == old(lists.decodeHave) + 1
    {
      lists.PutStop();
    }

    method StopDecoders()
      requires Valid() && Enabled(Conf(), now, SendStopStep)
      modifies `now, lists`decodeTail, lists`decodeHave, lists`decodeList, lists.decodeQueue, lists.stop`next
      ensures Valid() && now == Next(Conf(), old(now), SendStopStep)
    {
      Move(SendStopStep);
      PutStopJob();
    }

    method CatchDone()
      requires Linked() && FirstDone(threads.threads) < |threads.threads|
      modifies `caught, threads`value, threads`threads, threads.list, threads.list.nodes`next
      ensures Linked() && threads.threads == Without(old(threads.threads), FirstDone(old(threads.threads)))
      ensures threads.value == old(threads.value) - 1 && caught == old(caught) + 1 && unchanged(lists, inPool, outPool)
    {
      threads.JoinDone();
      caught := caught + 1;
    }

    /** One turn of the loop of join_all. */
    method JoinDone()
      requires Valid() && Enabled(Conf(), now, JoinOne)
      modifies `now, `caught, threads`value, threads`threads, threads.list, threads.list.nodes`next
      ensures Valid() && now == Next(Conf(), old(now), JoinOne)
    {
      Move(JoinOne);
      CatchDone();
    }

    /** All decode threads came back. */
    method EndJoin()
      requires Valid() && Enabled(Conf(), now, JoinEnd)
      modifies `now, `cthreads
      ensures Valid() && now == Next(Conf(), old(now), JoinEnd)
    {
      Move(JoinEnd);
      assert threads.list.head == null && caught == cthreads;
      NoThreads();
    }

    method NoThreads()
      modifies `cthreads
      ensures cthreads == 0
    {
      cthreads := 0;
    }

    /** All spaces came back, and every frame was delivered. */
    method FreeAll() returns (outCount: nat, inCount: nat)
      requires Valid() && Enabled(Conf(), now, FreeStep)
      modifies `now, inPool, outPool
      ensures now == Next(Conf(), old(now), FreeStep) && Reachable(Conf(), now) && now.producer.Destroyed?
      ensures outCount == old(outPool.made) && inCount == old(inPool.made)
      ensures events == Expected(Conf(), |frames|)
    {
      AllBack(Conf(), now);
      Move(FreeStep);
      outCount := outPool.Free(-1);
      inCount := inPool.Free(InLimit(Conf()));
    }
  }
}
