/** The inductive invariant of the parallel decoder. */
module DstInvariant {
  import opened BufferPool
  import opened DstPipeline

  // ----- where the jobs are -----

  predicate Closing(s: State) { s.producer.JoinAll? || s.producer.FreePools? || s.producer.Destroyed? }

  predicate InProducer(s: State) { s.producer.Fill? || s.producer.Launch? || s.producer.Append? }

  predicate WriterBusy(s: State) { s.writer.Report? || s.writer.Emit? || s.writer.DropOut? }

  predicate WriterLeft(s: State) { s.writer.CheckDecode? || s.writer.CheckWrite? || s.writer.Returning? || s.writer.Ended? }

  predicate HasJob(d: Decoder) { d.NeedOut? || d.Decoding? || d.DropIn? || d.Insert? }

  /** How far a decode thread is with its job; 0 without one. */
  function Stage(d: Decoder): nat {
    match d
    case NeedOut(_) => 1
    case Decoding(_) => 2
    case DropIn(_) => 3
    case Insert(_) => 4
    case _ => 0
  }

  predicate Holds(d: Decoder, p: int, lo: nat, hi: nat) { HasJob(d) && d.job == p && lo <= Stage(d) <= hi }

  /** Some decode thread has job p and is between the given stages. */
  ghost predicate At(ds: seq<Decoder>, p: int, lo: nat, hi: nat) {
    exists d :: 0 <= d < |ds| && Holds(ds[d], p, lo, hi)
  }

  /** Jobs below Appended were put on the decode list, jobs below Taken were taken off it, and jobs
      below Claimed were taken by the write thread. */
  function Appended(s: State): int { |s.jobs| - (if InProducer(s) then 1 else 0) }

  function Taken(s: State): int { Appended(s) - (if Closing(s) then 0 else |s.decodeList|) }

  function Claimed(s: State): int { s.writerSeq + (if WriterBusy(s) then 1 else 0) }

  ghost predicate JobsInv(c: Config, s: State) {
    && s.sequence == |s.jobs| - (if s.producer.Fill? then 1 else 0)
    && |s.jobs| <= |c.frames| + 1
    && (forall p :: 0 <= p < |s.jobs| ==> s.jobs[p].number == p && (s.jobs[p].more <==> p < |c.frames|))
    && (s.producer.Ready? || s.producer.Fill? ==> |s.jobs| <= |c.frames|)
    && (InProducer(s) ==> |s.jobs| >= 1 && s.producer.job == |s.jobs| - 1)
    && (!s.producer.Ready? && !InProducer(s) ==> |s.jobs| == |c.frames| + 1)
  }

  ghost predicate DecodeInv(c: Config, s: State) {
    && s.decodeHave == |s.decodeList|
    && (if Closing(s) then s.decodeList == [STOP]
        else Taken(s) >= 0 && forall i :: 0 <= i < |s.decodeList| ==> s.decodeList[i] == Taken(s) + i)
    && |s.decoders| <= c.procs
    && (s.producer.FreePools? || s.producer.Destroyed? || s.cthreads == |s.decoders|)
    && (Appended(s) >= 1 || s.producer.Append? ==> |s.decoders| >= 1)
  }

  ghost predicate HandsInv(c: Config, s: State) {
    && (forall d: nat :: d < |s.decoders| && HasJob(s.decoders[d]) ==>
          && Claimed(s) <= s.decoders[d].job < Taken(s)
          && s.decoders[d].job !in s.writeList
          && (s.decoders[d].Insert? || s.decoders[d].job < |c.frames|))
    && (forall d: nat, e: nat :: d < e < |s.decoders| && HasJob(s.decoders[d]) && HasJob(s.decoders[e]) ==>
          s.decoders[d].job != s.decoders[e].job)
    && (forall d: nat :: d < |s.decoders| && (s.decoders[d].Leaving? || s.decoders[d].Gone?) ==> Closing(s))
  }

  ghost predicate WriteInv(c: Config, s: State) {
    && Claimed(s) <= Taken(s)
    && (forall i, j :: 0 <= i < j < |s.writeList| ==> s.writeList[i] < s.writeList[j])
    && (forall i :: 0 <= i < |s.writeList| ==> Claimed(s) <= s.writeList[i] < Taken(s))
    && s.writeFirst == (if s.writeList == [] then -1 else s.writeList[0])
    && (WriterBusy(s) ==> s.writer.job == s.writerSeq)
    && (s.writer.Emit? || s.writer.DropOut? ==> s.writerSeq < |c.frames|)
    && s.writerSeq == (if WriterLeft(s) then |c.frames| + 1 else s.writerSeq)
    && (!WriterLeft(s) ==> s.writerSeq <= |c.frames|)
    && (s.producer.SendStop? || Closing(s) ==> s.writer.Ended?)
  }

  /** No job is lost: what was taken off the decode list and not yet claimed by the write thread is
      in a decode thread's hands or on the write list. */
  ghost predicate NothingLost(s: State) {
    forall p :: Claimed(s) <= p < Taken(s) ==> p in s.writeList || At(s.decoders, p, 1, 4)
  }

  // ----- buffers -----

  /** Job p still owns its input space. */
  ghost predicate InLive(c: Config, s: State, p: int) {
    0 <= p < |s.jobs| && p < |c.frames| && (p >= Taken(s) || At(s.decoders, p, 1, 3))
  }

  /** Job p owns an output space. */
  ghost predicate OutLive(c: Config, s: State, p: int) {
    && 0 <= p < |s.jobs| && p < |c.frames|
    && (At(s.decoders, p, 2, 4) || p in s.writeList || (WriterBusy(s) && s.writer.job == p))
  }

  ghost function InOwners(c: Config, s: State): set<int> { set p | 0 <= p < |s.jobs| && InLive(c, s, p) }

  ghost function OutOwners(c: Config, s: State): set<int> { set p | 0 <= p < |s.jobs| && OutLive(c, s, p) }

  function Space(j: Job, out: bool): int { if out then j.outBuf else j.inBuf }

  /** The jobs in `owners` use different spaces, and together exactly those with a use count, which
      is one. */
  ghost predicate Owned(pool: Pool, owners: set<int>, jobs: seq<Job>, out: bool)
    requires |pool.use| == pool.made
  {
    && (forall p :: p in owners ==> 0 <= p < |jobs| && 0 <= Space(jobs[p], out) < pool.made && pool.use[Space(jobs[p], out)] == 1)
    && (forall p, q :: p in owners && q in owners && p != q ==> Space(jobs[p], out) != Space(jobs[q], out))
    && (forall b :: 0 <= b < pool.made && pool.use[b] != 0 ==> exists p :: p in owners && Space(jobs[p], out) == b)
  }

  ghost predicate InInv(c: Config, s: State) {
    && PoolInv(s.inPool, InLimit(c))
    && |s.inMem| == s.inPool.made
    && Owned(s.inPool, InOwners(c, s), s.jobs, false)
    && (forall p :: p in InOwners(c, s) && !(s.producer.Fill? && s.producer.job == p) ==> s.inMem[s.jobs[p].inBuf] == c.frames[p])
  }

  ghost predicate OutInv(c: Config, s: State) {
    && PoolInv(s.outPool, -1)
    && |s.outMem| == s.outPool.made
    && Owned(s.outPool, OutOwners(c, s), s.jobs, true)
    && (forall p :: p in OutOwners(c, s) && !At(s.decoders, p, 2, 2) ==>
          s.outMem[s.jobs[p].outBuf] == c.decode(c.frames[p], p).dsd && s.jobs[p].error == c.decode(c.frames[p], p).error)
    && (forall p :: |c.frames| <= p < |s.jobs| ==> s.jobs[p].error == 0)
  }

  // ----- the thread list -----

  function CountDone(threads: seq<Thread>): nat {
    if threads == [] then 0 else (if threads[0].done then 1 else 0) + CountDone(threads[1..])
  }

  ghost predicate ThreadListed(threads: seq<Thread>, id: Id) { exists k :: 0 <= k < |threads| && threads[k].id == id }

  predicate WriterJoined(s: State) { s.producer.SendStop? || Closing(s) }

  ghost predicate ThreadsInv(c: Config, s: State) {
    && s.threadsDone == CountDone(s.threads)
    && (forall i, j :: 0 <= i < j < |s.threads| ==> s.threads[i].id != s.threads[j].id)
    && (forall i :: 0 <= i < |s.threads| ==>
          match s.threads[i].id
          case WriterId => !WriterJoined(s) && (s.threads[i].done <==> s.writer.Ended?)
          case DecoderId(d) => d < |s.decoders| && (s.threads[i].done <==> s.decoders[d].Gone?))
    && (!WriterJoined(s) ==> ThreadListed(s.threads, WriterId))
    && (forall d: nat :: d < |s.decoders| && !s.decoders[d].Gone? ==> ThreadListed(s.threads, DecoderId(d)))
    && |s.threads| + s.caught == |s.decoders| + (if WriterJoined(s) then 0 else 1)
    && (s.producer.FreePools? || s.producer.Destroyed? ==> s.threads == [])
  }

  // ----- what has been delivered -----

  /** The events of the first n frames: for each, its error if there is one, then its data. */
  function Expected(c: Config, n: nat): seq<Event>
    requires n <= |c.frames|
  {
    if n == 0 then [] else Expected(c, n - 1) + ErrorEvents(c, n - 1) + [Frame(c.decode(c.frames[n - 1], n - 1).dsd)]
  }

  function ErrorEvents(c: Config, p: nat): seq<Event>
    requires p < |c.frames|
  {
    var r := c.decode(c.frames[p], p);
    if r.error != 0 && c.reportErrors then [Error(p, r.error)] else []
  }

  ghost predicate EventsInv(c: Config, s: State)
    requires s.writerSeq <= |c.frames| + 1
    requires s.writer.Emit? || s.writer.DropOut? ==> s.writerSeq < |c.frames|
  {
    s.events ==
      if s.writer.Emit? then Expected(c, s.writerSeq) + ErrorEvents(c, s.writerSeq)
      else if s.writer.DropOut? then Expected(c, s.writerSeq + 1)
      else Expected(c, if s.writerSeq <= |c.frames| then s.writerSeq else |c.frames|)
  }

  ghost predicate Inv(c: Config, s: State) {
    && !s.failed
    && JobsInv(c, s)
    && DecodeInv(c, s)
    && HandsInv(c, s)
    && WriteInv(c, s)
    && NothingLost(s)
    && InInv(c, s)
    && OutInv(c, s)
    && ThreadsInv(c, s)
    && EventsInv(c, s)
  }

  lemma InitInv(c: Config)
    ensures Inv(c, Init(c))
  {
  }
}
