/** Every step of the parallel decoder keeps the invariant. */
module DstSteps {
  import opened BufferPool
  import opened DstPipeline
  import opened DstInvariant

  // ----- lists of decode threads -----

  /** Replacing one decode thread's record moves only its own old and new job. */
  lemma AtUpdate(ds: seq<Decoder>, d: nat, x: Decoder, lo: nat, hi: nat)
    requires d < |ds| && lo >= 1
    requires forall e :: 0 <= e < |ds| && e != d && HasJob(ds[e]) ==>
               && (HasJob(ds[d]) ==> ds[e].job != ds[d].job)
               && (HasJob(x) ==> ds[e].job != x.job)
    ensures forall p :: At(ds[d := x], p, lo, hi) <==>
              if HasJob(x) && x.job == p then lo <= Stage(x) <= hi
              else if HasJob(ds[d]) && ds[d].job == p then false
              else At(ds, p, lo, hi)
  {
    var us := ds[d := x];
    forall p
      ensures At(us, p, lo, hi) <==>
              if HasJob(x) && x.job == p then lo <= Stage(x) <= hi
              else if HasJob(ds[d]) && ds[d].job == p then false
              else At(ds, p, lo, hi)
    {
      if At(us, p, lo, hi) {
        var e :| 0 <= e < |us| && Holds(us[e], p, lo, hi);
        assert e != d ==> Holds(ds[e], p, lo, hi);
      }
      if HasJob(x) && x.job == p && lo <= Stage(x) <= hi {
        assert Holds(us[d], p, lo, hi);
      }
      if At(ds, p, lo, hi) {
        var e :| 0 <= e < |ds| && Holds(ds[e], p, lo, hi);
        assert e != d ==> Holds(us[e], p, lo, hi);
      }
    }
  }

  lemma AtAppendIdle(ds: seq<Decoder>, lo: nat, hi: nat)
    ensures forall p :: At(ds + [Idle], p, lo, hi) <==> At(ds, p, lo, hi)
  {
    var us := ds + [Idle];
    forall p ensures At(us, p, lo, hi) <==> At(ds, p, lo, hi) {
      if At(us, p, lo, hi) {
        var e :| 0 <= e < |us| && Holds(us[e], p, lo, hi);
        assert Holds(ds[e], p, lo, hi);
      }
      if At(ds, p, lo, hi) {
        var e :| 0 <= e < |ds| && Holds(ds[e], p, lo, hi);
        assert Holds(us[e], p, lo, hi);
      }
    }
  }

  // ----- the write list -----

  predicate Ascending(list: seq<nat>) { forall i, j :: 0 <= i < j < |list| ==> list[i] < list[j] }

  lemma {:induction false} InsertedSorted(jobs: seq<Job>, list: seq<nat>, job: nat)
    requires job < |jobs| && job !in list && Ascending(list)
    requires forall i :: 0 <= i < |list| ==> list[i] < |jobs|
    requires forall p :: 0 <= p < |jobs| ==> jobs[p].number == p
    ensures Ascending(Inserted(jobs, list, job))
    ensures forall x :: x in Inserted(jobs, list, job) <==> x == job || x in list
  {
    var r := Inserted(jobs, list, job);
    if list == [] || jobs[list[0]].number > jobs[job].number {
      assert r == [job] + list;
    } else {
      var rest := list[1..];
      InsertedSorted(jobs, rest, job);
      assert r == [list[0]] + Inserted(jobs, rest, job);
      assert forall x :: x in list <==> x == list[0] || x in rest;
      forall i, j | 0 <= i < j < |r| ensures r[i] < r[j] {
        if i == 0 {
          assert r[j] in Inserted(jobs, rest, job);
          if r[j] != job {
            var k :| 0 <= k < |rest| && rest[k] == r[j];
            assert list[0] < list[k + 1];
          } else {
            assert list[0] in list;
          }
        }
      }
    }
  }

  // ----- the thread list -----

  lemma {:induction false} CountDoneWithout(ts: seq<Thread>, k: nat)
    requires k < |ts|
    ensures CountDone(Without(ts, k)) == CountDone(ts) - (if ts[k].done then 1 else 0)
  {
    if k == 0 {
      assert Without(ts, 0) == ts[1..];
    } else {
      CountDoneWithout(ts[1..], k - 1);
      assert Without(ts, k) == [ts[0]] + Without(ts[1..], k - 1);
    }
  }

  lemma {:induction false} CountDoneZero(ts: seq<Thread>)
    ensures CountDone(ts) == 0 <==> FirstDone(ts) == |ts|
  {
    if ts != [] { CountDoneZero(ts[1..]); }
  }

  lemma WithoutListed(ts: seq<Thread>, k: nat, id: Id)
    requires k < |ts|
    ensures ThreadListed(ts, id) && id != ts[k].id ==> ThreadListed(Without(ts, k), id)
  {
    if ThreadListed(ts, id) && id != ts[k].id {
      var i :| 0 <= i < |ts| && ts[i].id == id;
      var us := Without(ts, k);
      if i < k { assert us[i].id == id; } else { assert us[i - 1].id == id; }
    }
  }

  lemma ListedAfter(t: Thread, ts: seq<Thread>, id: Id)
    ensures ThreadListed([t] + ts, id) <==> t.id == id || ThreadListed(ts, id)
  {
    var us := [t] + ts;
    if ThreadListed(ts, id) {
      var i :| 0 <= i < |ts| && ts[i].id == id;
      assert us[i + 1].id == id;
    }
    if t.id == id { assert us[0].id == id; }
    if ThreadListed(us, id) && t.id != id {
      var i :| 0 <= i < |us| && us[i].id == id;
      assert ts[i - 1].id == id;
    }
  }

  // ----- spaces -----

  lemma OwnedTake(pool: Pool, limit: int, owners: set<int>, jobs: seq<Job>, out: bool, p: int, jobs': seq<Job>)
    requires PoolInv(pool, limit) && CanGet(pool) && Owned(pool, owners, jobs, out) && p !in owners
    requires 0 <= p < |jobs'| && |jobs| <= |jobs'| && Space(jobs'[p], out) == Get(pool).1
    requires forall q :: 0 <= q < |jobs| && q != p ==> jobs'[q] == jobs[q]
    ensures PoolInv(Get(pool).0, limit) && Owned(Get(pool).0, owners + {p}, jobs', out)
  {
    GetKeeps(pool, limit);
    var (pool', b) := Get(pool);
    forall c | 0 <= c < pool'.made && pool'.use[c] != 0 ensures exists q :: q in owners + {p} && Space(jobs'[q], out) == c {
      if c == b {
        assert p in owners + {p} && Space(jobs'[p], out) == b;
      } else {
        var q :| q in owners && Space(jobs[q], out) == c;
        assert q in owners + {p};
      }
    }
  }

  lemma OwnedDrop(pool: Pool, limit: int, owners: set<int>, jobs: seq<Job>, out: bool, p: int)
    requires PoolInv(pool, limit) && Owned(pool, owners, jobs, out) && p in owners
    ensures var pool' := Drop(pool, Space(jobs[p], out));
            PoolInv(pool', limit) && pool'.made == pool.made && Owned(pool', owners - {p}, jobs, out)
  {
    var b := Space(jobs[p], out);
    DropKeeps(pool, b, limit);
    var pool' := Drop(pool, b);
    forall c | 0 <= c < pool'.made && pool'.use[c] != 0 ensures exists q :: q in owners - {p} && Space(jobs[q], out) == c {
      var q :| q in owners && Space(jobs[q], out) == c;
      assert q in owners - {p};
    }
  }

  lemma OwnedSame(pool: Pool, owners: set<int>, jobs: seq<Job>, jobs': seq<Job>, out: bool)
    requires |pool.use| == pool.made && Owned(pool, owners, jobs, out) && |jobs| <= |jobs'|
    requires forall q :: q in owners ==> 0 <= q < |jobs'| && Space(jobs'[q], out) == Space(jobs[q], out)
    ensures Owned(pool, owners, jobs', out)
  {
    forall c | 0 <= c < pool.made && pool.use[c] != 0 ensures exists q :: q in owners && Space(jobs'[q], out) == c {
      var q :| q in owners && Space(jobs[q], out) == c;
      assert Space(jobs'[q], out) == c;
    }
  }

  // ----- positions: the decode list, the write list and the jobs in hand -----

  ghost predicate Positions(c: Config, s: State) {
    JobsInv(c, s) && DecodeInv(c, s) && HandsInv(c, s) && WriteInv(c, s)
  }

  /** The steps of the producer and of thread bookkeeping. */
  lemma PositionsProducer(c: Config, s: State, step: Step)
    requires Positions(c, s) && Enabled(c, s, step) && !s.failed && !Next(c, s, step).failed
    requires step.TakeIn? || step.FillIn? || step.Finish?
    ensures Positions(c, Next(c, s, step))
  {
  }

  lemma PositionsAppend(c: Config, s: State)
    requires Positions(c, s) && Enabled(c, s, AppendJob) && !s.failed
    ensures !DoAppend(c, s).failed && Positions(c, DoAppend(c, s))
  {
  }

  lemma PositionsLaunch(c: Config, s: State)
    requires c.procs >= 1 && Positions(c, s) && Enabled(c, s, LaunchDecoder)
    ensures Positions(c, DoLaunch(c, s))
  {
  }

  /** Positions depend neither on the thread list nor on which of these closing phases it is. */
  lemma PositionsFrame(c: Config, s: State, t: State)
    requires Positions(c, s) && t.jobs == s.jobs && t.sequence == s.sequence && t.decodeHave == s.decodeHave && t.decodeList == s.decodeList
    requires t.writeFirst == s.writeFirst && t.writeList == s.writeList && t.decoders == s.decoders && t.writer == s.writer && t.writerSeq == s.writerSeq
    requires (s.producer.JoinWriter? && t.producer.SendStop? && s.writer.Ended? && t.cthreads == s.cthreads)
          || (s.producer.JoinAll? && t.producer.JoinAll? && t.cthreads == s.cthreads)
          || (s.producer.JoinAll? && t.producer.FreePools?) || (s.producer.FreePools? && t.producer.Destroyed?)
    ensures Positions(c, t)
  {
  }

  lemma PositionsSendStop(c: Config, s: State)
    requires Positions(c, s) && Enabled(c, s, SendStopStep)
    ensures Positions(c, DoSendStop(c, s))
  {
  }

  lemma PositionsClosing(c: Config, s: State, step: Step)
    requires Positions(c, s) && Enabled(c, s, step) && !s.failed && !Next(c, s, step).failed
    requires step.JoinWriterStep? || step.JoinOne? || step.JoinEnd? || step.FreeStep?
    ensures Positions(c, Next(c, s, step))
  {
    PositionsFrame(c, s, Next(c, s, step));
  }

  lemma PositionsTakeJob(c: Config, s: State, d: nat)
    requires Positions(c, s) && Enabled(c, s, TakeJob(d)) && !s.failed
    ensures !DoTakeJob(c, s, d).failed && Positions(c, DoTakeJob(c, s, d))
  {
  }

  lemma PositionsTakeOut(c: Config, s: State, d: nat)
    requires Positions(c, s) && Enabled(c, s, TakeOut(d)) && !s.failed && !DoTakeOut(c, s, d).failed
    ensures Positions(c, DoTakeOut(c, s, d))
  {
  }

  lemma PositionsDecode(c: Config, s: State, d: nat)
    requires Positions(c, s) && Enabled(c, s, Decode(d)) && !s.failed && !DoDecode(c, s, d).failed
    ensures Positions(c, DoDecode(c, s, d))
  {
  }

  lemma PositionsDropIn(c: Config, s: State, d: nat)
    requires Positions(c, s) && Enabled(c, s, DropInStep(d)) && !s.failed && !DoDropIn(c, s, d).failed
    ensures Positions(c, DoDropIn(c, s, d))
  {
  }

  lemma PositionsLeave(c: Config, s: State, d: nat)
    requires Positions(c, s) && Enabled(c, s, Leave(d)) && !s.failed && !DoLeave(c, s, d).failed
    ensures Positions(c, DoLeave(c, s, d))
  {
  }

  /** The write list after an insertion: still ascending, headed by the number announced. */
  lemma InsertedList(c: Config, s: State, d: nat)
    requires Positions(c, s) && Enabled(c, s, InsertJob(d)) && !s.failed
    ensures var t := DoInsert(c, s, d);
            && !t.failed && Ascending(t.writeList) && t.writeList != [] && t.writeFirst == t.writeList[0]
            && (forall p :: p in t.writeList <==> p == s.decoders[d].job || p in s.writeList)
            && (forall i :: 0 <= i < |t.writeList| ==> Claimed(s) <= t.writeList[i] < Taken(s))
  {
    var job := s.decoders[d].job;
    InsertedSorted(s.jobs, s.writeList, job);
    var list := Inserted(s.jobs, s.writeList, job);
    forall i | 0 <= i < |list| ensures Claimed(s) <= list[i] < Taken(s) {
      assert list[i] in list;
    }
  }

  lemma PositionsInsert(c: Config, s: State, d: nat)
    requires Positions(c, s) && Enabled(c, s, InsertJob(d)) && !s.failed
    ensures !DoInsert(c, s, d).failed && Positions(c, DoInsert(c, s, d))
  {
    InsertedList(c, s, d);
  }

  lemma PositionsTakeResult(c: Config, s: State)
    requires Positions(c, s) && Enabled(c, s, TakeResult) && !s.failed
    ensures !DoTakeResult(c, s).failed && Positions(c, DoTakeResult(c, s))
  {
  }

  lemma PositionsReport(c: Config, s: State)
    requires Positions(c, s) && Enabled(c, s, ReportStep) && !s.failed
    ensures !DoReport(c, s).failed && Positions(c, DoReport(c, s))
  {
  }

  lemma PositionsWriter(c: Config, s: State, step: Step)
    requires Positions(c, s) && Enabled(c, s, step) && !s.failed && !Next(c, s, step).failed
    requires step.EmitStep? || step.DropOutStep?
    ensures Positions(c, Next(c, s, step))
  {
  }

  /** Behind the last job nothing is left on either list. */
  lemma NothingLeft(c: Config, s: State)
    requires Positions(c, s) && WriterLeft(s)
    ensures !Closing(s) ==> s.decodeList == [] && s.decodeHave == 0
    ensures s.writeList == [] && s.writeFirst == -1
  {
  }

  lemma PositionsCheckDecode(c: Config, s: State)
    requires Positions(c, s) && Enabled(c, s, CheckDecodeStep) && !s.failed
    ensures !DoCheckDecode(c, s).failed && Positions(c, DoCheckDecode(c, s))
  {
    NothingLeft(c, s);
  }

  lemma PositionsCheckWrite(c: Config, s: State)
    requires Positions(c, s) && Enabled(c, s, CheckWriteStep) && !s.failed
    ensures !DoCheckWrite(c, s).failed && Positions(c, DoCheckWrite(c, s))
  {
    NothingLeft(c, s);
  }

  lemma PositionsReturn(c: Config, s: State)
    requires Positions(c, s) && Enabled(c, s, WriterReturn) && !s.failed && !DoReturn(c, s).failed
    ensures Positions(c, DoReturn(c, s))
  {
  }

  /** The write thread's closing assertions hold. */
  lemma PositionsEnd(c: Config, s: State, step: Step)
    requires Positions(c, s) && Enabled(c, s, step) && !s.failed
    requires step.CheckDecodeStep? || step.CheckWriteStep? || (step.WriterReturn? && !Next(c, s, step).failed)
    ensures !Next(c, s, step).failed && Positions(c, Next(c, s, step))
  {
    match step {
      case CheckDecodeStep => PositionsCheckDecode(c, s);
      case CheckWriteStep => PositionsCheckWrite(c, s);
      case WriterReturn => PositionsReturn(c, s);
    }
  }

  // ----- parts a step does not concern -----

  /** The thread list stays in order when no thread starts, ends or is joined. */
  lemma ThreadsFrame(c: Config, s: State, t: State)
    requires ThreadsInv(c, s) && t.threads == s.threads && t.threadsDone == s.threadsDone && t.caught == s.caught
    requires |t.decoders| == |s.decoders|
    requires forall d :: 0 <= d < |s.decoders| ==> (t.decoders[d].Gone? <==> s.decoders[d].Gone?)
    requires t.writer.Ended? <==> s.writer.Ended?
    requires WriterJoined(t) <==> WriterJoined(s)
    requires t.producer.FreePools? || t.producer.Destroyed? ==> t.threads == []
    ensures ThreadsInv(c, t)
  {
  }

  lemma ThreadsProducer(c: Config, s: State, step: Step)
    requires ThreadsInv(c, s) && Enabled(c, s, step) && !s.failed && !Next(c, s, step).failed
    requires step.TakeIn? || step.FillIn? || step.Finish? || step.AppendJob? || step.SendStopStep? || step.JoinEnd? || step.FreeStep?
    ensures ThreadsInv(c, Next(c, s, step))
  {
    ThreadsFrame(c, s, Next(c, s, step));
  }

  lemma ThreadsDecoder(c: Config, s: State, step: Step)
    requires ThreadsInv(c, s) && Enabled(c, s, step) && !s.failed && !Next(c, s, step).failed
    requires step.TakeJob? || step.TakeOut? || step.Decode? || step.DropInStep? || step.InsertJob?
    ensures ThreadsInv(c, Next(c, s, step))
  {
    ThreadsFrame(c, s, Next(c, s, step));
  }

  lemma ThreadsWriter(c: Config, s: State, step: Step)
    requires ThreadsInv(c, s) && Enabled(c, s, step) && !s.failed && !Next(c, s, step).failed
    requires step.TakeResult? || step.ReportStep? || step.EmitStep? || step.DropOutStep? || step.CheckDecodeStep? || step.CheckWriteStep?
    ensures ThreadsInv(c, Next(c, s, step))
  {
    ThreadsFrame(c, s, Next(c, s, step));
  }

  lemma EventsFrame(c: Config, s: State, t: State)
    requires WriteInv(c, s) && EventsInv(c, s) && WriteInv(c, t)
    requires t.events == s.events && t.writerSeq == s.writerSeq
    requires (t.writer.Emit? <==> s.writer.Emit?) && (t.writer.DropOut? <==> s.writer.DropOut?)
    ensures EventsInv(c, t)
  {
  }

  lemma EventsProducer(c: Config, s: State, step: Step)
    requires WriteInv(c, s) && EventsInv(c, s) && Enabled(c, s, step) && !s.failed && !Next(c, s, step).failed
    requires WriteInv(c, Next(c, s, step))
    requires step.TakeIn? || step.FillIn? || step.Finish? || step.LaunchDecoder? || step.AppendJob? || step.JoinWriterStep? || step.SendStopStep? || step.JoinOne? || step.JoinEnd? || step.FreeStep?
    ensures EventsInv(c, Next(c, s, step))
  {
    EventsFrame(c, s, Next(c, s, step));
  }

  lemma DecoderQuiet(c: Config, s: State, step: Step)
    requires Enabled(c, s, step) && !s.failed && !Next(c, s, step).failed
    requires step.TakeJob? || step.TakeOut? || step.Decode? || step.DropInStep? || step.InsertJob? || step.Leave?
    ensures var t := Next(c, s, step); t.events == s.events && t.writer == s.writer && t.writerSeq == s.writerSeq
  {
  }

  lemma EventsDecoder(c: Config, s: State, step: Step)
    requires WriteInv(c, s) && EventsInv(c, s) && Enabled(c, s, step) && !s.failed && !Next(c, s, step).failed
    requires WriteInv(c, Next(c, s, step))
    requires step.TakeJob? || step.TakeOut? || step.Decode? || step.DropInStep? || step.InsertJob? || step.Leave?
    ensures EventsInv(c, Next(c, s, step))
  {
    DecoderQuiet(c, s, step);
    EventsFrame(c, s, Next(c, s, step));
  }

  lemma EventsWriter(c: Config, s: State, step: Step)
    requires WriteInv(c, s) && EventsInv(c, s) && Enabled(c, s, step) && !s.failed && !Next(c, s, step).failed
    requires WriteInv(c, Next(c, s, step))
    requires step.TakeResult? || step.CheckDecodeStep? || step.CheckWriteStep? || step.WriterReturn?
    ensures EventsInv(c, Next(c, s, step))
  {
    EventsFrame(c, s, Next(c, s, step));
  }

  // ----- no job is lost -----

  lemma LostFrame(s: State, t: State)
    requires NothingLost(s) && t.writeList == s.writeList && Claimed(t) == Claimed(s) && Taken(t) == Taken(s)
    requires forall p :: At(s.decoders, p, 1, 4) ==> At(t.decoders, p, 1, 4)
    ensures NothingLost(t)
  {
  }

  lemma LostProducer(c: Config, s: State, step: Step)
    requires Positions(c, s) && NothingLost(s) && Enabled(c, s, step) && !s.failed && !Next(c, s, step).failed
    requires step.TakeIn? || step.FillIn? || step.Finish? || step.AppendJob? || step.JoinWriterStep? || step.SendStopStep? || step.JoinOne? || step.JoinEnd? || step.FreeStep?
    ensures NothingLost(Next(c, s, step))
  {
    LostFrame(s, Next(c, s, step));
  }

  lemma LostWriter(c: Config, s: State, step: Step)
    requires Positions(c, s) && NothingLost(s) && Enabled(c, s, step) && !s.failed && !Next(c, s, step).failed
    requires step.ReportStep? || step.EmitStep? || step.DropOutStep? || step.CheckDecodeStep? || step.CheckWriteStep? || step.WriterReturn?
    ensures NothingLost(Next(c, s, step))
  {
    LostFrame(s, Next(c, s, step));
  }

  lemma LostDecoder(c: Config, s: State, step: Step, d: nat)
    requires Positions(c, s) && NothingLost(s) && Enabled(c, s, step) && !s.failed && !Next(c, s, step).failed
    requires step == TakeOut(d) || step == Decode(d) || step == DropInStep(d) || step == Leave(d)
    ensures NothingLost(Next(c, s, step))
  {
    var t := Next(c, s, step);
    AtUpdate(s.decoders, d, t.decoders[d], 1, 4);
    LostFrame(s, t);
  }

  lemma LostTakeJob(c: Config, s: State, d: nat)
    requires Positions(c, s) && NothingLost(s) && Enabled(c, s, TakeJob(d)) && !s.failed
    ensures NothingLost(DoTakeJob(c, s, d))
  {
    AtUpdate(s.decoders, d, DoTakeJob(c, s, d).decoders[d], 1, 4);
  }

  lemma LostInsert(c: Config, s: State, d: nat)
    requires Positions(c, s) && NothingLost(s) && Enabled(c, s, InsertJob(d)) && !s.failed
    ensures NothingLost(DoInsert(c, s, d))
  {
    var t := DoInsert(c, s, d);
    var job := s.decoders[d].job;
    InsertedSorted(s.jobs, s.writeList, job);
    AtUpdate(s.decoders, d, Idle, 1, 4);
    forall p | Claimed(t) <= p < Taken(t) ensures p in t.writeList || At(t.decoders, p, 1, 4) {
      assert p in s.writeList || At(s.decoders, p, 1, 4);
    }
  }

  lemma LostTakeResult(c: Config, s: State)
    requires Positions(c, s) && NothingLost(s) && Enabled(c, s, TakeResult) && !s.failed
    ensures NothingLost(DoTakeResult(c, s))
  {
    var t := DoTakeResult(c, s);
    forall p | Claimed(t) <= p < Taken(t) ensures p in t.writeList || At(t.decoders, p, 1, 4) {
      assert p in s.writeList || At(s.decoders, p, 1, 4);
      assert p in s.writeList ==> p == s.writeList[0] || p in s.writeList[1..];
    }
  }

  // ----- the thread list -----

  lemma ThreadsGrow(c: Config, s: State, t: State)
    requires ThreadsInv(c, s) && t.decoders == s.decoders + [Idle]
    requires t.threads == [Thread(DecoderId(|s.decoders|), false)] + s.threads && t.threadsDone == s.threadsDone
    requires t.caught == s.caught && t.writer == s.writer && WriterJoined(t) == WriterJoined(s)
    requires !t.producer.FreePools? && !t.producer.Destroyed?
    ensures ThreadsInv(c, t)
  {
    var thread := t.threads[0];
    ListedAfter(thread, s.threads, WriterId);
    forall d: nat | d < |t.decoders| && !t.decoders[d].Gone? ensures ThreadListed(t.threads, DecoderId(d)) {
      ListedAfter(thread, s.threads, DecoderId(d));
      assert d < |s.decoders| ==> t.decoders[d] == s.decoders[d];
    }
  }

  lemma ThreadsLaunch(c: Config, s: State)
    requires s.cthreads == |s.decoders| && ThreadsInv(c, s) && Enabled(c, s, LaunchDecoder)
    ensures ThreadsInv(c, DoLaunch(c, s))
  {
    if s.cthreads < c.procs {
      ThreadsGrow(c, s, DoLaunch(c, s));
    } else {
      ThreadsFrame(c, s, DoLaunch(c, s));
    }
  }

  lemma ThreadsWithout(c: Config, s: State, t: State, k: nat)
    requires ThreadsInv(c, s) && k < |s.threads| && s.threads[k].done
    requires t.threads == Without(s.threads, k) && t.threadsDone == s.threadsDone - 1 && t.decoders == s.decoders && t.writer == s.writer
    requires if s.threads[k].id.WriterId? then WriterJoined(t) && t.caught == s.caught else WriterJoined(t) == WriterJoined(s) && t.caught == s.caught + 1
    requires !t.producer.FreePools? && !t.producer.Destroyed?
    ensures ThreadsInv(c, t)
  {
    CountDoneWithout(s.threads, k);
    WithoutListed(s.threads, k, WriterId);
    forall d | 0 <= d < |t.decoders| && !t.decoders[d].Gone? ensures ThreadListed(t.threads, DecoderId(d)) {
      WithoutListed(s.threads, k, DecoderId(d));
    }
  }

  lemma ThreadsJoinWriter(c: Config, s: State)
    requires ThreadsInv(c, s) && Enabled(c, s, JoinWriterStep) && !s.failed
    ensures !DoJoinWriter(c, s).failed && ThreadsInv(c, DoJoinWriter(c, s))
  {
    var k := FindThread(s.threads, WriterId);
    assert k < |s.threads| by {
      assert ThreadListed(s.threads, WriterId);
    }
    ThreadsWithout(c, s, DoJoinWriter(c, s), k);
  }

  /** join_all finds a thread marked done whenever the count is not zero. */
  lemma ThreadsJoinOne(c: Config, s: State)
    requires ThreadsInv(c, s) && Enabled(c, s, JoinOne) && !s.failed
    ensures !DoJoinOne(c, s).failed && ThreadsInv(c, DoJoinOne(c, s))
  {
    CountDoneZero(s.threads);
    ThreadsWithout(c, s, DoJoinOne(c, s), FirstDone(s.threads));
  }

  /** `reenter` finds its own thread, keeps every other one, and counts itself. */
  lemma ReenterList(ts: seq<Thread>, id: Id)
    requires ThreadListed(ts, id)
    requires forall i, j :: 0 <= i < j < |ts| ==> ts[i].id != ts[j].id
    requires forall i :: 0 <= i < |ts| && ts[i].id == id ==> !ts[i].done
    ensures FindThread(ts, id) < |ts|
    ensures var us := [Thread(id, true)] + Without(ts, FindThread(ts, id));
            && CountDone(us) == CountDone(ts) + 1
            && (forall i, j :: 0 <= i < j < |us| ==> us[i].id != us[j].id)
            && (forall i :: 0 <= i < |us| ==> us[i] == Thread(id, true) || (us[i] in ts && us[i].id != id))
            && (forall other: Id :: ThreadListed(ts, other) ==> ThreadListed(us, other))
  {
    var k := FindThread(ts, id);
    assert k < |ts|;
    var rest := Without(ts, k);
    var us := [Thread(id, true)] + rest;
    CountDoneWithout(ts, k);
    assert us[1..] == rest;
    assert forall i :: 0 <= i < |rest| ==> rest[i].id != id;
    forall other: Id | ThreadListed(ts, other) ensures ThreadListed(us, other) {
      WithoutListed(ts, k, other);
      ListedAfter(Thread(id, true), rest, other);
    }
  }

  /** Thread `id` ends: its entry is marked done, the others stay. */
  lemma ThreadsEnd(c: Config, s: State, id: Id, t: State)
    requires ThreadsInv(c, s) && s.threads != []
    requires match id case WriterId => !WriterJoined(s) && t.writer.Ended? && t.decoders == s.decoders
             case DecoderId(d) => d < |s.decoders| && t.decoders == s.decoders[d := Gone] && t.writer == s.writer
    requires CountDone(t.threads) == CountDone(s.threads) + 1 && t.threadsDone == s.threadsDone + 1 && |t.threads| == |s.threads|
    requires forall i, j :: 0 <= i < j < |t.threads| ==> t.threads[i].id != t.threads[j].id
    requires forall i :: 0 <= i < |t.threads| ==> t.threads[i] == Thread(id, true) || (t.threads[i] in s.threads && t.threads[i].id != id)
    requires forall other: Id :: ThreadListed(s.threads, other) ==> ThreadListed(t.threads, other)
    requires t.producer == s.producer && t.caught == s.caught
    ensures ThreadsInv(c, t)
  {
    assert WriterJoined(t) == WriterJoined(s);
    forall i | 0 <= i < |t.threads|
      ensures match t.threads[i].id
              case WriterId => !WriterJoined(t) && (t.threads[i].done <==> t.writer.Ended?)
              case DecoderId(d) => d < |t.decoders| && (t.threads[i].done <==> t.decoders[d].Gone?)
    {
      if t.threads[i] != Thread(id, true) {
        var j :| 0 <= j < |s.threads| && s.threads[j] == t.threads[i];
      }
    }
  }

  lemma ThreadsReenter(c: Config, s: State, id: Id, t: State)
    requires ThreadsInv(c, s) && !s.failed
    requires match id case WriterId => !WriterJoined(s) && !s.writer.Ended? && t.writer.Ended? && t.decoders == s.decoders
             case DecoderId(d) => d < |s.decoders| && !s.decoders[d].Gone? && t.decoders == s.decoders[d := Gone] && t.writer == s.writer
    requires t == Reenter(s, id).(writer := t.writer, decoders := t.decoders)
    ensures !t.failed && ThreadsInv(c, t)
  {
    ReenterList(s.threads, id);
    ThreadsEnd(c, s, id, t);
  }

  // ----- events -----

  /** The error code in the claimed job is that of its frame, and 0 in the last one. */
  lemma ReportedError(c: Config, s: State)
    requires Positions(c, s) && OutInv(c, s) && s.writer.Report?
    ensures var p := s.writer.job;
            p < |s.jobs| && s.jobs[p].error == if p < |c.frames| then c.decode(c.frames[p], p).error else 0
  {
    if s.writer.job < |c.frames| {
      assert s.writer.job in OutOwners(c, s);
      assert !At(s.decoders, s.writer.job, 2, 2);
    }
  }

  lemma EventsReport(c: Config, s: State)
    requires Positions(c, s) && OutInv(c, s) && EventsInv(c, s) && Enabled(c, s, ReportStep) && !s.failed
    ensures EventsInv(c, DoReport(c, s))
  {
    ReportedError(c, s);
  }

  lemma EventsEmit(c: Config, s: State)
    requires Positions(c, s) && OutInv(c, s) && EventsInv(c, s) && Enabled(c, s, EmitStep) && !s.failed
    ensures !DoEmit(c, s).failed && EventsInv(c, DoEmit(c, s))
  {
    assert s.writer.job in OutOwners(c, s);
    assert !At(s.decoders, s.writer.job, 2, 2);
  }

  lemma EventsDropOut(c: Config, s: State)
    requires WriteInv(c, s) && EventsInv(c, s) && Enabled(c, s, DropOutStep) && !s.failed && !DoDropOut(c, s).failed
    ensures EventsInv(c, DoDropOut(c, s))
  {
  }

  // ----- input buffers -----

  /** The input buffers are in order after a step that moves no space and changes no owner. */
  lemma InFrame(c: Config, s: State, t: State)
    requires InInv(c, s) && t.inPool == s.inPool && t.inMem == s.inMem && |t.jobs| >= |s.jobs|
    requires forall p :: 0 <= p < |s.jobs| ==> t.jobs[p].inBuf == s.jobs[p].inBuf
    requires forall p :: 0 <= p < |c.frames| ==> (InLive(c, s, p) <==> InLive(c, t, p))
    requires t.producer.Fill? || s.producer.Fill? ==> s.producer == t.producer
    ensures InInv(c, t)
  {
    assert InOwners(c, t) == InOwners(c, s);
    OwnedSame(s.inPool, InOwners(c, s), s.jobs, t.jobs, false);
  }

  lemma InQuiet(c: Config, s: State, step: Step)
    requires Positions(c, s) && InInv(c, s) && Enabled(c, s, step) && !s.failed && !Next(c, s, step).failed
    requires step.Finish? || step.AppendJob? || step.JoinWriterStep? || step.SendStopStep? || step.JoinOne? || step.JoinEnd? || step.FreeStep?
    ensures InInv(c, Next(c, s, step))
  {
    InFrame(c, s, Next(c, s, step));
  }

  lemma InLaunch(c: Config, s: State)
    requires Positions(c, s) && InInv(c, s) && Enabled(c, s, LaunchDecoder) && !s.failed
    ensures InInv(c, DoLaunch(c, s))
  {
    AtAppendIdle(s.decoders, 1, 3);
    InFrame(c, s, DoLaunch(c, s));
  }

  lemma InWriter(c: Config, s: State, step: Step)
    requires Positions(c, s) && InInv(c, s) && Enabled(c, s, step) && !s.failed && !Next(c, s, step).failed
    requires step.TakeResult? || step.ReportStep? || step.EmitStep? || step.DropOutStep? || step.CheckDecodeStep? || step.CheckWriteStep? || step.WriterReturn?
    ensures InInv(c, Next(c, s, step))
  {
    InFrame(c, s, Next(c, s, step));
  }

  lemma InTakeJob(c: Config, s: State, d: nat)
    requires Positions(c, s) && InInv(c, s) && Enabled(c, s, TakeJob(d)) && !s.failed && !DoTakeJob(c, s, d).failed
    ensures InInv(c, DoTakeJob(c, s, d))
  {
    var t := DoTakeJob(c, s, d);
    AtUpdate(s.decoders, d, t.decoders[d], 1, 3);
    InFrame(c, s, t);
  }

  lemma InInsert(c: Config, s: State, d: nat)
    requires Positions(c, s) && InInv(c, s) && Enabled(c, s, InsertJob(d)) && !s.failed && !DoInsert(c, s, d).failed
    ensures InInv(c, DoInsert(c, s, d))
  {
    var t := DoInsert(c, s, d);
    AtUpdate(s.decoders, d, t.decoders[d], 1, 3);
    InFrame(c, s, t);
  }

  lemma InLeave(c: Config, s: State, d: nat)
    requires Positions(c, s) && InInv(c, s) && Enabled(c, s, Leave(d)) && !s.failed && !DoLeave(c, s, d).failed
    ensures InInv(c, DoLeave(c, s, d))
  {
    AtUpdate(s.decoders, d, Gone, 1, 3);
    InFrame(c, s, DoLeave(c, s, d));
  }

  lemma InDecoding(c: Config, s: State, step: Step, d: nat)
    requires Positions(c, s) && InInv(c, s) && Enabled(c, s, step) && !s.failed && !Next(c, s, step).failed
    requires step == TakeOut(d) || step == Decode(d)
    ensures InInv(c, Next(c, s, step))
  {
    var t := Next(c, s, step);
    AtUpdate(s.decoders, d, t.decoders[d], 1, 3);
    InFrame(c, s, t);
  }

  lemma InTakeIn(c: Config, s: State)
    requires Positions(c, s) && InInv(c, s) && Enabled(c, s, TakeIn) && !s.failed
    ensures !DoTakeIn(c, s).failed && InInv(c, DoTakeIn(c, s))
  {
    var t := DoTakeIn(c, s);
    var p := |s.jobs|;
    assert InOwners(c, t) == InOwners(c, s) + {p};
    GetKeeps(s.inPool, InLimit(c));
    OwnedTake(s.inPool, InLimit(c), InOwners(c, s), s.jobs, false, p, t.jobs);
  }

  lemma InFillIn(c: Config, s: State)
    requires Positions(c, s) && InInv(c, s) && Enabled(c, s, FillIn) && !s.failed
    ensures !DoFillIn(c, s).failed && InInv(c, DoFillIn(c, s))
  {
    var t := DoFillIn(c, s);
    assert s.producer.job in InOwners(c, s);
    assert InOwners(c, t) == InOwners(c, s);
  }

  /** A decode thread drops a space that is in use, exactly once. */
  lemma InDropIn(c: Config, s: State, d: nat)
    requires Positions(c, s) && InInv(c, s) && Enabled(c, s, DropInStep(d)) && !s.failed
    ensures !DoDropIn(c, s, d).failed && InInv(c, DoDropIn(c, s, d))
  {
    var p := s.decoders[d].job;
    assert Holds(s.decoders[d], p, 1, 3);
    assert p in InOwners(c, s);
    OwnedDrop(s.inPool, InLimit(c), InOwners(c, s), s.jobs, false, p);
    var t := DoDropIn(c, s, d);
    AtUpdate(s.decoders, d, t.decoders[d], 1, 3);
    assert InOwners(c, t) == InOwners(c, s) - {p};
  }

  // ----- output buffers -----

  lemma OutFrame(c: Config, s: State, t: State)
    requires OutInv(c, s) && t.outPool == s.outPool && t.outMem == s.outMem && |t.jobs| >= |s.jobs|
    requires forall p :: 0 <= p < |s.jobs| ==> t.jobs[p].outBuf == s.jobs[p].outBuf && t.jobs[p].error == s.jobs[p].error
    requires forall p :: |s.jobs| <= p < |t.jobs| ==> t.jobs[p].error == 0
    requires forall p :: 0 <= p < |c.frames| ==> (OutLive(c, s, p) <==> OutLive(c, t, p))
    requires forall p :: At(t.decoders, p, 2, 2) <==> At(s.decoders, p, 2, 2)
    ensures OutInv(c, t)
  {
    assert OutOwners(c, t) == OutOwners(c, s);
    OwnedSame(s.outPool, OutOwners(c, s), s.jobs, t.jobs, true);
  }

  lemma OutProducer(c: Config, s: State, step: Step)
    requires Positions(c, s) && OutInv(c, s) && Enabled(c, s, step) && !s.failed && !Next(c, s, step).failed
    requires step.TakeIn? || step.FillIn? || step.Finish? || step.AppendJob? || step.JoinWriterStep? || step.SendStopStep? || step.JoinOne? || step.JoinEnd? || step.FreeStep?
    ensures OutInv(c, Next(c, s, step))
  {
    OutFrame(c, s, Next(c, s, step));
  }

  lemma OutLaunch(c: Config, s: State)
    requires OutInv(c, s) && Enabled(c, s, LaunchDecoder) && !s.failed
    ensures OutInv(c, DoLaunch(c, s))
  {
    AtAppendIdle(s.decoders, 2, 4);
    AtAppendIdle(s.decoders, 2, 2);
    OutFrame(c, s, DoLaunch(c, s));
  }

  lemma OutDecoder(c: Config, s: State, step: Step, d: nat)
    requires Positions(c, s) && OutInv(c, s) && Enabled(c, s, step) && !s.failed && !Next(c, s, step).failed
    requires step == TakeJob(d) || step == DropInStep(d)
    ensures OutInv(c, Next(c, s, step))
  {
    var t := Next(c, s, step);
    AtUpdate(s.decoders, d, t.decoders[d], 2, 4);
    AtUpdate(s.decoders, d, t.decoders[d], 2, 2);
    OutFrame(c, s, t);
  }

  lemma OutLeave(c: Config, s: State, d: nat)
    requires Positions(c, s) && OutInv(c, s) && Enabled(c, s, Leave(d)) && !s.failed && !DoLeave(c, s, d).failed
    ensures OutInv(c, DoLeave(c, s, d))
  {
    AtUpdate(s.decoders, d, Gone, 2, 4);
    AtUpdate(s.decoders, d, Gone, 2, 2);
    OutFrame(c, s, DoLeave(c, s, d));
  }

  lemma OutTakeOut(c: Config, s: State, d: nat)
    requires Positions(c, s) && OutInv(c, s) && Enabled(c, s, TakeOut(d)) && !s.failed
    ensures !DoTakeOut(c, s, d).failed && OutInv(c, DoTakeOut(c, s, d))
  {
    var t := DoTakeOut(c, s, d);
    var p := s.decoders[d].job;
    AtUpdate(s.decoders, d, t.decoders[d], 2, 4);
    AtUpdate(s.decoders, d, t.decoders[d], 2, 2);
    assert p !in OutOwners(c, s);
    assert OutOwners(c, t) == OutOwners(c, s) + {p};
    OwnedTake(s.outPool, -1, OutOwners(c, s), s.jobs, true, p, t.jobs);
    GetKeeps(s.outPool, -1);
  }

  lemma OutDecode(c: Config, s: State, d: nat)
    requires Positions(c, s) && InInv(c, s) && OutInv(c, s) && Enabled(c, s, Decode(d)) && !s.failed
    ensures !DoDecode(c, s, d).failed && OutInv(c, DoDecode(c, s, d))
  {
    var p := s.decoders[d].job;
    assert Holds(s.decoders[d], p, 1, 3) && Holds(s.decoders[d], p, 2, 4);
    assert p in InOwners(c, s) && p in OutOwners(c, s);
    var t := DoDecode(c, s, d);
    AtUpdate(s.decoders, d, t.decoders[d], 2, 4);
    AtUpdate(s.decoders, d, t.decoders[d], 2, 2);
    assert OutOwners(c, t) == OutOwners(c, s);
    OwnedSame(s.outPool, OutOwners(c, s), s.jobs, t.jobs, true);
  }

  lemma OutInsert(c: Config, s: State, d: nat)
    requires Positions(c, s) && OutInv(c, s) && Enabled(c, s, InsertJob(d)) && !s.failed && !DoInsert(c, s, d).failed
    ensures OutInv(c, DoInsert(c, s, d))
  {
    var t := DoInsert(c, s, d);
    var job := s.decoders[d].job;
    InsertedSorted(s.jobs, s.writeList, job);
    assert Holds(s.decoders[d], job, 2, 4);
    AtUpdate(s.decoders, d, Idle, 2, 4);
    AtUpdate(s.decoders, d, Idle, 2, 2);
    OutFrame(c, s, t);
  }

  lemma OutTakeResult(c: Config, s: State)
    requires Positions(c, s) && OutInv(c, s) && Enabled(c, s, TakeResult) && !s.failed && !DoTakeResult(c, s).failed
    ensures OutInv(c, DoTakeResult(c, s))
  {
    var t := DoTakeResult(c, s);
    assert forall p :: p in s.writeList <==> p == s.writeList[0] || p in s.writeList[1..];
    OutFrame(c, s, t);
  }

  lemma OutWriter(c: Config, s: State, step: Step)
    requires Positions(c, s) && OutInv(c, s) && Enabled(c, s, step) && !s.failed && !Next(c, s, step).failed
    requires step.ReportStep? || step.EmitStep? || step.CheckDecodeStep? || step.CheckWriteStep? || step.WriterReturn?
    ensures OutInv(c, Next(c, s, step))
  {
    OutFrame(c, s, Next(c, s, step));
  }

  lemma OutDropOut(c: Config, s: State)
    requires Positions(c, s) && OutInv(c, s) && Enabled(c, s, DropOutStep) && !s.failed
    ensures !DoDropOut(c, s).failed && OutInv(c, DoDropOut(c, s))
  {
    var p := s.writer.job;
    assert p in OutOwners(c, s);
    OwnedDrop(s.outPool, -1, OutOwners(c, s), s.jobs, true, p);
    var t := DoDropOut(c, s);
    assert !At(s.decoders, p, 2, 4);
    assert OutOwners(c, t) == OutOwners(c, s) - {p};
  }
}
