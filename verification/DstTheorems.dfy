/** What the parallel decoder guarantees over every run, for any number of decode threads. */
module DstTheorems {
  import opened BufferPool
  import opened DstPipeline
  import opened DstInvariant
  import opened DstSteps

  // ----- safety -----

  lemma SubmitKeeps(c: Config, s: State, step: Step)
    requires Inv(c, s) && Enabled(c, s, step)
    requires step.TakeIn? || step.FillIn? || step.Finish? || step.AppendJob?
    ensures Inv(c, Next(c, s, step))
  {
    match step {
      case TakeIn => InTakeIn(c, s); PositionsProducer(c, s, step);
      case FillIn => InFillIn(c, s); PositionsProducer(c, s, step);
      case Finish => PositionsProducer(c, s, step); InQuiet(c, s, step);
      case AppendJob => PositionsAppend(c, s); InQuiet(c, s, step);
    }
    EventsProducer(c, s, step);
    OutProducer(c, s, step);
    ThreadsProducer(c, s, step);
    LostProducer(c, s, step);
  }

  lemma LaunchKeeps(c: Config, s: State)
    requires c.procs >= 1 && Inv(c, s) && Enabled(c, s, LaunchDecoder)
    ensures Inv(c, DoLaunch(c, s))
  {
    PositionsLaunch(c, s);
    InLaunch(c, s);
    OutLaunch(c, s);
    ThreadsLaunch(c, s);
    AtAppendIdle(s.decoders, 1, 4);
    EventsProducer(c, s, LaunchDecoder);
  }

  lemma NoneInUse(c: Config, s: State)
    requires Inv(c, s) && s.producer.FreePools?
    ensures forall b :: 0 <= b < s.inPool.made ==> s.inPool.use[b] == 0
    ensures forall b :: 0 <= b < s.outPool.made ==> s.outPool.use[b] == 0
  {
    assert InOwners(c, s) == {};
    assert OutOwners(c, s) == {};
  }

  /** Both pools have all their spaces back when they are freed. */
  lemma PoolsComplete(c: Config, s: State)
    requires Inv(c, s) && s.producer.FreePools?
    ensures |s.inPool.free| == s.inPool.made && |s.outPool.free| == s.outPool.made
  {
    NoneInUse(c, s);
    AllDropped(s.inPool, InLimit(c));
    AllDropped(s.outPool, -1);
  }

  lemma ClosingKeeps(c: Config, s: State, step: Step)
    requires Inv(c, s) && Enabled(c, s, step)
    requires step.JoinWriterStep? || step.SendStopStep? || step.JoinOne? || step.JoinEnd? || step.FreeStep?
    ensures Inv(c, Next(c, s, step))
  {
    if step.JoinWriterStep? { ThreadsJoinWriter(c, s); }
    if step.JoinOne? { ThreadsJoinOne(c, s); }
    if step.FreeStep? { PoolsComplete(c, s); }
    if step.SendStopStep? { PositionsSendStop(c, s); } else { PositionsClosing(c, s, step); }
    InQuiet(c, s, step);
    OutProducer(c, s, step);
    LostProducer(c, s, step);
    EventsProducer(c, s, step);
    if !step.JoinWriterStep? && !step.JoinOne? { ThreadsProducer(c, s, step); }
  }

  lemma DecodingKeeps(c: Config, s: State, step: Step, d: nat)
    requires Inv(c, s) && Enabled(c, s, step)
    requires step == TakeOut(d) || step == Decode(d) || step == DropInStep(d)
    ensures Inv(c, Next(c, s, step))
  {
    match step {
      case TakeOut(_) => OutTakeOut(c, s, d); PositionsTakeOut(c, s, d); InDecoding(c, s, step, d);
      case Decode(_) => OutDecode(c, s, d); PositionsDecode(c, s, d); InDecoding(c, s, step, d);
      case DropInStep(_) => InDropIn(c, s, d); PositionsDropIn(c, s, d); OutDecoder(c, s, step, d);
    }
    LostDecoder(c, s, step, d);
    ThreadsDecoder(c, s, step);
    EventsDecoder(c, s, step);
  }

  lemma ListsKeep(c: Config, s: State, step: Step, d: nat)
    requires Inv(c, s) && Enabled(c, s, step)
    requires step == TakeJob(d) || step == InsertJob(d)
    ensures Inv(c, Next(c, s, step))
  {
    match step {
      case TakeJob(_) => PositionsTakeJob(c, s, d); LostTakeJob(c, s, d); OutDecoder(c, s, step, d);
      case InsertJob(_) => PositionsInsert(c, s, d); LostInsert(c, s, d); OutInsert(c, s, d);
    }
    if step.TakeJob? { InTakeJob(c, s, d); } else { InInsert(c, s, d); }
    ThreadsDecoder(c, s, step);
    EventsDecoder(c, s, step);
  }

  lemma LeaveKeeps(c: Config, s: State, d: nat)
    requires Inv(c, s) && Enabled(c, s, Leave(d))
    ensures Inv(c, DoLeave(c, s, d))
  {
    ThreadsReenter(c, s, DecoderId(d), DoLeave(c, s, d));
    PositionsLeave(c, s, d);
    LostDecoder(c, s, Leave(d), d);
    InLeave(c, s, d);
    OutLeave(c, s, d);
    EventsDecoder(c, s, Leave(d));
  }

  lemma TakeResultKeeps(c: Config, s: State)
    requires Inv(c, s) && Enabled(c, s, TakeResult)
    ensures Inv(c, DoTakeResult(c, s))
  {
    PositionsTakeResult(c, s);
    LostTakeResult(c, s);
    OutTakeResult(c, s);
    InWriter(c, s, TakeResult);
    EventsWriter(c, s, TakeResult);
    ThreadsWriter(c, s, TakeResult);
  }

  lemma WritingKeeps(c: Config, s: State, step: Step)
    requires Inv(c, s) && Enabled(c, s, step)
    requires step.ReportStep? || step.EmitStep? || step.DropOutStep?
    ensures Inv(c, Next(c, s, step))
  {
    match step {
      case ReportStep => PositionsReport(c, s); EventsReport(c, s); OutWriter(c, s, step);
      case EmitStep => EventsEmit(c, s); PositionsWriter(c, s, step); OutWriter(c, s, step);
      case DropOutStep => OutDropOut(c, s); PositionsWriter(c, s, step); EventsDropOut(c, s);
    }
    InWriter(c, s, step);
    LostWriter(c, s, step);
    ThreadsWriter(c, s, step);
  }

  lemma EndingKeeps(c: Config, s: State, step: Step)
    requires Inv(c, s) && Enabled(c, s, step)
    requires step.CheckDecodeStep? || step.CheckWriteStep? || step.WriterReturn?
    ensures Inv(c, Next(c, s, step))
  {
    if step.WriterReturn? { ThreadsReenter(c, s, WriterId, DoReturn(c, s)); } else { ThreadsWriter(c, s, step); }
    PositionsEnd(c, s, step);
    OutWriter(c, s, step);
    EventsWriter(c, s, step);
    InWriter(c, s, step);
    LostWriter(c, s, step);
  }

  /** Every step of every thread keeps the invariant. */
  lemma StepKeeps(c: Config, s: State, step: Step)
    requires c.procs >= 1 && Inv(c, s) && Enabled(c, s, step)
    ensures Inv(c, Next(c, s, step))
  {
    if step.TakeIn? || step.FillIn? || step.Finish? || step.AppendJob? { SubmitKeeps(c, s, step); }
    else if step.LaunchDecoder? { LaunchKeeps(c, s); }
    else if step.TakeOut? || step.Decode? || step.DropInStep? { DecodingKeeps(c, s, step, step.d); }
    else if step.TakeJob? || step.InsertJob? { ListsKeep(c, s, step, step.d); }
    else if step.Leave? { LeaveKeeps(c, s, step.d); }
    else if step.TakeResult? { TakeResultKeeps(c, s); }
    else if step.ReportStep? || step.EmitStep? || step.DropOutStep? { WritingKeeps(c, s, step); }
    else if step.CheckDecodeStep? || step.CheckWriteStep? || step.WriterReturn? { EndingKeeps(c, s, step); }
    else { ClosingKeeps(c, s, step); }
  }

  /** Every reachable state satisfies the invariant; a prefix of a run is a run, so this covers all
      states of it.  In particular no assertion of the source ever fails. */
  lemma {:induction false} RunKeeps(c: Config, states: seq<State>, steps: seq<Step>)
    requires c.procs >= 1 && IsRun(c, states, steps)
    ensures Inv(c, states[|steps|])
    decreases |steps|
  {
    if steps == [] {
      InitInv(c);
    } else {
      var n := |steps| - 1;
      assert IsRun(c, states[..n + 1], steps[..n]);
      RunKeeps(c, states[..n + 1], steps[..n]);
      StepKeeps(c, states[n], steps[n]);
    }
  }

  // ----- no deadlock -----

  /** The steps of decode thread d. */
  predicate OwnStep(step: Step, d: nat) {
    && (step.TakeJob? || step.TakeOut? || step.Decode? || step.DropInStep? || step.InsertJob? || step.Leave?)
    && step.d == d
  }

  /** A decode thread that is not waiting for work can always go on. */
  lemma BusyDecoderSteps(c: Config, s: State, d: nat) returns (step: Step)
    requires Inv(c, s) && d < |s.decoders| && !s.decoders[d].Gone?
    requires s.decoders[d].Idle? ==> s.decodeHave != 0
    ensures OwnStep(step, d) && Enabled(c, s, step)
  {
    match s.decoders[d] {
      case Idle => step := TakeJob(d);
      case NeedOut(_) => step := TakeOut(d);
      case Decoding(_) => step := Decode(d);
      case DropIn(_) => step := DropInStep(d);
      case Insert(_) => step := InsertJob(d);
      case Leaving => step := Leave(d);
    }
  }

  /** While the producer waits for an input space, every space belongs to a job that is on the decode
      list or in the hands of a decode thread that has not dropped the space, and that thread (any
      thread, for a job on the list) can go on. */
  lemma FullPoolSteps(c: Config, s: State, b: nat) returns (p: nat, d: nat, step: Step)
    requires Inv(c, s) && s.producer.Ready? && !CanGet(s.inPool) && b < s.inPool.made
    ensures s.inPool.made == 2 * c.procs + 2 && p < |s.jobs| && s.jobs[p].inBuf == b && d < |s.decoders|
    ensures p in s.decodeList || Holds(s.decoders[d], p, 1, 3)
    ensures OwnStep(step, d) && Enabled(c, s, step)
  {
    assert s.inPool.free == [];
    assert s.inPool.use[b] != 0;
    p :| p in InOwners(c, s) && s.jobs[p].inBuf == b;
    if p >= Taken(s) {
      assert s.decodeList[p - Taken(s)] == p;
      d := 0;
    } else {
      d :| 0 <= d < |s.decoders| && Holds(s.decoders[d], p, 1, 3);
    }
    step := BusyDecoderSteps(c, s, d);
  }

  /** While the write thread waits for a job that was submitted, that job is on the decode list and a
      decode thread can go on, or it is in the hands of a decode thread that can go on, or it is the
      first on the write list and the write thread itself can go on. */
  lemma WaitingWriterSteps(c: Config, s: State) returns (d: nat, step: Step)
    requires Inv(c, s) && s.writer.Await? && s.writerSeq < Appended(s)
    ensures Enabled(c, s, step)
    ensures if step.TakeResult? then s.writeList != [] && s.writeList[0] == s.writerSeq
            else d < |s.decoders| && OwnStep(step, d) && (s.writerSeq in s.decodeList || Holds(s.decoders[d], s.writerSeq, 1, 4))
  {
    var p := s.writerSeq;
    d := 0;
    if p in s.writeList {
      assert s.writeList[0] == p;
      step := TakeResult;
      return;
    }
    if p >= Taken(s) {
      assert s.decodeList[p - Taken(s)] == p;
    } else {
      assert At(s.decoders, p, 1, 4);
      d :| 0 <= d < |s.decoders| && Holds(s.decoders[d], p, 1, 4);
    }
    step := BusyDecoderSteps(c, s, d);
  }

  lemma NoDeadlock(c: Config, s: State) returns (step: Step)
    requires c.procs >= 1 && Inv(c, s) && !s.producer.Destroyed?
    ensures Enabled(c, s, step)
  {
    match s.producer {
      case Ready =>
        if s.sequence >= |c.frames| { step := Finish; }
        else if CanGet(s.inPool) { step := TakeIn; }
        else { var _, _, own := FullPoolSteps(c, s, 0); step := own; }
      case Fill(_) => step := FillIn;
      case Launch(_) => step := LaunchDecoder;
      case Append(_) => step := AppendJob;
      case JoinWriter =>
        match s.writer {
          case Await => var _, own := WaitingWriterSteps(c, s); step := own;
          case Report(_) => step := ReportStep;
          case Emit(_) => step := EmitStep;
          case DropOut(_) => step := DropOutStep;
          case CheckDecode => step := CheckDecodeStep;
          case CheckWrite => step := CheckWriteStep;
          case Returning => step := WriterReturn;
          case Ended => step := JoinWriterStep;
        }
      case SendStop => step := SendStopStep;
      case JoinAll =>
        if s.threads == [] { step := JoinEnd; }
        else if s.threadsDone != 0 { step := JoinOne; }
        else {
          CountDoneZero(s.threads);
          step := BusyDecoderSteps(c, s, s.threads[0].id.d);
        }
      case FreePools => step := FreeStep;
    }
  }

  // ----- termination -----

  function DecoderWork(d: Decoder): nat {
    match d
    case Idle => 2
    case NeedOut(_) => 15
    case Decoding(_) => 14
    case DropIn(_) => 13
    case Insert(_) => 12
    case Leaving => 1
    case Gone => 0
  }

  function DecodersWork(ds: seq<Decoder>): nat {
    if ds == [] then 0 else DecoderWork(ds[0]) + DecodersWork(ds[1..])
  }

  function WriterWork(w: Writer): nat {
    match w
    case Await => 4
    case Report(_) => 9
    case Emit(_) => 8
    case DropOut(_) => 7
    case CheckDecode => 3
    case CheckWrite => 2
    case Returning => 1
    case Ended => 0
  }

  function ProducerWork(p: Producer): nat {
    match p
    case Ready => 5
    case Fill(_) => 30
    case Launch(_) => 29
    case Append(_) => 25
    case JoinWriter => 7
    case SendStop => 6
    case JoinAll => 3
    case FreePools => 2
    case Destroyed => 1
  }

  /** An upper bound on the steps left. */
  function Work(c: Config, s: State): int {
    40 * (|c.frames| + 1 - |s.jobs|) + ProducerWork(s.producer) + (if Closing(s) then 0 else 16 * |s.decodeList|)
    + DecodersWork(s.decoders) + 6 * |s.writeList| + WriterWork(s.writer) + |s.threads|
  }

  lemma {:induction false} DecodersWorkUpdate(ds: seq<Decoder>, d: nat, x: Decoder)
    requires d < |ds|
    ensures DecodersWork(ds[d := x]) == DecodersWork(ds) - DecoderWork(ds[d]) + DecoderWork(x)
  {
    if d == 0 {
      assert ds[0 := x][1..] == ds[1..];
    } else {
      DecodersWorkUpdate(ds[1..], d - 1, x);
      assert ds[d := x][1..] == ds[1..][d - 1 := x];
    }
  }

  lemma {:induction false} DecodersWorkAppend(ds: seq<Decoder>, x: Decoder)
    ensures DecodersWork(ds + [x]) == DecodersWork(ds) + DecoderWork(x)
  {
    if ds != [] {
      DecodersWorkAppend(ds[1..], x);
      assert (ds + [x])[1..] == ds[1..] + [x];
    }
  }

  lemma DecoderStepWorks(c: Config, s: State, step: Step, d: nat)
    requires (Closing(s) ==> s.decodeList == [STOP]) && Enabled(c, s, step) && !Next(c, s, step).failed
    requires step == TakeJob(d) || step == TakeOut(d) || step == Decode(d) || step == DropInStep(d) || step == InsertJob(d) || step == Leave(d)
    ensures Work(c, Next(c, s, step)) < Work(c, s)
  {
    DecodersWorkUpdate(s.decoders, d, Next(c, s, step).decoders[d]);
  }

  lemma ProducerStepWorks(c: Config, s: State, step: Step)
    requires Enabled(c, s, step) && !Next(c, s, step).failed
    requires step.TakeIn? || step.FillIn? || step.Finish? || step.LaunchDecoder? || step.AppendJob?
    ensures Work(c, Next(c, s, step)) < Work(c, s)
  {
    DecodersWorkAppend(s.decoders, Idle);
  }

  lemma ClosingStepWorks(c: Config, s: State, step: Step)
    requires Enabled(c, s, step) && !Next(c, s, step).failed
    requires step.JoinWriterStep? || step.SendStopStep? || step.JoinOne? || step.JoinEnd? || step.FreeStep?
    ensures Work(c, Next(c, s, step)) < Work(c, s)
  {
  }

  lemma WriterStepWorks(c: Config, s: State, step: Step)
    requires Enabled(c, s, step) && !Next(c, s, step).failed
    requires step.TakeResult? || step.ReportStep? || step.EmitStep? || step.DropOutStep? || step.CheckDecodeStep? || step.CheckWriteStep? || step.WriterReturn?
    ensures Work(c, Next(c, s, step)) < Work(c, s)
  {
  }

  /** Every step uses up work, so no schedule, fair or not, runs forever. */
  lemma StepWorks(c: Config, s: State, step: Step)
    requires c.procs >= 1 && Inv(c, s) && Enabled(c, s, step)
    ensures 0 <= Work(c, Next(c, s, step)) < Work(c, s)
  {
    StepKeeps(c, s, step);
    if step.TakeJob? || step.TakeOut? || step.Decode? || step.DropInStep? || step.InsertJob? || step.Leave? {
      DecoderStepWorks(c, s, step, step.d);
    } else if step.TakeResult? || step.ReportStep? || step.EmitStep? || step.DropOutStep? || step.CheckDecodeStep? || step.CheckWriteStep? || step.WriterReturn? {
      WriterStepWorks(c, s, step);
    } else if step.TakeIn? || step.FillIn? || step.Finish? || step.LaunchDecoder? || step.AppendJob? {
      ProducerStepWorks(c, s, step);
    } else {
      ClosingStepWorks(c, s, step);
    }
  }

  /** No run is longer than 40 steps a frame and 50 more. */
  lemma {:induction false} RunBounded(c: Config, states: seq<State>, steps: seq<Step>)
    requires c.procs >= 1 && IsRun(c, states, steps)
    ensures |steps| + Work(c, states[|steps|]) <= 40 * |c.frames| + 50
    decreases |steps|
  {
    if steps != [] {
      var n := |steps| - 1;
      var earlier := states[..n + 1];
      assert IsRun(c, earlier, steps[..n]);
      RunBounded(c, earlier, steps[..n]);
      RunKeeps(c, earlier, steps[..n]);
      StepWorks(c, states[n], steps[n]);
    }
  }

  // ----- delivery -----

  /** The buffers handed to the decoded callback, in order. */
  function Delivered(events: seq<Event>): seq<Bytes> {
    if events == [] then []
    else if events[0].Frame? then [events[0].dsd] + Delivered(events[1..])
    else Delivered(events[1..])
  }

  lemma {:induction false} DeliveredConcat(a: seq<Event>, b: seq<Event>)
    ensures Delivered(a + b) == Delivered(a) + Delivered(b)
  {
    if a == [] {
      assert a + b == b;
    } else {
      DeliveredConcat(a[1..], b);
      assert (a + b)[1..] == a[1..] + b;
    }
  }

  lemma {:induction false} DeliveredExpected(c: Config, n: nat)
    requires n <= |c.frames|
    ensures |Delivered(Expected(c, n))| == n
    ensures forall i :: 0 <= i < n ==> Delivered(Expected(c, n))[i] == c.decode(c.frames[i], i).dsd
  {
    if n > 0 {
      DeliveredExpected(c, n - 1);
      var before := Expected(c, n - 1);
      var frame := [Frame(c.decode(c.frames[n - 1], n - 1).dsd)];
      DeliveredConcat(before + ErrorEvents(c, n - 1), frame);
      DeliveredConcat(before, ErrorEvents(c, n - 1));
      assert Delivered(ErrorEvents(c, n - 1)) == [];
    }
  }

  /** Whatever the interleaving, the decoded callback has received exactly the decodings of the
      first k frames, in submission order, and never of a frame not yet submitted; once destroy
      returns, of all of them.  The events are exactly those frames with each error before its frame. */
  lemma InOrderExactlyOnce(c: Config, states: seq<State>, steps: seq<Step>)
    requires c.procs >= 1 && IsRun(c, states, steps)
    ensures var s := states[|steps|];
            var out := Delivered(s.events);
            && |out| <= s.sequence && |out| <= |c.frames|
            && (forall i :: 0 <= i < |out| ==> out[i] == c.decode(c.frames[i], i).dsd)
            && (s.producer.Destroyed? ==> s.events == Expected(c, |c.frames|) && |out| == |c.frames|)
  {
    RunKeeps(c, states, steps);
    var s := states[|steps|];
    var k := if s.writer.DropOut? then s.writerSeq + 1 else if s.writerSeq <= |c.frames| then s.writerSeq else |c.frames|;
    DeliveredExpected(c, k);
    if s.writer.Emit? {
      DeliveredConcat(Expected(c, k), ErrorEvents(c, k));
      assert Delivered(ErrorEvents(c, k)) == [];
    }
  }

  /** Every run that cannot be continued has come to the end of dst_decoder_destroy, with nothing
      failed, every decode thread joined and every frame delivered. */
  lemma RunsFinish(c: Config, states: seq<State>, steps: seq<Step>)
    requires c.procs >= 1 && IsRun(c, states, steps)
    requires forall step :: !Enabled(c, states[|steps|], step)
    ensures var s := states[|steps|];
            && s.producer.Destroyed? && !s.failed
            && s.caught == |s.decoders| && (forall d :: 0 <= d < |s.decoders| ==> s.decoders[d].Gone?)
            && s.events == Expected(c, |c.frames|)
  {
    var s := states[|steps|];
    RunKeeps(c, states, steps);
    if !s.producer.Destroyed? {
      var step := NoDeadlock(c, s);
    }
  }

  lemma Extend(c: Config, states: seq<State>, steps: seq<Step>, step: Step, s: State)
    requires IsRun(c, states, steps) && Enabled(c, states[|steps|], step) && s == Next(c, states[|steps|], step)
    ensures IsRun(c, states + [s], steps + [step])
  {
  }

  lemma OneMore(c: Config, states: seq<State>, steps: seq<Step>) returns (step: Step)
    requires c.procs >= 1 && IsRun(c, states, steps) && !states[|steps|].producer.Destroyed?
    ensures Enabled(c, states[|steps|], step)
    ensures IsRun(c, states + [Next(c, states[|steps|], step)], steps + [step])
    ensures 0 <= Work(c, Next(c, states[|steps|], step)) < Work(c, states[|steps|])
  {
    RunKeeps(c, states, steps);
    step := NoDeadlock(c, states[|steps|]);
    StepWorks(c, states[|steps|], step);
    Extend(c, states, steps, step, Next(c, states[|steps|], step));
  }

  /** From every reachable state the decoder can finish. */
  lemma {:induction false} RunsContinue(c: Config, states: seq<State>, steps: seq<Step>) returns (more: seq<State>, moreSteps: seq<Step>)
    requires c.procs >= 1 && IsRun(c, states, steps)
    ensures IsRun(c, more, moreSteps) && steps <= moreSteps && more[|moreSteps|].producer.Destroyed?
    decreases Work(c, states[|steps|])
  {
    if states[|steps|].producer.Destroyed? {
      more, moreSteps := states, steps;
    } else {
      var step := OneMore(c, states, steps);
      more, moreSteps := RunsContinue(c, states + [Next(c, states[|steps|], step)], steps + [step]);
    }
  }
}
