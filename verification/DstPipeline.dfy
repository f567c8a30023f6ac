/** The parallel DST decoder of libs/libdstdec/dst_decoder.c as a transition system.

    One producer (the caller of dst_decoder_decode and dst_decoder_destroy), one write thread and
    up to `procs` decode threads interleave.  Every step is one lock-protected region, from
    `possess` to `twist` or `release`, or one action on memory its thread owns.  A `wait_for` makes
    its region enabled only when the awaited lock value holds.

    A job is named by its position in allocation order; -1 names the stack job of
    finish_decoding_jobs.  A failing assertion, a null dereference, or a thread missing from the
    thread list sets `failed`. */
module DstPipeline {
  import opened BufferPool

  type Byte = b: int | 0 <= b < 256
  type Bytes = seq<Byte>

  const STOP: int := -1

  /** What DST_FramDSTDecode leaves behind: an error code and the output buffer. */
  datatype Decoded = Decoded(error: int, dsd: Bytes)

  datatype Config = Config(frames: seq<Bytes>, procs: nat, decode: (Bytes, nat) -> Decoded, reportErrors: bool)

  datatype Job = Job(number: int, more: bool, inBuf: int, outBuf: int, error: int)

  datatype Producer =
    | Ready                 // between two calls of the interface
    | Fill(job: nat)        // owns the input space of a new job
    | Launch(job: nat)      // about to start another decode thread if needed
    | Append(job: nat)      // about to put the job on the decode list
    | JoinWriter
    | SendStop
    | JoinAll
    | FreePools
    | Destroyed

  datatype Decoder =
    | Idle
    | NeedOut(job: nat)
    | Decoding(job: nat)
    | DropIn(job: nat)
    | Insert(job: nat)
    | Leaving               // saw the stop job, about to mark itself done
    | Gone

  datatype Writer =
    | Await
    | Report(job: nat)
    | Emit(job: nat)
    | DropOut(job: nat)
    | CheckDecode
    | CheckWrite
    | Returning
    | Ended

  datatype Id = WriterId | DecoderId(d: nat)
  datatype Thread = Thread(id: Id, done: bool)

  datatype Event = Error(number: int, code: int) | Frame(dsd: Bytes)

  datatype State = State(
    producer: Producer, sequence: nat, jobs: seq<Job>, cthreads: nat,
    decodeHave: int, decodeList: seq<int>,
    writeFirst: int, writeList: seq<nat>,
    inPool: Pool, inMem: seq<Bytes>, outPool: Pool, outMem: seq<Bytes>,
    decoders: seq<Decoder>, writer: Writer, writerSeq: nat,
    threads: seq<Thread>, threadsDone: int, caught: nat,
    events: seq<Event>, failed: bool)

  function InLimit(c: Config): nat { c.procs * 2 + 2 }

  /** The state dst_decoder_create leaves: empty lists, fresh pools, the write thread running. */
  function Init(c: Config): State {
    State(Ready, 0, [], 0, 0, [], -1, [], Create(InLimit(c)), [], Create(-1), [], [], Await, 0,
          [Thread(WriterId, false)], 0, 0, [], false)
  }

  datatype Step =
    | TakeIn | FillIn | Finish | LaunchDecoder | AppendJob | JoinWriterStep | SendStopStep | JoinOne | JoinEnd | FreeStep
    | TakeJob(d: nat) | TakeOut(d: nat) | Decode(d: nat) | DropInStep(d: nat) | InsertJob(d: nat) | Leave(d: nat)
    | TakeResult | ReportStep | EmitStep | DropOutStep | CheckDecodeStep | CheckWriteStep | WriterReturn

  predicate Enabled(c: Config, s: State, step: Step) {
    match step
    case TakeIn => s.producer.Ready? && s.sequence < |c.frames| && CanGet(s.inPool)
    case FillIn => s.producer.Fill?
    case Finish => s.producer.Ready? && s.sequence >= |c.frames|
    case LaunchDecoder => s.producer.Launch?
    case AppendJob => s.producer.Append?
    case JoinWriterStep => s.producer.JoinWriter? && s.writer.Ended?
    case SendStopStep => s.producer.SendStop?
    case JoinOne => s.producer.JoinAll? && s.threads != [] && s.threadsDone != 0
    case JoinEnd => s.producer.JoinAll? && s.threads == []
    case FreeStep => s.producer.FreePools?
    case TakeJob(d) => d < |s.decoders| && s.decoders[d].Idle? && s.decodeHave != 0
    case TakeOut(d) => d < |s.decoders| && s.decoders[d].NeedOut? && CanGet(s.outPool)
    case Decode(d) => d < |s.decoders| && s.decoders[d].Decoding?
    case DropInStep(d) => d < |s.decoders| && s.decoders[d].DropIn?
    case InsertJob(d) => d < |s.decoders| && s.decoders[d].Insert?
    case Leave(d) => d < |s.decoders| && s.decoders[d].Leaving?
    case TakeResult => s.writer.Await? && s.writeFirst == s.writerSeq
    case ReportStep => s.writer.Report?
    case EmitStep => s.writer.Emit?
    case DropOutStep => s.writer.DropOut?
    case CheckDecodeStep => s.writer.CheckDecode?
    case CheckWriteStep => s.writer.CheckWrite?
    case WriterReturn => s.writer.Returning?
  }

  predicate GetSafe(p: Pool) {
    |p.use| == p.made && forall i :: 0 <= i < |p.free| ==> p.free[i] < p.made
  }

  predicate ListSafe(s: State) {
    forall i :: 0 <= i < |s.writeList| ==> s.writeList[i] < |s.jobs|
  }

  function NumberOf(s: State, job: int): int {
    if 0 <= job < |s.jobs| then s.jobs[job].number else STOP
  }

  /** The insertion loop of decode_thread: before the first job with a larger number. */
  function Inserted(jobs: seq<Job>, list: seq<nat>, job: nat): (r: seq<nat>)
    requires job < |jobs|
    requires forall i :: 0 <= i < |list| ==> list[i] < |jobs|
    ensures |r| == |list| + 1
    ensures forall i :: 0 <= i < |r| ==> r[i] < |jobs|
  {
    if list == [] || jobs[list[0]].number > jobs[job].number then [job] + list
    else [list[0]] + Inserted(jobs, list[1..], job)
  }

  function FirstDone(threads: seq<Thread>): (k: nat)
    ensures k <= |threads|
    ensures k < |threads| ==> threads[k].done
    ensures forall i :: 0 <= i < k ==> !threads[i].done
  {
    if threads == [] || threads[0].done then 0 else 1 + FirstDone(threads[1..])
  }

  function FindThread(threads: seq<Thread>, id: Id): (k: nat)
    ensures k <= |threads|
    ensures k < |threads| ==> threads[k].id == id
    ensures forall i :: 0 <= i < k ==> threads[i].id != id
  {
    if threads == [] || threads[0].id == id then 0 else 1 + FindThread(threads[1..], id)
  }

  function Without<T>(s: seq<T>, k: nat): (r: seq<T>)
    requires k < |s|
    ensures |r| == |s| - 1
    ensures forall i :: 0 <= i < |r| ==> r[i] == s[if i < k then i else i + 1]
  {
    s[..k] + s[k + 1..]
  }

  /** `reenter`: the calling thread marks itself done and moves to the head of the list. */
  function Reenter(s: State, id: Id): State {
    var k := FindThread(s.threads, id);
    if k == |s.threads| then s.(failed := true)
    else s.(threads := [Thread(id, true)] + Without(s.threads, k), threadsDone := s.threadsDone + 1)
  }

  // ----- producer: dst_decoder_decode, finish_write_job, finish_decoding_jobs -----

  function DoTakeIn(c: Config, s: State): State
    requires Enabled(c, s, TakeIn)
  {
    if !GetSafe(s.inPool) then s.(failed := true) else
    var (pool, space) := Get(s.inPool);
    s.(inPool := pool, inMem := if space == |s.inMem| then s.inMem + [[]] else s.inMem,
       jobs := s.jobs + [Job(s.sequence, true, space, -1, 0)], producer := Fill(|s.jobs|))
  }

  function DoFillIn(c: Config, s: State): State
    requires Enabled(c, s, FillIn)
  {
    if s.producer.job >= |s.jobs| || s.sequence >= |c.frames| then s.(failed := true) else
    var space := s.jobs[s.producer.job].inBuf;
    if 0 <= space < |s.inMem| then
      s.(inMem := s.inMem[space := c.frames[s.sequence]], sequence := s.sequence + 1, producer := Launch(s.producer.job))
    else s.(failed := true)
  }

  function DoFinish(c: Config, s: State): State
    requires Enabled(c, s, Finish)
  {
    s.(jobs := s.jobs + [Job(s.sequence, false, -1, -1, 0)], sequence := s.sequence + 1, producer := Launch(|s.jobs|))
  }

  function DoLaunch(c: Config, s: State): State
    requires Enabled(c, s, LaunchDecoder)
  {
    var t := s.(producer := Append(s.producer.job));
    if s.cthreads < c.procs then
      t.(decoders := s.decoders + [Idle], cthreads := s.cthreads + 1,
         threads := [Thread(DecoderId(|s.decoders|), false)] + s.threads)
    else t
  }

  function DoAppend(c: Config, s: State): State
    requires Enabled(c, s, AppendJob)
  {
    if s.producer.job >= |s.jobs| then s.(failed := true) else
    s.(decodeList := s.decodeList + [s.producer.job], decodeHave := s.decodeHave + 1,
       producer := if s.jobs[s.producer.job].more then Ready else JoinWriter)
  }

  function DoJoinWriter(c: Config, s: State): State
    requires Enabled(c, s, JoinWriterStep)
  {
    var k := FindThread(s.threads, WriterId);
    if k == |s.threads| then s.(failed := true)
    else s.(threads := Without(s.threads, k), producer := SendStop,
            threadsDone := if s.threads[k].done then s.threadsDone - 1 else s.threadsDone)
  }

  /** The stop job replaces whatever the list holds. */
  function DoSendStop(c: Config, s: State): State
    requires Enabled(c, s, SendStopStep)
  {
    s.(decodeList := [STOP], decodeHave := s.decodeHave + 1, producer := JoinAll)
  }

  function DoJoinOne(c: Config, s: State): State
    requires Enabled(c, s, JoinOne)
  {
    var k := FirstDone(s.threads);
    if k == |s.threads| then s.(failed := true)
    else s.(threads := Without(s.threads, k), threadsDone := s.threadsDone - 1, caught := s.caught + 1)
  }

  function DoJoinEnd(c: Config, s: State): State
    requires Enabled(c, s, JoinEnd)
  {
    s.(failed := s.failed || s.caught != s.cthreads, cthreads := 0, producer := FreePools)
  }

  function DoFree(c: Config, s: State): State
    requires Enabled(c, s, FreeStep)
  {
    s.(failed := s.failed || |s.outPool.free| != s.outPool.made || |s.inPool.free| != s.inPool.made, producer := Destroyed)
  }

  // ----- decode_thread -----

  function DoTakeJob(c: Config, s: State, d: nat): State
    requires Enabled(c, s, TakeJob(d))
  {
    if s.decodeList == [] then s.(failed := true)
    else
      var job := s.decodeList[0];
      if NumberOf(s, job) == STOP then s.(decoders := s.decoders[d := Leaving])
      else
        s.(decodeList := s.decodeList[1..], decodeHave := s.decodeHave - 1,
           decoders := s.decoders[d := if s.jobs[job].more then NeedOut(job) else Insert(job)])
  }

  function DoTakeOut(c: Config, s: State, d: nat): State
    requires Enabled(c, s, TakeOut(d))
  {
    var job := s.decoders[d].job;
    if job >= |s.jobs| || !GetSafe(s.outPool) then s.(failed := true) else
    var (pool, space) := Get(s.outPool);
    s.(outPool := pool, outMem := if space == |s.outMem| then s.outMem + [[]] else s.outMem,
       jobs := s.jobs[job := s.jobs[job].(outBuf := space)], decoders := s.decoders[d := Decoding(job)])
  }

  function DoDecode(c: Config, s: State, d: nat): State
    requires Enabled(c, s, Decode(d))
  {
    var job := s.decoders[d].job;
    if job >= |s.jobs| then s.(failed := true) else
    var j := s.jobs[job];
    if 0 <= j.inBuf < |s.inMem| && 0 <= j.outBuf < |s.outMem| && j.number >= 0 then
      var r := c.decode(s.inMem[j.inBuf], j.number);
      s.(outMem := s.outMem[j.outBuf := r.dsd], jobs := s.jobs[job := j.(error := r.error)],
         decoders := s.decoders[d := DropIn(job)])
    else s.(failed := true)
  }

  function DoDropIn(c: Config, s: State, d: nat): State
    requires Enabled(c, s, DropInStep(d))
  {
    var job := s.decoders[d].job;
    if job >= |s.jobs| then s.(failed := true) else
    var space := s.jobs[job].inBuf;
    if 0 <= space < |s.inPool.use| && s.inPool.use[space] != 0 then
      s.(inPool := Drop(s.inPool, space), decoders := s.decoders[d := Insert(job)])
    else s.(failed := true)
  }

  function DoInsert(c: Config, s: State, d: nat): State
    requires Enabled(c, s, InsertJob(d))
  {
    if s.decoders[d].job >= |s.jobs| || !ListSafe(s) then s.(failed := true) else
    var list := Inserted(s.jobs, s.writeList, s.decoders[d].job);
    s.(writeList := list, writeFirst := s.jobs[list[0]].number, decoders := s.decoders[d := Idle])
  }

  function DoLeave(c: Config, s: State, d: nat): State
    requires Enabled(c, s, Leave(d))
  {
    Reenter(s, DecoderId(d)).(decoders := s.decoders[d := Gone])
  }

  // ----- write_thread -----

  function DoTakeResult(c: Config, s: State): State
    requires Enabled(c, s, TakeResult)
  {
    if s.writeList == [] || !ListSafe(s) then s.(failed := true)
    else
      var rest := s.writeList[1..];
      s.(writeList := rest, writeFirst := if rest == [] then -1 else s.jobs[rest[0]].number, writer := Report(s.writeList[0]))
  }

  function DoReport(c: Config, s: State): State
    requires Enabled(c, s, ReportStep)
  {
    if s.writer.job >= |s.jobs| then s.(failed := true) else
    var j := s.jobs[s.writer.job];
    var t := if j.error != 0 && c.reportErrors then s.(events := s.events + [Error(j.number, j.error)]) else s;
    if j.more then t.(writer := Emit(s.writer.job)) else t.(writer := CheckDecode, writerSeq := s.writerSeq + 1)
  }

  function DoEmit(c: Config, s: State): State
    requires Enabled(c, s, EmitStep)
  {
    if s.writer.job >= |s.jobs| then s.(failed := true) else
    var space := s.jobs[s.writer.job].outBuf;
    if 0 <= space < |s.outMem| then
      s.(events := s.events + [Frame(s.outMem[space])], writer := DropOut(s.writer.job))
    else s.(failed := true)
  }

  function DoDropOut(c: Config, s: State): State
    requires Enabled(c, s, DropOutStep)
  {
    if s.writer.job >= |s.jobs| then s.(failed := true) else
    var space := s.jobs[s.writer.job].outBuf;
    if 0 <= space < |s.outPool.use| && s.outPool.use[space] != 0 then
      s.(outPool := Drop(s.outPool, space), writer := Await, writerSeq := s.writerSeq + 1)
    else s.(failed := true)
  }

  function DoCheckDecode(c: Config, s: State): State
    requires Enabled(c, s, CheckDecodeStep)
  {
    s.(failed := s.failed || s.decodeList != [] || s.decodeHave != 0, writer := CheckWrite)
  }

  function DoCheckWrite(c: Config, s: State): State
    requires Enabled(c, s, CheckWriteStep)
  {
    s.(failed := s.failed || s.writeList != [], writeFirst := -1, writer := Returning)
  }

  function DoReturn(c: Config, s: State): State
    requires Enabled(c, s, WriterReturn)
  {
    Reenter(s, WriterId).(writer := Ended)
  }

  function Next(c: Config, s: State, step: Step): State
    requires Enabled(c, s, step)
  {
    match step
    case TakeIn => DoTakeIn(c, s)
    case FillIn => DoFillIn(c, s)
    case Finish => DoFinish(c, s)
    case LaunchDecoder => DoLaunch(c, s)
    case AppendJob => DoAppend(c, s)
    case JoinWriterStep => DoJoinWriter(c, s)
    case SendStopStep => DoSendStop(c, s)
    case JoinOne => DoJoinOne(c, s)
    case JoinEnd => DoJoinEnd(c, s)
    case FreeStep => DoFree(c, s)
    case TakeJob(d) => DoTakeJob(c, s, d)
    case TakeOut(d) => DoTakeOut(c, s, d)
    case Decode(d) => DoDecode(c, s, d)
    case DropInStep(d) => DoDropIn(c, s, d)
    case InsertJob(d) => DoInsert(c, s, d)
    case Leave(d) => DoLeave(c, s, d)
    case TakeResult => DoTakeResult(c, s)
    case ReportStep => DoReport(c, s)
    case EmitStep => DoEmit(c, s)
    case DropOutStep => DoDropOut(c, s)
    case CheckDecodeStep => DoCheckDecode(c, s)
    case CheckWriteStep => DoCheckWrite(c, s)
    case WriterReturn => DoReturn(c, s)
  }

  /** A run: each state follows from the one before by the step listed between them. */
  ghost predicate IsRun(c: Config, states: seq<State>, steps: seq<Step>) {
    && |states| == |steps| + 1
    && states[0] == Init(c)
    && forall i :: 0 <= i < |steps| ==> Enabled(c, states[i], steps[i]) && states[i + 1] == Next(c, states[i], steps[i])
  }
}
