# Verification of sacd-ripper's decoding, re-blocking and protocol code

This project models the parts of sacd-ripper that are hardest to get right, and proves that they do
what they are for. `dafny verify dfyconfig.toml` checks all of it. The C functions are modelled twice:
as a specification on values (functions, relations, encoders), about which the theorems are proved,
and in the source's own form (classes with the source's fields, arrays filled in place, loops),
proved to compute exactly that specification.

1. **The parallel DST decoder** (`BufferPool`, `PoolLocks`, `PoolRefinement`, `PoolReplay`, `DstPipeline`,
   `DstInvariant`, `DstSteps`, `DstTheorems`, `DstStaffing`, `LinkedLists`, `JobLists`, `ThreadLists`,
   `DstDecoder`).
   `DstPipeline` is a transition system: one producer, one write thread and up to `procs` decode threads
   interleave, each step one region between `possess` and `twist` or `release`, and `wait_for` an
   enabling condition. Frame decoding is an uninterpreted function of the frame and its number. Proved
   of all reachable states and all runs: an inductive invariant, delivery in order and exactly once, no
   failing assertion, no deadlock, termination under every schedule, and how many decode threads
   run. The methods of `DstDecoder.Decoder` are the source's regions on the source's fields, with its linked
   lists of jobs and threads spliced through their pointers. Each needs no more than that its step is
   enabled in a reachable state, and is proved to take that step and to keep the lists linked.
   `PoolLocks` splits the buffer pool's operations into single lock operations and shows that the
   opposite lock orders of get and drop cause no cyclic wait; `PoolRefinement` shows that whatever the
   interleaving, they do what the atomic operations of `BufferPool` do one after another, and
   `PoolReplay` that they can do all that these can.
2. **The DST frame parser** of Subpart 10 of ISO/IEC 14496-3 (`Bits`, `BitOps`, `DstData`, `DstRice`,
   `DstSegments`, `DstMapping`, `DstTables`, `DstFrame`, `DstLayout`, `DstRefusals`, and the `DstUnpack`
   modules). For every part of a frame there is a ghost encoder, the rules a legal value obeys, and two
   theorems: the parser returns what was encoded and stops behind it (the lemmas named `...Written`),
   and whatever the parser accepts is legal and is the code of what it returns (`...Exact`). What parser
   and encoder share has laws of its own: the field widths and limits (`DstLayout`), the prediction
   (`DstTables`), and which error a frame gets that ends too early or breaks a rule (`DstRefusals`).
3. **Stream re-blocking**: frames to DSF blocks (`BitReverse`, `Reblocking`, `Dsf`, `DsfWriter`), disc
   sectors to frames (`Frames`, `Sectors`, `SectorReader`), frames to an indexed DSDIFF file (`Dsdiff`,
   `DsdiffWriter`).
4. **The protobuf engine** (`ProtobufWire`, `Protobuf`, `ProtobufRoundTrip`, `ProtobufSubset`,
   `ProtobufInput`, `ProtobufDecoder`, `ProtobufEncoder`) and the messages it carries (`ProtobufServer`).
5. **Argument permutation** (`Getopt`) and the **sector scheduler** (`Scheduler`).

`Arithmetic`, `Bits` and `BitOps` hold products, quotients, shifts and C's bit operations as recursive
functions, so that proofs need no nonlinear reasoning.

Where the code is not what its comments or callers suggest, the model follows the code:

- `dsf_write_frame` compares the fill also with the frame's own bytes per channel
  (libs/libsacd/dsf.c:247-248). A short frame that meets a partly filled buffer therefore writes a
  padded block in the middle of the track. `Dsf.SmoothExactly` gives the exact condition, and
  `Dsf.ShortFramesPad` tracks on which it happens.
- The branch for segmentation shared by all channels tests the number of segments behind the end bit
  (libs/libdstdec/unpack_dst.c:240-243), so it admits MaxNrOfSegs + 1 segments; `DstSegments.ReadPartitions`
  says exactly when. The arrays have rows of 8 places (libs/libdstdec/types.h:80-82,
  libs/libdstdec/conststr.h:147), enough for the filters with 4 + 1 but not for the probability tables
  with 8 + 1. The model ends such a reading with the outcome RowOverrun, which the source does not have:
  `DstSegments.OverrunsExactly` and `DstFrame.SegmentationOverruns` give the exact condition, and
  `DstSegments.NineSegments` a legal segmentation that meets it.
- `CopyMappingData` compares a channel with whatever channel 0 has in a place, also behind channel 0's
  own segments (libs/libdstdec/unpack_dst.c:546-559). `DstUnpackMapping.FlagRightExactly` says exactly when the
  flag is right, and `DstUnpackMapping.FlagWrong` gives a legal mapping for which it is not.
- `fields_seen` has 32 bits for any number of fields (libs/libcommon/pb_decode.c:418-434).
  `ProtobufRoundTrip.ItemsRestore` gives the exact condition for acceptance, and `RefusedExactly` the
  descriptors for which no required field can be missing unnoticed: those in which none has another
  field a multiple of 32 places away.
- The first sub track of an ISO job, when it starts where the job starts, is set up to end one sector
  early (libs/libsacd/scarletbook_output.c:453), unlike the later ones (line 620). The sectors of the
  job are still processed exactly once, but that one does not reach the track: `Scheduler.SubsWhole`
  gives the exact condition.

## Model

| member | source | states |
|---|---|---|
| `DstTheorems.InOrderExactlyOnce` | libs/libdstdec/dst_decoder.c:203-302 | for any number of decode threads and any interleaving, the decoded callback has received exactly the decodings of frames 0 to k-1 in submission order, never of a frame not yet submitted; when destroy has returned, of all frames, each error report before its frame |
| `DstTheorems.RunKeeps` | libs/libdstdec/dst_decoder.c:77-116 | every reachable state keeps the invariant: each issued number is in exactly one place (decode list, a decoder's hands, write list, taken by the writer), `decode_have` is the length of its list, `write_first` the head of an ascending write list, the pools conserve their spaces; so no assertion and no lookup of the source ever fails |
| `DstTheorems.StepKeeps` | libs/libdstdec/dst_decoder.c:191-411 | every step of every thread keeps that invariant |
| `DstTheorems.NoDeadlock` | libs/libdstdec/dst_decoder.c:372-411 | in every reachable state before destroy has returned some thread has an enabled step, also when the producer waits for one of the 2*procs+2 input spaces |
| `DstTheorems.FullPoolSteps` | libs/libdstdec/dst_decoder.c:389-393 | while the producer waits for an input space, exactly 2 * procs + 2 spaces exist, and every one belongs to a job on the decode list, or to one in the hands of a decode thread that has not dropped it; that thread (for a listed job thread 0) has an enabled step of its own |
| `DstStaffing.DecodersLaunched` | libs/libdstdec/dst_decoder.c:398-403 | in every reachable state between two calls exactly min(procs, frames submitted) decode threads run, and once the producer waits for the write thread min(procs, frames + 1); the count of them is right until all are joined, then 0 |
| `DstTheorems.WaitingWriterSteps` | libs/libdstdec/dst_decoder.c:278-283 | while the write thread waits for a number that was submitted, that job is first on the write list and the write thread itself can go on, or it is in the hands of a decode thread that can go on, or on the decode list and a decode thread can go on |
| `DstTheorems.BusyDecoderSteps` | libs/libdstdec/dst_decoder.c:204-250 | a decode thread that does not wait for work has an enabled step of its own |
| `DstTheorems.StepWorks` | libs/libdstdec/dst_decoder.c:191-312 | every step of every thread strictly decreases a measure, so no schedule, fair or not, runs forever |
| `DstTheorems.RunBounded` | libs/libdstdec/dst_decoder.c:372-411 | no run has more than 40 steps a frame and 50 more |
| `DstTheorems.RunsFinish` | libs/libdstdec/dst_decoder.c:372-378 | a run that cannot be continued is at the end of dst_decoder_destroy: nothing failed, join_all returned exactly `cthreads`, all decode threads are gone, all frames delivered |
| `DstTheorems.RunsContinue` | libs/libdstdec/dst_decoder.c:372-411 | from every reachable state there is a run to the end |
| `DstTheorems.PoolsComplete` | libs/libdstdec/buffer_pool.c:117-140 | when the decoder frees its pools, each lists every space it ever made |
| `DstInvariant.InitInv` | libs/libdstdec/dst_decoder.c:348-370 | the invariant holds behind dst_decoder_create |
| `DstSteps.InsertedList` | libs/libdstdec/dst_decoder.c:236-247 | the insertion loop keeps the write list strictly ascending, adds exactly the job, and announces the number of its head |
| `DstSteps.PositionsEnd` | libs/libdstdec/dst_decoder.c:305-311 | the write thread's closing assertions hold: behind the last job both lists are empty |
| `DstSteps.ReenterList` | libs/libdstdec/yarn.c:197-224 | a thread that ends finds itself in the thread list, is counted once, and every other thread stays listed |
| `DstSteps.ThreadsJoinOne` | libs/libdstdec/yarn.c:318-355 | whenever the count of ended threads is not 0, join_all finds one that is marked done, and the list and the count stay in order |
| `DstSteps.ThreadsJoinWriter` | libs/libdstdec/yarn.c:286-312 | join finds the write thread in the list and takes it off the count |
| `DstSteps.EventsEmit` | libs/libdstdec/dst_decoder.c:291-296 | the frame the writer hands over is the decoding of the frame with the next number |
| `DstSteps.InDropIn` | libs/libdstdec/dst_decoder.c:231 | a decode thread drops an input space that is in use, exactly once |
| `DstDecoder.Goes` | libs/libdstdec/dst_decoder.c:191-411 | in a reachable state no enabled step fails, and it leads to a reachable state; so the methods of the decoder need no more than that the step is enabled |
| `LinkedLists.List.Link` | libs/libdstdec/dst_decoder.c:245-246 | storing a node through the cell that points at place k puts it there and moves what follows, at the head or behind a node |
| `LinkedLists.List.Unlink` | libs/libdstdec/yarn.c:347 | storing a node's link through the cell that points at it takes exactly that node off |
| `JobLists.JobLists.Append` | libs/libdstdec/dst_decoder.c:405-410 | the job goes to the end of the decode list through `decode_tail`, and the write list is untouched |
| `JobLists.JobLists.TakeHead` | libs/libdstdec/dst_decoder.c:209-216 | takes the first job off, and `decode_tail` points at the last node or the head |
| `JobLists.JobLists.PutStop` | libs/libdstdec/dst_decoder.c:161-168 | whatever the list had, it is the stop job alone |
| `JobLists.JobLists.Insert` | libs/libdstdec/dst_decoder.c:238-247 | the loop finds the first job with a larger number; the job is spliced in front of it, behind all with smaller ones |
| `JobLists.JobLists.TakeFirst` | libs/libdstdec/dst_decoder.c:281-283 | takes the first job off the write list and announces the next, or -1 |
| `ThreadLists.ThreadList.Launch` | libs/libdstdec/yarn.c:278-283 | the new thread goes in front |
| `ThreadLists.ThreadList.Reenter` | libs/libdstdec/yarn.c:202-223 | the walk finds the thread; it is marked done, moved to the head and counted |
| `ThreadLists.ThreadList.Join` | libs/libdstdec/yarn.c:295-311 | the thread is taken off the list, and off the count if it was marked done |
| `ThreadLists.ThreadList.JoinDone` | libs/libdstdec/yarn.c:332-347 | the first thread marked done is taken off list and count |
| `DstDecoder.Decoder.constructor` | libs/libdstdec/dst_decoder.c:132-148 | empty linked lists, an input pool of 2*procs+2 spaces and an unlimited output pool: the initial state, but for the write thread |
| `DstDecoder.Decoder.Start` | libs/libdstdec/dst_decoder.c:366-370 | launches the write thread, after which the object shows the initial state of the transition system |
| `DstDecoder.Decoder.NewJob` | libs/libdstdec/dst_decoder.c:380-390 | takes an input space for a new job that has the next number |
| `DstDecoder.Decoder.StartDecoder` | libs/libdstdec/dst_decoder.c:398-403 | takes the launch step: a decode thread goes in front of the thread list, exactly while fewer than `procs` run (how many that makes is `DstStaffing.DecodersLaunched`) |
| `DstDecoder.Decoder.QueueJob` | libs/libdstdec/dst_decoder.c:405-410 | links the job behind `decode_tail` and counts it; no list has it yet |
| `DstDecoder.Decoder.TakeHead` | libs/libdstdec/dst_decoder.c:206-216 | unlinks the head of the decode list, resetting `decode_tail` when that empties it, and uncounts it; the stop job stays where it is |
| `DstDecoder.Decoder.TakeOutSpace` | libs/libdstdec/dst_decoder.c:223 | gets an output space for the job, which never waits |
| `DstDecoder.Decoder.DropInSpace` | libs/libdstdec/dst_decoder.c:231 | gives the input space back |
| `DstDecoder.Decoder.QueueResult` | libs/libdstdec/dst_decoder.c:236-247 | splices the job into the write list in front of the first job with a larger number, found by the pointer walk, and announces the number of the head |
| `DstDecoder.Decoder.TakeFirst` | libs/libdstdec/dst_decoder.c:278-283 | unlinks the awaited job and announces the new head, or -1 |
| `DstDecoder.Decoder.DropOutSpace` | libs/libdstdec/dst_decoder.c:295-301 | gives the output space back and goes on to the next number |
| `DstDecoder.Decoder.CheckDecodeList` | libs/libdstdec/dst_decoder.c:305-308 | the assertion about the decode list holds in every reachable state of the write thread: `decode_head` is null and `decode_have` is 0 |
| `DstDecoder.Decoder.CheckWriteList` | libs/libdstdec/dst_decoder.c:309-311 | and so does the one about `write_head` |
| `DstDecoder.Decoder.Leave` | libs/libdstdec/yarn.c:197-224 | a thread whose function ends, decode thread or write thread, finds itself in the list, which never fails, and is marked done at its head |
| `DstDecoder.Decoder.JoinWriteThread` | libs/libdstdec/dst_decoder.c:344-345 | finds the ended write thread by the pointer walk and unlinks it; the lookup never fails |
| `DstDecoder.Decoder.StopDecoders` | libs/libdstdec/dst_decoder.c:161-168 | makes the stop job head and tail of the decode list |
| `DstDecoder.Decoder.JoinDone` | libs/libdstdec/yarn.c:328-350 | one turn of join_all finds the first thread marked done and unlinks it; the lookup never fails |
| `DstDecoder.Decoder.EndJoin` | libs/libdstdec/dst_decoder.c:170-174 | when the list is empty, as many were caught as were launched |
| `DstDecoder.Decoder.FreeAll` | libs/libdstdec/dst_decoder.c:176-184 | both pools free every space they made, and all frames have been delivered in order |
| `BufferPool.GetKeeps` | libs/libdstdec/buffer_pool.c:44-85 | a request hands out a space nobody used, with use count one, touches no other space, and makes a new one only when none is listed; the pool invariant is kept |
| `BufferPool.DropKeeps` | libs/libdstdec/buffer_pool.c:96-113 | a drop takes one reference off the space and lists it exactly when that was the last |
| `BufferPool.GetUndoesDrop` | libs/libdstdec/buffer_pool.c:54-112 | the space listed last is the first to be handed out: a get takes back the drop of a last reference |
| `BufferPool.DropUndoesGet` | libs/libdstdec/buffer_pool.c:54-112 | and that drop takes back the get of a listed space |
| `BufferPool.AllDropped` | libs/libdstdec/buffer_pool.c:117-140 | the closing assertion: when no space is in use, the list has `made` spaces |
| `BufferPool.RunKeeps` | libs/libdstdec/buffer_pool.c:44-113 | over any run of gets, uses and drops, `have` is the list's length, listed spaces are exactly the unused ones, `limit + made` is constant for a limited pool, the use counts add up to the references that are out, and with none out every space is listed |
| `BufferPool.RunFromCreate` | libs/libdstdec/buffer_pool.c:33-140 | the same from the creation of the pool on |
| `BufferPool.BufferPool.GetSpace` | libs/libdstdec/buffer_pool.c:44-85 | does exactly that to the fields, and the space it returns has use count one |
| `BufferPool.BufferPool.UseSpace` | libs/libdstdec/buffer_pool.c:89-93 | adds one use |
| `BufferPool.BufferPool.DropSpace` | libs/libdstdec/buffer_pool.c:96-113 | drops one use and links the space at the head on the last |
| `BufferPool.BufferPool.Free` | libs/libdstdec/buffer_pool.c:117-140 | the loop empties the list, and its count is `made` |
| `PoolLocks.StepKeeps` | libs/libdstdec/buffer_pool.c:44-113 | with each possess and twist a step of its own, every step of any number of threads keeps the invariant of locks, list and counts, and no assertion fails |
| `PoolLocks.RunKeeps` | libs/libdstdec/buffer_pool.c:44-113 | so does every run |
| `PoolLocks.NoCyclicWait` | libs/libdstdec/buffer_pool.c:53-62 | although get locks the pool before the space and drop the space before the pool, while a thread is inside an operation and not asleep, it can go on, or the holder of the pool lock, or the holder of a space's lock |
| `PoolLocks.HaveHolderSteps` | libs/libdstdec/buffer_pool.c:53-62 | the holder of the pool lock can go on, or it is a get that waits for the lock of a listed space, and the holder of that, which does not hold the pool lock, can go on |
| `PoolLocks.GetWaitsOnReleased` | libs/libdstdec/buffer_pool.c:53-61 | the space whose lock a get waits for while it holds the pool is in front of the list, and the lock's holder is another thread: the drop that listed it, which has given the pool lock back and can go on |
| `PoolLocks.UseHolderSteps` | libs/libdstdec/buffer_pool.c:96-113 | the holder of a space's lock can go on if the pool lock is free or the space is listed |
| `PoolLocks.PushedAlone` | libs/libdstdec/buffer_pool.c:104-111 | a space about to be listed is named by no other thread and is not on the list |
| `PoolLocks.PoppedUnused` | libs/libdstdec/buffer_pool.c:54-61 | a space about to be unlinked has use value 0, and not even the drop that listed it still counts on it |
| `PoolLocks.QuietPool` | libs/libdstdec/buffer_pool.c:44-113 | when no thread is inside an operation, the listed spaces are exactly those without references, and every use value is its number of references |
| `PoolRefinement.LockedRunsAreAtomic` | libs/libdstdec/buffer_pool.c:44-113 | at every moment of every run of any threads' single lock operations, the pool is that of the atomic operations, one after another in the order in which they took effect |
| `PoolRefinement.StepRefines` | libs/libdstdec/buffer_pool.c:44-113 | a step of a thread is nothing to the atomic pool, or one whole legal operation |
| `PoolRefinement.EffectOnce` | libs/libdstdec/buffer_pool.c:44-113 | every operation takes effect in exactly one of its own steps, between its start and its end |
| `PoolRefinement.EffectsApart` | libs/libdstdec/buffer_pool.c:44-113 | and no step of another thread changes whether it has |
| `PoolRefinement.PopRefines` | libs/libdstdec/buffer_pool.c:54-61 | a get takes effect when it unlinks a space, and that is the space the atomic get returns |
| `PoolRefinement.NewRefines` | libs/libdstdec/buffer_pool.c:64-73 | or when it makes a new one |
| `PoolRefinement.PushRefines` | libs/libdstdec/buffer_pool.c:104-111 | a drop of the last reference takes effect when it lists the space, before it writes the count |
| `PoolRefinement.DecRefines` | libs/libdstdec/buffer_pool.c:111-112 | any other drop takes effect when it writes the count; one that listed the space changes nothing more |
| `PoolReplay.ScriptDoes` | libs/libdstdec/buffer_pool.c:44-113 | conversely, a thread that goes through the lock steps of an operation alone does what the atomic operation does |
| `PoolReplay.AtomicRunsAreLocked` | libs/libdstdec/buffer_pool.c:44-113 | so every run of atomic operations, each by any of the threads, is a run of lock operations |
| `Bits.ReadUWritten` | libs/libdstdec/dst_data.c:374-424 | a number of n bits, written highest bit first, is read back and the stream stands behind it |
| `Bits.ReadUExact` | libs/libdstdec/dst_data.c:374-424 | and only it: what reads as v is v written, and v has at most n bits |
| `Bits.ReadSWritten` | libs/libdstdec/dst_data.c:329-355 | signed reads undo two's complement |
| `Bits.ReadSExact` | libs/libdstdec/dst_data.c:329-355 | and the value read is in the range of the width |
| `DstData.StrData.constructor` | libs/libdstdec/dst_data.c:169-185 | fills the reader: nothing read, all bits ahead |
| `DstData.StrData.GetBit` | libs/libdstdec/dst_data.c:376-392 | the one-bit fast path reads the same bit as the general loop would, or fails exactly at the end |
| `DstData.JoinedAdds` | libs/libdstdec/dst_data.c:409-417 | masking the byte in place, shifting the bits to their place in the word, in whichever direction, and or-ing them in is adding them there |
| `BitOps.AndMask` | libs/libdstdec/dst_data.c:411 | a mask of n ones shifted to a place leaves the n bits there, in place |
| `DstData.StrData.GetWord` | libs/libdstdec/dst_data.c:394-423 | the general loop with its masks, shifts in two directions and or collects the next n bits, highest first |
| `DstData.StrData.GetBits` | libs/libdstdec/dst_data.c:374-424 | for n in 1..32: succeeds exactly when n bits are left, returns the number they make and advances get_in_bitcount by n |
| `DstData.StrData.GetUnsigned` | libs/libdstdec/dst_data.c:245-265 | the same through an int: 32 bits wrap, a negative width fails, width 0 reads nothing |
| `DstData.ToInt32Wraps` | libs/libdstdec/dst_data.c:245-265 | what the conversion to int makes of a number is the one of 32 bits that differs from it by a multiple of 2^32 |
| `DstData.StrData.GetShortSigned` | libs/libdstdec/dst_data.c:329-355 | the conversion through a short yields the signed number for every width up to 16 |
| `DstRice.FitsWidth` | libs/libdstdec/unpack_dst.c:190-198 | a value up to x fits Log2RoundUp(x) bits |
| `DstRice.RiceWritten` | libs/libdstdec/unpack_dst.c:141-173 | for every m and every number, decoding its code returns it and stops behind it |
| `DstRice.RiceExact` | libs/libdstdec/unpack_dst.c:141-173 | whatever decodes to a number is the code of that number |
| `DstUnpackCodes.RiceDecode` | libs/libdstdec/unpack_dst.c:141-173 | the loop computes that decoding on the reader |
| `DstUnpackCodes.Log2RoundUp` | libs/libdstdec/unpack_dst.c:190-198 | the loop finds the least y with x < 2^y |
| `DstSegments.LengthFits` | libs/libdstdec/unpack_dst.c:257-265 | every legal length fits the field width computed for it from what is left of the frame |
| `DstSegments.SegmentsWritten` | libs/libdstdec/unpack_dst.c:215-338 | decoding the code of any legal segmentation returns it and stops behind it |
| `DstSegments.SegmentsExact` | libs/libdstdec/unpack_dst.c:215-338 | whatever decodes is legal and is the code of what it decodes to |
| `DstSegments.ReadPartitions` | libs/libdstdec/unpack_dst.c:240-275 | a segmentation that was read cuts every channel into segments that add up to the frame, each of at least MinSegLen bits, the implicit last one too; there are at most MaxNrOfSegs + 1 of them, at most MaxNrOfSegs exactly when it is not a shared one with MaxNrOfSegs explicit segments, and never more than the arrays have columns |
| `DstSegments.OverrunsExactly` | libs/libdstdec/unpack_dst.c:240-282 | what the source's tests let through is read, unless it is shared, has MaxNrOfSegs explicit segments, and that is all the columns there are |
| `DstSegments.NoOverrun` | libs/libdstdec/unpack_dst.c:412-420 | with a column to spare, as for the filters, no segmentation overruns |
| `DstSegments.NineSegments` | libs/libdstdec/unpack_dst.c:428-436 | the probability tables have such a segmentation: for every frame of at least 36 bytes a channel, two channels of eight explicit segments pass all tests |
| `DstFrame.CopyNeverFails` | libs/libdstdec/unpack_dst.c:357-389 | after the filter limits the checks of CopySegmentData never fail |
| `DstFrame.FilterSegmentsCopy` | libs/libdstdec/unpack_dst.c:357-389 | the copy keeps lengths and resolution, and sets PSameSegAllCh exactly when all channels agree |
| `DstFrame.SegmentationOverruns` | libs/libdstdec/unpack_dst.c:408-439 | of a frame's segmentations only one of the probability tables' own can overrun, exactly when it is shared with eight explicit segments |
| `DstLayout.ResolutionField` | libs/libdstdec/unpack_dst.c:248-252 | the resolution has the least number of bits that holds its largest value |
| `DstLayout.LengthField` | libs/libdstdec/unpack_dst.c:257-265 | a length has the least number of bits that holds the longest segment which leaves room for a last one |
| `DstLayout.LegalExactly` | libs/libdstdec/unpack_dst.c:257-265 | the tests on the lengths, each against what is left, come to this: every segment is long enough, the last one, which takes the rest, too |
| `DstLayout.SegmentsOfFrame` | libs/libdstdec/unpack_dst.c:408-439 | the segments of each channel fill the frame: at most five of 1024 bits or more for the filters, at most eight of 32 bits or more for the probability tables, and the same ones if these are not sent |
| `DstUnpackSegments.ReadResolutionOnce` | libs/libdstdec/unpack_dst.c:245-255 | reads the resolution the first time only and refuses 0 and what exceeds the frame |
| `DstUnpackSegments.ReadOneSegment` | libs/libdstdec/unpack_dst.c:296-320 | one explicit segment: width, length, limits |
| `DstUnpackSegments.ReadChannelData` | libs/libdstdec/unpack_dst.c:286-331 | the loop over a channel, which tests the number of segments in front of the end bit without sharing and behind it with |
| `DstUnpackSegments.ReadSharedSegments` | libs/libdstdec/unpack_dst.c:235-283 | the shared branch, copied to all channels |
| `DstUnpackSegments.ReadOwnSegments` | libs/libdstdec/unpack_dst.c:284-332 | the branch with a segmentation for each channel |
| `DstUnpackSegments.ReadTableSegmentData` | libs/libdstdec/unpack_dst.c:215-338 | on arrays of 8 columns: fails exactly where the decoding fails and with its error, which is RowOverrun for a segmentation that has no room, else leaves the segmentation in the arrays |
| `DstUnpackSegments.CopySegmentData` | libs/libdstdec/unpack_dst.c:357-389 | copies and checks channel by channel; its result and flag are those of the specification |
| `DstMapping.MappingWritten` | libs/libdstdec/unpack_dst.c:456-521 | decoding the code of any legal mapping returns it and stops behind it |
| `DstMapping.MappingExact` | libs/libdstdec/unpack_dst.c:456-521 | whatever decodes is legal and is the code of what it decodes to |
| `DstMapping.ReadCanonical` | libs/libdstdec/unpack_dst.c:477-518 | on success the table numbers are a restricted-growth sequence: exactly 0 to N-1 occur, N is at most the maximum, each number is at most the count of different ones before it, and its field was wide enough for "new table" |
| `DstMapping.GrowsUsesAll` | libs/libdstdec/unpack_dst.c:477-484 | in such a sequence every number below the final count occurs |
| `DstLayout.NumberField` | libs/libdstdec/unpack_dst.c:477-484 | a table number has the least number of bits that holds the next new one |
| `DstLayout.TablesUsed` | libs/libdstdec/unpack_dst.c:574-613 | a coded frame that unpacks brings exactly the tables that its segments use |
| `DstLayout.SharedAsSent` | libs/libdstdec/unpack_dst.c:541-566 | taking over segmentation and mapping means what sending them again would |
| `DstUnpackMapping.ReadTableNumbers` | libs/libdstdec/unpack_dst.c:475-485 | the loop over one row of numbers |
| `DstUnpackMapping.ShareTables` | libs/libdstdec/unpack_dst.c:486-493 | copies channel 0's row, and fails exactly when some channel has another number of segments |
| `DstUnpackMapping.ReadOwnTables` | libs/libdstdec/unpack_dst.c:497-513 | the loop over all channels, whose first number is not sent |
| `DstUnpackMapping.ReadTableMappingData` | libs/libdstdec/unpack_dst.c:456-521 | fails exactly where the decoding fails and with its error, else leaves the mapping in the array |
| `DstUnpackMapping.CopyMappingData` | libs/libdstdec/unpack_dst.c:540-566 | fails exactly on different segment counts or too many tables, else copies the mapping; the flag is set exactly when every number equals the one in channel 0's row in its place, be it left from earlier |
| `DstUnpackMapping.FlagRightExactly` | libs/libdstdec/unpack_dst.c:545-559 | the flag says that all channels agree if and only if they have equally many segments or some number differs from the one in channel 0's row in its place |
| `DstUnpackMapping.FlagWrong` | libs/libdstdec/unpack_dst.c:545-559 | and it is wrong for the legal mapping [0, 1], [0] of two channels with two segments and one |
| `DstTables.CorrectionFloors` | libs/libdstdec/unpack_dst.c:693-696 | the two branches for the sign of the prediction are one rule: both subtract floor((x + 4) / 8) |
| `DstTables.PredictedZero` | libs/libdstdec/unpack_dst.c:690-691 | coefficients that are 0 predict 0 |
| `DstTables.PredictedLinear` | libs/libdstdec/unpack_dst.c:690-691 | the prediction is linear in the coefficients |
| `DstTables.PredictedUnit` | libs/libdstdec/unpack_dst.c:690-691 | the coefficient at place t weighs the entry t + 1 places back, and no other |
| `DstTables.MethodsPredict` | libs/libdstdec/unpack_dst.c:688-702 | what the methods of CCP_CalcInit predict: the last entry again; the last two going on in a line; for probability tables the last three going on in a parabola, for filters the rounded sum of three |
| `DstTables.TablesWritten` | libs/libdstdec/unpack_dst.c:650-707 | decoding the ghost-encoded bits of legal tables, with any method, prediction and m, returns the tables and stops at the next bit |
| `DstTables.TablesExact` | libs/libdstdec/unpack_dst.c:746-814 | whatever decodes has coefficients in [-256, 255] and probabilities in [1, 128], and is the code of what it decodes to |
| `DstTables.KindsValid` | libs/libdstdec/unpack_dst.c:652-712 | filters have up to 128 entries from -256 to 255, probability tables up to 64 from 1 to 128, and the field widths fit these ranges |
| `DstUnpackTables.Predict` | libs/libdstdec/unpack_dst.c:794-795 | the loop over the taps computes `Predicted`, whose meaning `PredictedLinear`, `PredictedUnit` and `MethodsPredict` give |
| `DstUnpackTables.UnpackPredicted` | libs/libdstdec/unpack_dst.c:690-702 | one entry from its Rice code and its prediction, with the C rounding, or the range error |
| `DstUnpackTables.UnpackCoded` | libs/libdstdec/unpack_dst.c:688-702 | the predicted entries of a row |
| `DstUnpackTables.UnpackTable` | libs/libdstdec/unpack_dst.c:652-706 | one table: length, entries, and for a filter the cleared rest of its row |
| `DstUnpackTables.ReadFilterCoefSets` | libs/libdstdec/unpack_dst.c:637-713 | all filters as the decoding has them, and per channel the number of half-probability bits |
| `DstUnpackTables.ReadProbabilityTables` | libs/libdstdec/unpack_dst.c:734-817 | all probability tables as the decoding has them |
| `DstUnpackBits.SpreadBits` | libs/libdstdec/unpack_dst.c:836-848 | byte k of an entry of the nibble table is bit 3 - k of the nibble |
| `DstUnpackBits.WordBits` | libs/libdstdec/unpack_dst.c:859-869 | reading n bits one by one yields the bits of the number they make |
| `DstUnpackBits.FetchedWord` | libs/libdstdec/unpack_dst.c:857-870 | a word read whole and spread out is 32 bits read one by one |
| `DstUnpackBits.StoreWord` | libs/libdstdec/unpack_dst.c:861-869 | eight table entries put the 32 bits of a word into 32 bytes, also when the int is negative |
| `DstUnpackBits.ReadArithmeticCodedData` | libs/libdstdec/unpack_dst.c:850-874 | for every start and length the fast path is the bit-by-bit read |
| `DstUnpackBits.ReadDSDframe` | libs/libdstdec/unpack_dst.c:115-125 | the loop stores the next bytes, 0 for those that are missing |
| `DstFrame.SegmentationWritten` | libs/libdstdec/unpack_dst.c:408-439 | both segmentations, the second one sent or copied, are read back |
| `DstFrame.SegmentationExact` | libs/libdstdec/unpack_dst.c:408-439 | and only they |
| `DstFrame.HeaderWritten` | libs/libdstdec/unpack_dst.c:408-613 | the header of any legal frame is read back |
| `DstFrame.HeaderExact` | libs/libdstdec/unpack_dst.c:408-613 | and only it |
| `DstFrame.FrameWritten` | libs/libdstdec/unpack_dst.c:891-942 | unpacking the bits of any legal frame, coded or not, returns the frame |
| `DstFrame.CodedFrameExact` | libs/libdstdec/unpack_dst.c:891-942 | a coded frame that unpacks is legal, consumes exactly its bits, and is the code of the frame it unpacks to; so no two bit strings unpack to the same coded frame |
| `DstRefusals.HeaderTooShort` | libs/libdstdec/unpack_dst.c:408-613 | a header that is cut short anywhere is refused with NegativeBitAllocation |
| `DstRefusals.CodedTooShort` | libs/libdstdec/unpack_dst.c:891-942 | a coded frame that is cut short anywhere in front of its arithmetic code is refused, never taken for another one |
| `DstRefusals.StuffingRefused` | libs/libdstdec/unpack_dst.c:909-913 | an uncoded frame is refused exactly for a stuffing that is not 0 |
| `DstRefusals.ResolutionRefused` | libs/libdstdec/unpack_dst.c:250-252 | a resolution is refused exactly if it is 0 or leaves no room for the shortest segment |
| `DstRefusals.LengthRefused` | libs/libdstdec/unpack_dst.c:261-264 | a length is refused exactly if it is too short or leaves too little for the last segment |
| `DstRefusals.ManyRefused` | libs/libdstdec/unpack_dst.c:240-289 | a channel with legal lengths but too many of them is refused for that; without sharing one less is allowed than with it |
| `DstRefusals.NumberRefused` | libs/libdstdec/unpack_dst.c:481-484 | a table number beyond the next new one is refused |
| `DstRefusals.TablesRefused` | libs/libdstdec/unpack_dst.c:516-517 | a mapping is refused exactly if it uses more tables than are allowed |
| `DstRefusals.SharingRefused` | libs/libdstdec/unpack_dst.c:486-489 | channels share the numbers of the first exactly if all have as many segments |
| `DstRefusals.TakingOverRefused` | libs/libdstdec/unpack_dst.c:541-566 | the probability tables take over the mapping exactly if every channel has as many segments for both and there are not too many tables, and which of the two errors comes first |
| `DstRefusals.MethodRefused` | libs/libdstdec/unpack_dst.c:674-677 | a coded table that is no longer than what its method starts from is refused |
| `DstRefusals.EntryRefused` | libs/libdstdec/unpack_dst.c:698-699 | a predicted entry is refused exactly if it is outside -256..255, or 1..128 |
| `DstRefusals.CodeRefused` | libs/libdstdec/unpack_dst.c:934-938 | an arithmetic code that starts with 1 is refused |
| `DstFrame.DstConfigValid` | libs/libdstdec/unpack_dst.c:417-435 | the decoder's own segment limits and table widths satisfy what the theorems assume, for every frame of at least 128 bytes a channel |
| `DstUnpack.PlainFrameBytes` | libs/libdstdec/unpack_dst.c:904-917 | an uncoded frame yields the MaxFrameLen * NrOfChannels input bytes behind the first, 0 for those that are missing |
| `DstUnpack.Ebunch.ReadSegmentData` | libs/libdstdec/unpack_dst.c:408-439 | reads or copies the segmentations into the frame header |
| `DstUnpack.Ebunch.ReadMappingData` | libs/libdstdec/unpack_dst.c:585-613 | reads or copies the mappings, and the half-probability flags |
| `DstUnpack.Ebunch.ReadCodeData` | libs/libdstdec/unpack_dst.c:934-938 | the arithmetic code is all that is left of the frame, and its first bit has to be 0 |
| `DstUnpack.Ebunch.UnpackPlainFrame` | libs/libdstdec/unpack_dst.c:904-917 | an uncoded frame: stuffing pattern, then the bytes |
| `DstUnpack.Ebunch.UnpackDSTframe` | libs/libdstdec/unpack_dst.c:891-942 | fails exactly where the decoding of the frame's bits fails and with its error; else the arrays, with the source's 8 columns, hold the frame it returns, or the DSD bytes are in the output |
| `BitReverse.TableReverses` | libs/libsacd/dsf.c:63-81 | the 256 entries of the table reverse the bits of every byte |
| `BitReverse.ReverseTwice` | libs/libsacd/dsf.c:63-81 | reversing twice changes nothing |
| `Dsf.WriteStream` | libs/libsacd/dsf.c:238-264 | writing a frame that fits adds its bit-reversed bytes of channel i to channel i and to no other, in order, through any number of flush rounds; only full blocks are written |
| `Dsf.SmoothExactly` | libs/libsacd/dsf.c:247-261 | only full blocks are written if and only if the frame has at least 4096 bytes a channel, or the buffers are empty or full, or there is no frame; else a block padded in the middle of the track is written |
| `Dsf.ShortFramesPad` | libs/libsacd/dsf.c:230-267 | such tracks exist: any two frames shorter than a block a channel at the start of a track |
| `Dsf.FramesStream` | libs/libsacd/dsf.c:230-267 | the same over all frames of a track |
| `Dsf.LongSmooth` | libs/libsacd/dsf.c:247-248 | frames of at least 4096 bytes a channel always meet that condition |
| `Dsf.UnpaddedPlays` | libs/libsacd/dsf.c:192-197 | a no-pad track that is not the last plays exactly its full blocks; the rest is carried over |
| `Dsf.LastPlays` | libs/libsacd/dsf.c:198-213 | cut to `sample_count`, the last track plays everything, and its padding is zeros and less than a block a channel |
| `Dsf.TracksConserve` | libs/libsacd/dsf.c:167-267 | over any consecutive no-pad tracks whose frames are smooth, as all of at least 4096 bytes a channel are: per channel, the files played one after the other are the bit-reversed input in order, and only the last file has padding |
| `DsfWriter.DsfHandle.constructor` | libs/libsacd/dsf.c:167-182 | starts with what the previous track left, or empty |
| `DsfWriter.DsfHandle.StoreByte` | libs/libsacd/dsf.c:247-253 | one byte at a channel that has room |
| `DsfWriter.DsfHandle.WriteBlock` | libs/libsacd/dsf.c:254-262 | writes and clears one channel's block |
| `DsfWriter.DsfHandle.Round` | libs/libsacd/dsf.c:240-263 | the channels' fills agree, so a round stores on all channels or flushes all |
| `DsfWriter.DsfHandle.WriteFrame` | libs/libsacd/dsf.c:230-267 | the loop terminates although flush rounds take no input, and leaves the buffers, the file and both counters of the specification; it returns what the file has grown by |
| `DsfWriter.DsfHandle.Close` | libs/libsacd/dsf.c:184-213 | keeps the buffers for the next track, or pads and writes them |
| `Frames.DeliversCompleteRuns` | libs/libsacd/scarletbook_read.c:575-667 | on any packets, what has been delivered is exactly the complete runs, in order: each the full payload from one frame start to the next, shorter than 64 KiB, with all its packets (DST) or a multiple of the DSD frame size |
| `Frames.FramesRoundTrip` | libs/libsacd/scarletbook_read.c:575-685 | cutting frames into packets in any way and assembling them delivers exactly those frames in order |
| `Frames.StepsAppend` | libs/libsacd/scarletbook_read.c:587-681 | packets can be processed in any number of portions |
| `Sectors.SectorWritten` | libs/libsacd/scarletbook_read.c:595-679 | parsing the bytes of any laid-out sector returns its audio packets with their frame informations |
| `Sectors.SectorsAppend` | libs/libsacd/scarletbook_read.c:591-681 | cutting the sectors into calls does not matter |
| `Sectors.CallsJoin` | libs/libsacd/scarletbook_read.c:587-688 | any number of calls, each from the frame and flags the one before left, do what one call with all their sectors does |
| `Sectors.SectorsRoundTrip` | libs/libsacd/scarletbook_read.c:587-688 | for every packetisation of frames into sectors (with padding and supplementary packets between) and every split of the sectors into any number of calls, the last one marked, the callback receives exactly those frames in order |
| `Sectors.PacketInfoWritten` | libs/libsacd/scarletbook_read.c:607-613 | the bit fields of a packet information are read as they were laid out |
| `Sectors.HeaderSpare` | libs/libsacd/scarletbook_read.c:595-605 | the fields of a sector header are read as they are, whatever its spare bit is |
| `Sectors.PacketSpare` | libs/libsacd/scarletbook_read.c:607-613 | so are those of a packet information |
| `Sectors.InfoSpare` | libs/libsacd/scarletbook_read.c:615-630 | so are the sector count and the channels of a frame information |
| `SectorReader.ScarletbookHandle.constructor` | libs/libsacd/scarletbook_read.c:551-557 | starts at a sector boundary without a frame |
| `SectorReader.ScarletbookHandle.ExecReadCallback` | libs/libsacd/scarletbook_read.c:575-585 | delivers a frame exactly when it is complete |
| `SectorReader.ScarletbookHandle.AppendPayload` | libs/libsacd/scarletbook_read.c:651-667 | appends a packet's payload, or drops the frame that would reach 64 KiB |
| `SectorReader.ScarletbookHandle.ProcessPacket` | libs/libsacd/scarletbook_read.c:635-674 | the switch over the packet type does to the frame what the assembly does |
| `SectorReader.ScarletbookHandle.ParseSector` | libs/libsacd/scarletbook_read.c:595-629 | reads the header and the packet and frame informations, and finds the payloads behind them |
| `SectorReader.ScarletbookHandle.ProcessSector` | libs/libsacd/scarletbook_read.c:593-680 | a sector does what its packets do, and `packet_info_idx` equals the packet count behind it |
| `SectorReader.ScarletbookHandle.ProcessFrames` | libs/libsacd/scarletbook_read.c:587-688 | the whole call, from sector boundary to sector boundary, delivers what the packets of its sectors deliver |
| `Dsdiff.HeaderLength` | libs/libsacd/dsdiff.c:558-559 | the rewritten header has the size of the first one, so it overwrites nothing else |
| `Dsdiff.FramesWritten` | libs/libsacd/dsdiff.c:616-664 | after any DST frames the file is the header and their chunks, and the index has their places |
| `Dsdiff.ClosedFile` | libs/libsacd/dsdiff.c:582-614 | the closed file is the final header, the chunks and the footer |
| `Dsdiff.TailStands` | libs/libsacd/dsdiff.c:582-604 | the chunks behind the index stand at the end of the file |
| `Dsdiff.WalkChunks` | libs/libsacd/dsdiff.c:630-660 | walking the frame chunks finds exactly the frames written, each where the index says |
| `Dsdiff.FoundData` | libs/libsacd/dsdiff.c:643-651 | what stands at the place found is the frame's data |
| `Dsdiff.IndexAgrees` | libs/libsacd/dsdiff.c:278-304 | entry i of the index chunk is the offset and the length of frame i's data |
| `Dsdiff.ClosedIndexAgrees` | libs/libsacd/dsdiff.c:582-664 | so it is in the file that a run of the writer leaves |
| `Dsdiff.SizesAgree` | libs/libsacd/dsdiff.c:558-559 | with DST: the form size is the file size minus the chunk header, the sound chunk's size is that of its contents, and the frame information states how many frames there are, 75 a second |
| `Dsdiff.ClosedSizesAgree` | libs/libsacd/dsdiff.c:582-614 | so it is in the file that a run of the writer leaves |
| `Dsdiff.DsdFramesWritten` | libs/libsacd/dsdiff.c:616-628 | without DST: after any frames the file is the header and the frames one after the other |
| `Dsdiff.DsdClosedFile` | libs/libsacd/dsdiff.c:582-628 | the closed file is the final header, all frames, a zero byte exactly if their total is odd, and the tail |
| `Dsdiff.DsdClosedAgrees` | libs/libsacd/dsdiff.c:582-628 | read from that file, the form size is the file size minus the chunk header, the size of the sound chunk is that of the frames and the pad byte, the frames stand there, and the tail behind |
| `DsdiffWriter.DsdiffHandle.constructor` | libs/libsacd/dsdiff.c:574-580 | writes the first header |
| `DsdiffWriter.DsdiffHandle.Grow` | libs/libsacd/dsdiff.c:637-641 | the grown index keeps its entries |
| `DsdiffWriter.DsdiffHandle.WriteFrame` | libs/libsacd/dsdiff.c:616-664 | with DST it appends the chunk with its pad byte and the index entry, without DST the frame itself, and counts what it wrote; what files that makes is `ClosedFile` and `DsdClosedFile` |
| `DsdiffWriter.DsdiffHandle.RenderEntries` | libs/libsacd/dsdiff.c:294-301 | the loop renders every entry in order |
| `DsdiffWriter.DsdiffHandle.Close` | libs/libsacd/dsdiff.c:582-604 | pads, appends the footer and rewrites the header |
| `ProtobufWire.VarintRoundTrip` | libs/libcommon/pb_decode.c:82-98 | every 64-bit number is read back from its varint, and the stream stands behind it |
| `ProtobufWire.Varint64Length` | libs/libcommon/pb_encode.c:206-223 | a varint has at most ten bytes, as many as the encoder's buffer and the decoder's loop allow |
| `ProtobufWire.ZigZagRoundTrip` | libs/libcommon/pb_decode.c:462-469 | undoing the zig-zag on 64 bits and cutting to the field's size returns the number, of either sign and any size |
| `ProtobufWire.ZigZagMeans` | libs/libcommon/pb_encode.c:295-310 | a signed number s is sent as 2s, or -2s - 1 if it is negative |
| `ProtobufWire.SkipVarintPut` | libs/libcommon/pb_decode.c:100-109 | skipping a varint of any length stops behind it |
| `ProtobufWire.FixedRoundTrip` | libs/libcommon/pb_encode.c:312-335 | fixed-width numbers are read back |
| `ProtobufRoundTrip.ValueRoundTrip` | libs/libcommon/pb_decode.c:454-526 | a value that its field can hold, of any of the six types, is decoded to itself, and the stream stands behind it |
| `ProtobufRoundTrip.FindsTag` | libs/libcommon/pb_decode.c:229-240 | from wherever the iterator stands, it finds the field with the tag |
| `ProtobufRoundTrip.FindsNone` | libs/libcommon/pb_decode.c:229-240 | and finds none when there is none |
| `ProtobufRoundTrip.UnknownSkipped` | libs/libcommon/pb_decode.c:410-416 | a field the descriptor does not know, of any of the four wire types, is skipped exactly |
| `ProtobufRoundTrip.ItemsRestore` | libs/libcommon/pb_decode.c:383-437 | fields and unknown fields in any order are accepted if and only if each required field's bit in `fields_seen` is set, be it by another field; then every field on the wire is restored, every other has its default, and the stream stands behind the message |
| `ProtobufRoundTrip.AnyOrderRestores` | libs/libcommon/pb_decode.c:383-437 | a message whose present fields are all on the wire, in any order, repeated, mixed with unknown fields, ended by a 0 tag or the stream, is restored from any start of the iterator |
| `ProtobufRoundTrip.MissingRefused` | libs/libcommon/pb_decode.c:428-434 | where no required field shares its bit, as with up to 32 fields, a message is accepted if and only if every required field is on the wire |
| `ProtobufRoundTrip.MissingAccepted` | libs/libcommon/pb_decode.c:428-434 | for every descriptor in which a required field has another field a multiple of 32 places away, a message on the wire that lacks exactly this one and is accepted for any memory; the field keeps its default |
| `ProtobufRoundTrip.RefusedExactly` | libs/libcommon/pb_decode.c:418-434 | a descriptor makes the decoder refuse every message that lacks a required field if and only if no required field has another field a multiple of 32 places away |
| `ProtobufRoundTrip.EncodedItems` | libs/libcommon/pb_encode.c:143-203 | what pb_encode writes are the present fields in the descriptor's order |
| `ProtobufRoundTrip.MessageRoundTrip` | libs/libcommon/pb_encode.c:143-203 | decoding what was encoded restores the message, for any descriptor with distinct tags and whatever the memory held before |
| `ProtobufRoundTrip.AcceptedStays` | libs/libcommon/pb_decode.c:383-437 | whatever bytes are accepted, every number, byte array and string (with its terminator) stays within its field, and without a zero in a string the message survives being encoded and decoded again |
| `ProtobufRoundTrip.ItemsLeave` | libs/libcommon/pb_decode.c:337-377 | a field that is on the wire has the value of the message, any other its default, or what its memory held if it has none; and an optional one is there exactly if it was on the wire |
| `ProtobufSubset.KeyParts` | libs/libcommon/pb_encode.c:225-260 | a key is the field number and one of the wire types 0 (varints), 1 (64 bits), 2 (data and strings) and 5 (32 bits) |
| `ProtobufSubset.EncodedSkips` | libs/libcommon/pb_decode.c:111-135 | every encoded value is skipped exactly by the wire type of its key |
| `ProtobufSubset.SubsetRoundTrip` | libs/libcommon/pb_decode.c:383-437 | a receiver whose descriptor has only some of the fields of the sender, in any order, restores these |
| `ProtobufSubset.CStringEnds` | libs/libcommon/pb_encode.c:343-346 | a string ends at its first zero, whatever stands behind it |
| `ProtobufInput.OrInWord` | libs/libcommon/pb_decode.c:90-91 | shifting seven bits to their place in 64 and or-ing them in is adding them modulo 2^64 |
| `ProtobufInput.SvarintUndone` | libs/libcommon/pb_decode.c:466 | the exclusive or with the negated low bit, in 64 bits, undoes the zig-zag |
| `ProtobufInput.IStream.Read` | libs/libcommon/pb_decode.c:38-59 | reads all bytes asked for, or none exactly when fewer are left |
| `ProtobufInput.IStream.DecodeVarint` | libs/libcommon/pb_decode.c:82-98 | the loop over at most ten bytes decodes the varint, or fails where it fails |
| `ProtobufInput.IStream.SkipVarint` | libs/libcommon/pb_decode.c:100-109 | the loop stops behind the first byte without the top bit |
| `ProtobufInput.IStream.Skip` | libs/libcommon/pb_decode.c:111-135 | skips by wire type and refuses others |
| `ProtobufInput.IStream.DecodeData` | libs/libcommon/pb_decode.c:498-526 | reads a length within the limit and that many bytes, or fails |
| `ProtobufInput.IStream.DecodeValue` | libs/libcommon/pb_decode.c:454-526 | decodes by the field's type, whatever the wire type says |
| `ProtobufDecoder.FieldIterator.constructor` | libs/libcommon/pb_decode.c:196-203 | stands at the first field and points at its memory and flag |
| `ProtobufDecoder.FieldIterator.Next` | libs/libcommon/pb_decode.c:205-227 | goes to the next field, or round to the first, and always points at that field's memory and flag; the result says whether it went round |
| `ProtobufDecoder.FieldIterator.Find` | libs/libcommon/pb_decode.c:229-240 | goes round at most once, stops at the field with the tag, or stands where it stood |
| `ProtobufDecoder.AddressSums` | libs/libcommon/pb_decode.c:196-227 | a field lies behind all gaps up to it and all fields before it |
| `ProtobufDecoder.FieldsApart` | libs/libcommon/pb_decode.c:205-227 | so no field overlaps another |
| `ProtobufDecoder.SetToDefaults` | libs/libcommon/pb_decode.c:337-377 | clears every has flag and copies every default, and leaves the rest of the memory alone |
| `ProtobufDecoder.DecodeField` | libs/libcommon/pb_decode.c:246-257 | sets an optional field's flag and stores the value at the iterator's field only |
| `ProtobufDecoder.DecodeTurn` | libs/libcommon/pb_decode.c:393-425 | one turn of the loop: end of stream, 0 tag, unknown field or known field |
| `ProtobufDecoder.DecodeFields` | libs/libcommon/pb_decode.c:391-425 | the whole loop |
| `ProtobufDecoder.CheckRequired` | libs/libcommon/pb_decode.c:427-434 | the closing loop tests each required field's bit |
| `ProtobufDecoder.PbDecode` | libs/libcommon/pb_decode.c:383-437 | succeeds exactly when the specification accepts the bytes, and then leaves its message in the structure and the stream behind it |
| `ProtobufEncoder.OStream.Write` | libs/libcommon/pb_encode.c:54-68 | writes, or on a sizing stream counts, all bytes exactly if they fit, and keeps what was there |
| `ProtobufEncoder.VarintBytes` | libs/libcommon/pb_encode.c:208-221 | the loop over the ten-byte buffer builds the varint |
| `ProtobufEncoder.OStream.EncodeVarint` | libs/libcommon/pb_encode.c:206-223 | writes the varint, one zero byte for 0 |
| `ProtobufEncoder.OStream.EncodeTagForField` | libs/libcommon/pb_encode.c:225-260 | writes the key of the field, whose number and wire type `ProtobufSubset.KeyParts` gives |
| `ProtobufEncoder.ZigZagged` | libs/libcommon/pb_encode.c:302-307 | the mask test, exclusive or, shift and or of pb_enc_svarint are the zig-zag code, for every field size and value |
| `ProtobufEncoder.OStream.EncodeSvarint` | libs/libcommon/pb_encode.c:295-310 | the sign mask, the exclusive or with the shifted ones and the or compute the zig-zag |
| `ProtobufEncoder.OStream.EncodeValue` | libs/libcommon/pb_encode.c:288-346 | writes the value by the field's type |
| `ProtobufEncoder.OStream.PbEncode` | libs/libcommon/pb_encode.c:143-203 | writes exactly the message if it fits and else fails; a sizing pass counts exactly what a writing pass writes |
| `ProtobufEncoder.NextField` | libs/libcommon/pb_encode.c:150-157 | the encoder's walk through the structure finds every field where the decoder's iterator does |
| `ProtobufServer.ReadRequestFits` | libs/libsacd/sacd_input.c:501-518 | a read request and the 0 tag behind it are at most 15 bytes, so they fit the 16-byte buffer |
| `ProtobufServer.ReadRequestLargest` | libs/libsacd/sacd_input.c:501-518 | and 15 bytes do occur |
| `ProtobufServer.ResponseBytes` | libs/libsacd/sacd_ripper.pb.c:24-38 | a response with data is the bytes 8, 16 and 26 in front of its type, its result and the length and bytes of its data |
| `ProtobufServer.RequestArrives` | libs/libsacd/sacd_ripper.pb.c:8-22 | the server decodes any request to what the client encoded |
| `ProtobufServer.ResponseArrives` | libs/libsacd/sacd_ripper.pb.c:24-38 | the client decodes any response, with up to 512 sectors of data or without the data field, to what the server encoded |
| `ProtobufServer.ReadRequest` | libs/libsacd/sacd_input.c:501-518 | the encoding into the 16 bytes always succeeds, and whoever decodes the bytes gets the position and the number of blocks, as 32-bit numbers |
| `Getopt.Exchange` | tools/sacd_extract/getopt.c:311-382 | the loop of swaps moves the options in front of the skipped non-options, with both orders kept and nothing else touched |
| `Getopt.ExchangedParts` | tools/sacd_extract/getopt.c:311-382 | which is the second part, then the first, between what was in front and behind |
| `Getopt.SwapBlocks` | tools/sacd_extract/getopt.c:354-361 | the inner loop swaps two blocks |
| `Getopt.Scanner.Settle` | tools/sacd_extract/getopt.c:564-567 | options that were processed behind non-options are in front of them |
| `Getopt.Scanner.Skip` | tools/sacd_extract/getopt.c:572-574 | stops at the first element that is no non-option |
| `Getopt.Scanner.EndOfOptions` | tools/sacd_extract/getopt.c:582-593 | `--` counts as an option and everything behind it as non-options |
| `Getopt.Scanner.NextElement` | tools/sacd_extract/getopt.c:548-623 | one call in PERMUTE order at the boundary of two elements; it reports the next option of the rest of the command line with its argument, or the end exactly when there is none |
| `Getopt.Scanner.Scan` | tools/sacd_extract/getopt.c:548-605 | over a whole scan: the options and their arguments end up in front in their order, the others behind in theirs, and `optind` at the first of these; what was reported is every option with its argument |
| `Getopt.LineOf` | tools/sacd_extract/getopt.c:548-640 | every list of arguments is a command line of options, each with its own argument, and plain arguments, up to `--`, an option whose argument is missing, or the end |
| `Getopt.LineSorted` | tools/sacd_extract/getopt.c:548-605 | and the scan parts exactly these: each option with its argument behind it in front, the plain ones and what is behind `--` behind them |
| `Getopt.LineReported` | tools/sacd_extract/getopt.c:548-640 | each option of the command line is reported once, in order, with its argument |
| `Getopt.OptionsLook` | tools/sacd_extract/getopt.c:540-546 | an element is an option exactly if it begins with a dash and has more |
| `Getopt.OverPermutes` | tools/sacd_extract/getopt.c:548-605 | so argv stays a permutation of what it was |
| `Getopt.SortPermutes` | tools/sacd_extract/getopt.c:548-605 | parting options and non-options loses and repeats nothing |
| `Scheduler.ChosenWhole` | libs/libsacd/scarletbook_output.c:475-500 | a block has 1 to 512 sectors, ends by the end of the range, and lies wholly inside or outside the encrypted ranges, as its flag says |
| `Scheduler.ChosenLargest` | libs/libsacd/scarletbook_output.c:475-500 | and it is the largest such block: 512 sectors are reached, the range ends, or an area begins or ends behind it |
| `Scheduler.TilesSectors` | libs/libsacd/scarletbook_output.c:469-639 | blocks that tile a range contain each of its sectors exactly once, in order |
| `Scheduler.Output.StartFrameThread` | libs/libsacd/scarletbook_output.c:350-371 | a frame thread is only started when none runs, and is given what is in read_buffer |
| `Scheduler.Output.CheckDisc` | libs/libsacd/scarletbook_output.c:525-536 | the disc is judged once, and the verdict is that of the block at hand when it is the first encrypted one |
| `Scheduler.Output.Dispatch` | libs/libsacd/scarletbook_output.c:544-578 | a job that is not raw gets a frame thread for the block, a raw one writes it; a sub track that is not raw gets a frame thread too, each with the mark for the last block |
| `Scheduler.FirstDecides` | libs/libsacd/scarletbook_output.c:525-536 | over any blocks the verdict stays what it was, or is that of the first encrypted block |
| `Scheduler.Output.ReadBlock` | libs/libsacd/scarletbook_output.c:471-578 | one block is read and logged, decrypted exactly if its sectors are encrypted and the disc is, and handed on: a frame thread runs afterwards exactly if the job or the sub track is not raw; read_buffer is overwritten only while no frame thread runs (the precondition of OverwriteReadBuffer) |
| `Scheduler.Output.NextBlock` | libs/libsacd/scarletbook_output.c:471-578 | the log keeps its properties, and what was handed on since the job began is what its blocks call for |
| `Scheduler.Output.NextRange` | libs/libsacd/scarletbook_output.c:587-638 | at the end of a range the frame thread is joined and the next range set up: up to the next sub track, or into it, or to the end of the job |
| `Scheduler.DistributeMore` | libs/libsacd/scarletbook_output.c:562-578 | a block goes to the sub track whose range has its sectors, marked as last exactly at the end of that range |
| `Scheduler.DistributeNext` | libs/libsacd/scarletbook_output.c:598-638 | the next range keeps that |
| `Scheduler.SubsReached` | libs/libsacd/scarletbook_output.c:449-453 | every sector of a sub track reaches it, but for the last one of a track that starts where the job starts |
| `Scheduler.SubsWhole` | libs/libsacd/scarletbook_output.c:449-453 | so all of them do if and only if the track does not start where the job starts |
| `Scheduler.JobReceives` | libs/libsacd/scarletbook_output.c:544-555 | the frame threads of a job that is not raw get its sectors, each once and in order, the last block marked |
| `Scheduler.JobWritten` | libs/libsacd/scarletbook_output.c:556-560 | the sectors of a raw job are written, each once and in order |
| `Scheduler.SubReceives` | libs/libsacd/scarletbook_output.c:562-578 | a sub track's frame threads get its range, each sector once and in order, only the block at its end marked |
| `Scheduler.HandedReadable` | libs/libsacd/scarletbook_output.c:538-542 | what is written or given to a frame thread is decrypted exactly if it is encrypted on a disc that is not judged plain |
| `Scheduler.AllDelivered` | libs/libsacd/scarletbook_output.c:544-578 | so at the end of a job everyone has got everything |
| `Scheduler.Output.StartJob` | libs/libsacd/scarletbook_output.c:435-465 | sets up the first range |
| `Scheduler.Output.ProcessJob` | libs/libsacd/scarletbook_output.c:435-639 | for any sub queue inside the job the loop terminates and has processed each sector of the job exactly once, in order, in whole blocks, decrypted exactly if they are encrypted and the verdict is not against it, which is an earlier job's or that of the first encrypted block; the job's frame threads, or its file, were given all of its sectors, and with ordered sub tracks the frame threads of each one those of its range, each once, in order, in the clear, and only what ends the range marked as the last |

## Left out

Weaker than the source, or with a parameter in place of code that is not shown:

- DstUnpackCodes.RiceDecode: the source ignores a read that fails at the end of the frame and would go on; the model reports OutOfData there. A Rice method of 3, for which the source has no table, is reported as UnknownMethod. Numbers are unbounded, so an overflow of `RunLength << m` or of a prediction in 32 bits is not modelled.
- DstData.StrData.GetBits: the source reads the byte behind the data before it tests for the end; the model tests first. The reader and its counters end the same.
- DstUnpackTables.ReadFilterCoefSets: the arrays for orders, methods, codings and m are one array of table informations, the layout of FrameHeader is a datatype, and CPredOrder and CPredCoef are parameters, whose values in the source are FILTER_METHODS and PTABLE_METHODS.
- DstUnpack.Ebunch.UnpackDSTframe: the scalars of FrameHeader are out-parameters and one record instead of separate fields.
- DstUnpackSegments.ReadTableSegmentData: it ends with RowOverrun where the source writes the ninth place of a row of eight, which is the first of the next channel's row; what the source then goes on with is not modelled.
- DstDecoder.Decoder.DecodeFrame: DST_FramDSTDecode is a function of the frame and its number; DST_InitDecoder and memory do not fail. This method and FillJob, NewLastJob, ReportError and DeliverFrame only assign what their steps say, so they have no row.
- JobLists.JobLists.NewJob: a job's number, error, flags and spaces are kept beside its node, in a sequence by allocation order; the nodes hold the number and the link. A job is never reused after it is freed.
- DstDecoder.Decoder.JoinDone: one decoder exists at a time, so the global thread list holds only its threads.
- PoolRefinement.LockedRunsAreAtomic: a space that cannot be allocated is left out; the pool's freeing is not interleaved with other operations.
- DsfWriter.DsfHandle.WriteFrame: a null `buffer_ptr` is an empty buffer, also at the end of a track without any frame, where the source subtracts from the null pointer (libs/libsacd/dsf.c:192-199); the DSF header fields other than the two counters, and the ID3 footer, are left out.
- Dsf.TracksConserve: it assumes the smooth frames that Dsf.SmoothExactly characterises; for others it is false.
- DsdiffWriter.DsdiffHandle.Close: the FVER and PROP chunks are a parameter of fixed bytes, the DIIN, COMT and ID3 chunks a parameter behind the index; the size theorem takes both to have an even length, as the chunk rules demand. ftell, fseek and fwrite are operations on the contents of the file.
- SectorReader.ScarletbookHandle.ProcessFrames: frame informations without DST keep the flag bytes of earlier sectors, as in the source; the round trip without DST starts where they are 0. Packets have to fit their sector.
- ProtobufDecoder.PbDecode: arrays, submessages and callbacks; what is left in the structure and on the stream when decoding fails.
- ProtobufDecoder.FieldIterator.Next: the structure has one slot per field; that `pData` and `pSize` are the field's addresses is proved, where an address is what the descriptors' own offsets and sizes add up to; the values are kept beside them, nothing is stored through the two pointers, and a descriptor whose sizes are not those of the structure (the data of a server response takes 16 bytes there and counts as 512 * 2048) is taken at its word. Overlapping fields are not modelled.
- ProtobufInput.IStream.Read: memory streams only, not sockets.
- Getopt.Scanner.NextElement: the decoding of an option is the parameter `wants`, which says whether it takes the next element as its argument; the orderings REQUIRE_ORDER and RETURN_IN_ORDER and the matching of long options.
- Scheduler.Output.ProcessJob: creating files, statistics, the user's stop, the contents that decryption changes, and the lifetime of a frame thread's arguments; read_buffer is which sectors it has and whether they are decrypted; sub tracks that overlap or are out of order (for them only the job's own sectors are stated); sub queues of jobs that are not raw, and first sub tracks that start before the job.

Not modelled at all:

- the arithmetic decoder and the prediction filters (dst_fram.c, dst_init.c are not part of this model)
- parsing of the tables of contents, text and character sets
- ID3 tags, cue sheets, file names, command line options and printing: they would only add easy members
- disc access, sockets and the PS3's drivers
