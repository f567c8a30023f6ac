/** The sector scheduler of libs/libsacd/scarletbook_output.c: processing_thread on one job of the
    ripping queue and its sub queue.  What sacd_read_block_raw and sacd_decrypt do to the sectors is
    not part of this model; how many sectors a read serves is a parameter. */
module Scheduler {

  /** MAX_PROCESSING_BLOCK_SIZE */
  const MAX_BLOCK: nat := 512

  /** The encrypted sectors of the two areas; an area that the disc does not have is 0, 0. */
  datatype Ranges = Ranges(start1: nat, end1: nat, start2: nat, end2: nat) {
    predicate Ordered() { 0 < start1 <= end1 && ((start2 == 0 && end2 == 0) || end1 < start2 <= end2) }

    predicate Encrypted(lsn: nat) { start1 <= lsn <= end1 || (0 < start2 <= lsn <= end2) }
  }

  /** What the conditions of the loop make of the current sector. */
  datatype Choice = Choice(blockSize: nat, encrypted: bool)

  function Min(a: nat, b: nat): nat { if a < b then a else b }

  function Choose(r: Ranges, lsn: nat, end: nat): Choice
    requires lsn < end
  {
    var c :=
      if lsn < r.start1 then Choice(Min(r.start1 - lsn, MAX_BLOCK), false)
      else if r.start1 <= lsn <= r.end1 then Choice(Min(r.end1 + 1 - lsn, MAX_BLOCK), true)
      else if r.end1 < lsn < r.start2 then Choice(Min(r.start2 - lsn, MAX_BLOCK), false)
      else if r.start2 <= lsn <= r.end2 then Choice(Min(r.end2 + 1 - lsn, MAX_BLOCK), true)
      else Choice(MAX_BLOCK, false);
    c.(blockSize := Min(end - lsn, c.blockSize))
  }

  /** A block has between 1 and 512 sectors, ends by `end`, and all its sectors are encrypted or none
      is, as its flag says. */
  lemma ChosenWhole(r: Ranges, lsn: nat, end: nat)
    requires r.Ordered() && lsn < end
    ensures var c := Choose(r, lsn, end);
            && 1 <= c.blockSize <= MAX_BLOCK && lsn + c.blockSize <= end
            && forall k :: lsn <= k < lsn + c.blockSize ==> (r.Encrypted(k) <==> c.encrypted)
  {
  }

  /** And it is the largest such block: it cannot take one more sector, be it that 512 are reached, the
      range ends, or the next sector is in another area or outside the areas. */
  lemma ChosenLargest(r: Ranges, lsn: nat, end: nat)
    requires r.Ordered() && lsn < end
    ensures var next := lsn + Choose(r, lsn, end).blockSize;
            next == lsn + MAX_BLOCK || next == end || r.Encrypted(next) != r.Encrypted(next - 1) || next == r.start2
  {
  }

  /** A job or a track of its sub queue. */
  datatype Job = Job(start: nat, length: nat, raw: bool) {
    function End(): nat { start + length }
  }

  /** A block that was processed: its sectors, whether they were decrypted, and what was done with
      them: written raw, or given to a frame thread, the last time of a track with `last`; and the sub
      track, if any, that was given them too. */
  datatype Block = Block(start: nat, count: nat, encrypted: bool, decrypted: bool, written: bool, last: bool, sub: seq<Job>)

  /** The blocks are the sectors from `start` to `end`, each once and in order. */
  predicate Tiles(blocks: seq<Block>, start: nat, end: nat)
    decreases |blocks|
  {
    if blocks == [] then start == end
    else
      var b := blocks[|blocks| - 1];
      b.count >= 1 && b.start + b.count == end && Tiles(blocks[..|blocks| - 1], start, b.start)
  }

  lemma TilesMore(blocks: seq<Block>, start: nat, end: nat, b: Block)
    requires Tiles(blocks, start, end) && b.start == end && b.count >= 1
    ensures Tiles(blocks + [b], start, end + b.count)
  {
    assert (blocks + [b])[..|blocks|] == blocks;
  }

  /** The sectors of the blocks, one after the other. */
  function Sectors(blocks: seq<Block>): seq<nat>
    decreases |blocks|
  {
    if blocks == [] then []
    else
      var b := blocks[|blocks| - 1];
      Sectors(blocks[..|blocks| - 1]) + seq(b.count, k => b.start + k)
  }

  /** Each sector exactly once, in order. */
  lemma {:induction false} TilesSectors(blocks: seq<Block>, start: nat, end: nat)
    requires Tiles(blocks, start, end)
    ensures start <= end && Sectors(blocks) == seq(end - start, k => start + k)
    decreases |blocks|
  {
    if blocks != [] {
      TilesSectors(blocks[..|blocks| - 1], start, blocks[|blocks| - 1].start);
    }
  }

  predicate WholeBlock(r: Ranges, b: Block) {
    b.count <= MAX_BLOCK && forall k :: b.start <= k < b.start + b.count ==> (r.Encrypted(k) <==> b.encrypted)
  }

  predicate AllWhole(r: Ranges, blocks: seq<Block>) { forall k :: 0 <= k < |blocks| ==> WholeBlock(r, blocks[k]) }

  /** The disc as the loop asks about it: how many sectors a read serves, and whether the first
      encrypted block shows a disc that is not encrypted. */
  datatype Disc = Disc(ranges: Ranges, serves: (nat, nat) -> nat, plain: nat -> bool) {
    ghost predicate Valid() {
      ranges.Ordered() && forall lsn, n :: n >= 1 ==> 1 <= serves(lsn, n) <= n
    }
  }

  /** What the check for discs that are not encrypted found, if it was made. */
  datatype Verdict = Unknown | Known(plain: bool)

  function VerdictNext(v: Verdict, b: Block, plain: nat -> bool): Verdict {
    if b.encrypted && v.Unknown? then Known(plain(b.start)) else v
  }

  function VerdictAfter(v: Verdict, blocks: seq<Block>, plain: nat -> bool): Verdict
    decreases |blocks|
  {
    if blocks == [] then v else VerdictNext(VerdictAfter(v, blocks[..|blocks| - 1], plain), blocks[|blocks| - 1], plain)
  }

  /** A verdict stays, and the first encrypted block gives the first one. */
  lemma {:induction false} FirstDecides(v: Verdict, blocks: seq<Block>, plain: nat -> bool, i: nat)
    requires i <= |blocks| && (forall k :: 0 <= k < i ==> !blocks[k].encrypted) && (i < |blocks| ==> blocks[i].encrypted)
    ensures VerdictAfter(v, blocks, plain) == if v.Unknown? && i < |blocks| then Known(plain(blocks[i].start)) else v
    decreases |blocks|
  {
    if blocks != [] {
      var first := blocks[..|blocks| - 1];
      FirstDecides(v, first, plain, if i < |blocks| then i else i - 1);
    }
  }

  /** What holds of the log of a job at every turn: the sectors so far are there once and in order,
      every block is wholly inside or outside the encrypted ranges, and is decrypted accordingly; a
      frame thread is told of the last block exactly at the end of the job. */
  predicate LoggedAt(blocks: seq<Block>, r: Ranges, job: Job, lsn: nat, checked: bool, plain: bool) {
    && Tiles(blocks, job.start, lsn) && AllWhole(r, blocks)
    && (forall k :: 0 <= k < |blocks| ==>
          && blocks[k].written == job.raw
          && (blocks[k].decrypted <==> blocks[k].encrypted && !plain)
          && (!job.raw ==> (blocks[k].last <==> blocks[k].start + blocks[k].count == job.End())))
    && (!checked ==> forall k :: 0 <= k < |blocks| ==> !blocks[k].encrypted)
  }

  lemma LogMore(blocks: seq<Block>, r: Ranges, job: Job, lsn: nat, checked: bool, plain: bool, checked': bool, plain': bool, b: Block)
    requires LoggedAt(blocks, r, job, lsn, checked, plain) && b.start == lsn && b.count >= 1 && WholeBlock(r, b)
    requires b.written == job.raw && (b.decrypted <==> b.encrypted && !plain') && (!job.raw ==> (b.last <==> lsn + b.count == job.End()))
    requires (checked || !b.encrypted ==> plain' == plain && checked' == checked) && (b.encrypted ==> checked')
    ensures LoggedAt(blocks + [b], r, job, lsn + b.count, checked', plain')
  {
    TilesMore(blocks, job.start, lsn, b);
  }

  // ----- sub tracks -----

  /** The sub tracks are not empty, follow one another, and start within the job. */
  predicate OrderedSubs(job: Job, subs: seq<Job>) {
    && (forall k :: 0 <= k < |subs| ==> job.start <= subs[k].start && 1 <= subs[k].length)
    && (forall i, k :: 0 <= i < k < |subs| ==> subs[i].End() <= subs[k].start)
  }

  /** Where the sub track's range ends: one sector early if it starts where the job starts. */
  function SubEnd(job: Job, subs: seq<Job>, k: nat): int
    requires k < |subs|
  {
    if k == 0 && subs[0].start == job.start then subs[0].End() - 1 else subs[k].End()
  }

  predicate InSub(job: Job, subs: seq<Job>, k: nat, lsn: nat)
    requires k < |subs|
  {
    subs[k].start <= lsn < SubEnd(job, subs, k)
  }

  /** The sub track, from k on, whose range the sector is in, or none. */
  function Owner(job: Job, subs: seq<Job>, lsn: nat, k: nat): seq<Job>
    decreases |subs| - k
  {
    if k >= |subs| then [] else if InSub(job, subs, k, lsn) then [subs[k]] else Owner(job, subs, lsn, k + 1)
  }

  lemma {:induction false} OwnerFound(job: Job, subs: seq<Job>, lsn: nat, k: nat, i: nat)
    requires k <= i <= |subs| && forall j :: k <= j < i ==> !InSub(job, subs, j, lsn)
    ensures Owner(job, subs, lsn, k) == Owner(job, subs, lsn, i)
    decreases i - k
  {
    if k < i { OwnerFound(job, subs, lsn, k + 1, i); }
  }

  /** The block goes to the sub track of its sectors, with `last` exactly at the end of the range. */
  ghost predicate Assigned(job: Job, subs: seq<Job>, b: Block) {
    && (forall x :: b.start <= x < b.start + b.count ==> Owner(job, subs, x, 0) == b.sub)
    && (forall k :: 0 <= k < |subs| && b.sub == [subs[k]] ==> (b.last <==> b.start + b.count == SubEnd(job, subs, k)))
  }

  ghost predicate AllAssigned(job: Job, subs: seq<Job>, blocks: seq<Block>) {
    forall k :: 0 <= k < |blocks| ==> Assigned(job, subs, blocks[k])
  }

  /** The loop's position: in the range of the sub track taken last, or behind it and before the next. */
  ghost predicate Phase(job: Job, subs: seq<Job>, queue: seq<Job>, current: seq<Job>, lsn: nat, end: nat) {
    && |queue| <= |subs| && queue == subs[|subs| - |queue|..]
    && var i := |subs| - |queue|;
       && (i == 0 && subs != [] ==> job.start < subs[0].start)
       && if current == [] then (i < |subs| ==> end <= subs[i].start) && (i > 0 ==> SubEnd(job, subs, i - 1) <= lsn)
          else i > 0 && current == [subs[i - 1]] && subs[i - 1].start <= lsn && end == SubEnd(job, subs, i - 1)
  }

  lemma PhaseOwner(job: Job, subs: seq<Job>, queue: seq<Job>, current: seq<Job>, lsn: nat, end: nat, x: nat)
    requires OrderedSubs(job, subs) && Phase(job, subs, queue, current, lsn, end) && lsn <= x < end
    ensures Owner(job, subs, x, 0) == current
  {
    var i := |subs| - |queue|;
    assert forall k :: 0 <= k < i - 1 ==> subs[k].End() <= subs[i - 1].start;
    if current == [] {
      assert forall k :: i < k < |subs| ==> subs[i].End() <= subs[k].start;
      OwnerFound(job, subs, x, 0, |subs|);
    } else {
      OwnerFound(job, subs, x, 0, i - 1);
    }
  }

  /** With ordered sub tracks, every block so far went to the right one. */
  ghost predicate DistributedAt(job: Job, subs: seq<Job>, queue: seq<Job>, current: seq<Job>, lsn: nat, end: nat, blocks: seq<Block>) {
    OrderedSubs(job, subs) ==> Phase(job, subs, queue, current, lsn, end) && AllAssigned(job, subs, blocks)
  }

  lemma DistributeMore(job: Job, subs: seq<Job>, queue: seq<Job>, lsn: nat, end: nat, blocks: seq<Block>, b: Block)
    requires DistributedAt(job, subs, queue, b.sub, lsn, end, blocks)
    requires b.start == lsn && lsn + b.count <= end && (b.last <==> lsn + b.count == end) && b.count >= 1
    ensures DistributedAt(job, subs, queue, b.sub, lsn + b.count, end, blocks + [b])
  {
    if OrderedSubs(job, subs) { PhaseAssigns(job, subs, queue, lsn, end, b); }
  }

  lemma PhaseAssigns(job: Job, subs: seq<Job>, queue: seq<Job>, lsn: nat, end: nat, b: Block)
    requires OrderedSubs(job, subs) && Phase(job, subs, queue, b.sub, lsn, end)
    requires b.start == lsn && lsn + b.count <= end && (b.last <==> lsn + b.count == end) && b.count >= 1
    ensures Assigned(job, subs, b)
  {
    forall x | lsn <= x < lsn + b.count ensures Owner(job, subs, x, 0) == b.sub {
      PhaseOwner(job, subs, queue, b.sub, lsn, end, x);
    }
    var i := |subs| - |queue|;
    assert forall k :: 0 <= k < i - 1 && i <= |subs| ==> subs[k].End() <= subs[i - 1].start;
    assert forall k :: 0 <= i - 1 < k < |subs| ==> subs[i - 1].End() <= subs[k].start;
  }

  /** The sub tracks to come, the one under way, and where to read up to. */
  datatype Range = Range(queue: seq<Job>, sub: seq<Job>, end: nat)

  /** The next range: up to the next sub track, or into it. */
  function RangeAfter(job: Job, queue: seq<Job>, lsn: nat): Range {
    if queue == [] then Range([], [], job.End())
    else if lsn < queue[0].start then Range(queue, [], queue[0].start)
    else Range(queue[1..], [queue[0]], queue[0].End())
  }

  lemma DistributeNext(job: Job, subs: seq<Job>, queue: seq<Job>, current: seq<Job>, lsn: nat, end: nat, blocks: seq<Block>)
    requires DistributedAt(job, subs, queue, current, lsn, end, blocks) && lsn >= end
    ensures var r := RangeAfter(job, queue, lsn); DistributedAt(job, subs, r.queue, r.sub, lsn, r.end, blocks)
  {
    if OrderedSubs(job, subs) {
      var i := |subs| - |queue|;
      if queue != [] { assert queue[0] == subs[i] && queue[1..] == subs[i + 1..]; }
    }
  }

  /** Every sector of a sub track reaches it, but for the last one of a track that starts where the job
      starts. */
  lemma SubsReached(job: Job, subs: seq<Job>, k: nat, x: nat)
    requires OrderedSubs(job, subs) && k < |subs| && subs[k].start <= x < subs[k].End()
    ensures Owner(job, subs, x, 0) == if k == 0 && subs[0].start == job.start && x == subs[0].End() - 1 then [] else [subs[k]]
  {
    assert forall j :: 0 <= j < k ==> subs[j].End() <= subs[k].start;
    if k == 0 && subs[0].start == job.start && x == subs[0].End() - 1 {
      assert forall j :: 0 < j < |subs| ==> subs[0].End() <= subs[j].start;
      OwnerFound(job, subs, x, 0, |subs|);
    } else {
      OwnerFound(job, subs, x, 0, k);
    }
  }

  /** So all of them do exactly when it does not start where the job starts. */
  lemma SubsWhole(job: Job, subs: seq<Job>, k: nat)
    requires OrderedSubs(job, subs) && k < |subs|
    ensures (forall x :: subs[k].start <= x < subs[k].End() ==> Owner(job, subs, x, 0) == [subs[k]])
       <==> !(k == 0 && subs[0].start == job.start)
  {
    forall x | subs[k].start <= x < subs[k].End()
      ensures Owner(job, subs, x, 0) == if k == 0 && subs[0].start == job.start && x == subs[0].End() - 1 then [] else [subs[k]]
    {
      SubsReached(job, subs, k, x);
    }
    var last: nat := subs[k].End() - 1;
    SubsReached(job, subs, k, last);
    assert subs[k].start <= last < subs[k].End();
  }

  // ----- what is handed on -----

  /** What is in read_buffer: sectors of the disc, decrypted or as they were read. */
  datatype Content = Content(start: nat, count: nat, decrypted: bool)

  /** What was done with read_buffer: written to the job's file, or given to a frame thread of a track. */
  datatype Given = Written(content: Content) | Frames(content: Content, track: Job, last: bool)

  function ContentOf(b: Block): Content { Content(b.start, b.count, b.decrypted) }

  /** Who gets a block. */
  function HandedOn(job: Job, b: Block): seq<Given> {
    (if job.raw then [Written(ContentOf(b))] else [Frames(ContentOf(b), job, b.last)])
    + (if b.sub != [] && !b.sub[0].raw then [Frames(ContentOf(b), b.sub[0], b.last)] else [])
  }

  function AllHandedOn(job: Job, blocks: seq<Block>): seq<Given>
    decreases |blocks|
  {
    if blocks == [] then [] else AllHandedOn(job, blocks[..|blocks| - 1]) + HandedOn(job, blocks[|blocks| - 1])
  }

  /** Each of its sectors is decrypted exactly if it is encrypted on the disc, and the disc is not plain. */
  predicate Readable(c: Content, r: Ranges, plain: bool) {
    forall x :: c.start <= x < c.start + c.count ==> (c.decrypted <==> r.Encrypted(x) && !plain)
  }

  predicate AllReadable(given: seq<Given>, r: Ranges, plain: bool) {
    forall i :: 0 <= i < |given| ==> Readable(given[i].content, r, plain)
  }

  lemma {:induction false} HandedReadable(job: Job, blocks: seq<Block>, r: Ranges, plain: bool)
    requires AllWhole(r, blocks) && forall k :: 0 <= k < |blocks| ==> (blocks[k].decrypted <==> blocks[k].encrypted && !plain)
    ensures AllReadable(AllHandedOn(job, blocks), r, plain)
    decreases |blocks|
  {
    if blocks != [] {
      var b := blocks[|blocks| - 1];
      HandedReadable(job, blocks[..|blocks| - 1], r, plain);
      assert WholeBlock(r, b) && Readable(ContentOf(b), r, plain);
    }
  }

  lemma HandedMore(job: Job, blocks: seq<Block>, b: Block)
    ensures AllHandedOn(job, blocks + [b]) == AllHandedOn(job, blocks) + HandedOn(job, b)
  {
    assert (blocks + [b])[..|blocks|] == blocks;
  }

  /** What the frame threads of one track were given, or what was written. */
  function ForTrack(given: seq<Given>, track: Job): seq<Given>
    decreases |given|
  {
    if given == [] then []
    else
      var g := given[|given| - 1];
      ForTrack(given[..|given| - 1], track) + if g.Frames? && g.track == track then [g] else []
  }

  function Writes(given: seq<Given>): seq<Given>
    decreases |given|
  {
    if given == [] then []
    else
      var g := given[|given| - 1];
      Writes(given[..|given| - 1]) + if g.Written? then [g] else []
  }

  lemma {:induction false} ForTrackAppend(a: seq<Given>, b: seq<Given>, track: Job)
    ensures ForTrack(a + b, track) == ForTrack(a, track) + ForTrack(b, track)
    ensures Writes(a + b) == Writes(a) + Writes(b)
    decreases |b|
  {
    if b == [] {
      assert a + b == a;
    } else {
      assert (a + b)[..|a + b| - 1] == a + b[..|b| - 1];
      ForTrackAppend(a, b[..|b| - 1], track);
    }
  }

  /** The pieces are the sectors from `start` to `end`, each once and in order. */
  predicate Pieces(given: seq<Given>, start: nat, end: nat)
    decreases |given|
  {
    if given == [] then start == end
    else
      var c := given[|given| - 1].content;
      c.count >= 1 && c.start + c.count == end && Pieces(given[..|given| - 1], start, c.start)
  }

  lemma PiecesMore(given: seq<Given>, start: nat, end: nat, g: Given)
    requires Pieces(given, start, end) && g.content.start == end && g.content.count >= 1
    ensures Pieces(given + [g], start, end + g.content.count)
  {
    assert (given + [g])[..|given|] == given;
  }

  /** The last piece, and no other, is marked. */
  predicate LastMarked(given: seq<Given>, end: nat) {
    forall k :: 0 <= k < |given| && given[k].Frames? ==> (given[k].last <==> given[k].content.start + given[k].content.count == end)
  }

  /** One track's frame threads get its sectors up to `to`, each once and in order; what reaches the end
      is marked as the last. */
  predicate Receives(given: seq<Given>, track: Job, to: nat, end: nat) {
    Pieces(ForTrack(given, track), track.start, to) && LastMarked(ForTrack(given, track), end)
  }

  lemma ReceivesMore(given: seq<Given>, more: seq<Given>, track: Job, to: nat, end: nat, g: Given)
    requires Receives(given, track, to, end) && ForTrack(more, track) == [g]
    requires g.Frames? && g.content.start == to && g.content.count >= 1 && (g.last <==> to + g.content.count == end)
    ensures Receives(given + more, track, to + g.content.count, end)
  {
    ForTrackAppend(given, more, track);
    PiecesMore(ForTrack(given, track), track.start, to, g);
  }

  lemma ReceivesSame(given: seq<Given>, more: seq<Given>, track: Job, to: nat, end: nat)
    requires Receives(given, track, to, end) && ForTrack(more, track) == []
    ensures Receives(given + more, track, to, end)
  {
    ForTrackAppend(given, more, track);
    assert ForTrack(given, track) + [] == ForTrack(given, track);
  }

  lemma HandedTo(job: Job, b: Block, track: Job)
    requires !track.raw && |b.sub| <= 1 && (!job.raw ==> b.sub == [])
    ensures ForTrack(HandedOn(job, b), track) == if track in b.sub || (!job.raw && track == job) then [Frames(ContentOf(b), track, b.last)] else []
    ensures Writes(HandedOn(job, b)) == if job.raw then [Written(ContentOf(b))] else []
  {
    var first := if job.raw then [Written(ContentOf(b))] else [Frames(ContentOf(b), job, b.last)];
    var second := if b.sub != [] && !b.sub[0].raw then [Frames(ContentOf(b), b.sub[0], b.last)] else [];
    ForTrackAppend(first, second, track);
    OneGiven(first[0], track);
    if second != [] { OneGiven(second[0], track); }
  }

  lemma OneGiven(g: Given, track: Job)
    ensures ForTrack([g], track) == if g.Frames? && g.track == track then [g] else []
    ensures Writes([g]) == if g.Written? then [g] else []
  {
    assert [g][..0] == [];
  }

  /** The blocks of a job, each with at most one sub track; only a raw job has any. */
  predicate Shaped(job: Job, blocks: seq<Block>) {
    forall k :: 0 <= k < |blocks| ==> |blocks[k].sub| <= 1 && (!job.raw ==> blocks[k].sub == [])
  }

  /** A job that is not raw gets its own sectors. */
  lemma {:induction false} JobReceives(job: Job, blocks: seq<Block>, to: nat)
    requires !job.raw && Tiles(blocks, job.start, to) && Shaped(job, blocks)
    requires forall k :: 0 <= k < |blocks| ==> (blocks[k].last <==> blocks[k].start + blocks[k].count == job.End())
    ensures Receives(AllHandedOn(job, blocks), job, to, job.End()) && Writes(AllHandedOn(job, blocks)) == []
    decreases |blocks|
  {
    if blocks != [] {
      var before, b := blocks[..|blocks| - 1], blocks[|blocks| - 1];
      JobReceives(job, before, b.start);
      HandedTo(job, b, job);
      ReceivesMore(AllHandedOn(job, before), HandedOn(job, b), job, b.start, job.End(), Frames(ContentOf(b), job, b.last));
      ForTrackAppend(AllHandedOn(job, before), HandedOn(job, b), job);
    }
  }

  /** A raw job's sectors are written. */
  lemma {:induction false} JobWritten(job: Job, blocks: seq<Block>, to: nat)
    requires job.raw && Tiles(blocks, job.start, to) && Shaped(job, blocks)
    ensures Pieces(Writes(AllHandedOn(job, blocks)), job.start, to)
    decreases |blocks|
  {
    if blocks != [] {
      var before, b, track := blocks[..|blocks| - 1], blocks[|blocks| - 1], Job(0, 0, false);
      JobWritten(job, before, b.start);
      HandedTo(job, b, track);
      ForTrackAppend(AllHandedOn(job, before), HandedOn(job, b), track);
      PiecesMore(Writes(AllHandedOn(job, before)), job.start, b.start, Written(ContentOf(b)));
    }
  }

  /** How much of a sub track lies before the sector. */
  function Reached(job: Job, subs: seq<Job>, k: nat, lsn: nat): nat
    requires k < |subs| && subs[k].length >= 1
  {
    if lsn <= subs[k].start then subs[k].start else if lsn >= SubEnd(job, subs, k) then SubEnd(job, subs, k) else lsn
  }

  lemma OwnerIs(job: Job, subs: seq<Job>, k: nat, x: nat)
    requires OrderedSubs(job, subs) && k < |subs|
    ensures Owner(job, subs, x, 0) == [subs[k]] <==> InSub(job, subs, k, x)
  {
    if InSub(job, subs, k, x) {
      SubsReached(job, subs, k, x);
    } else {
      OwnerElsewhere(job, subs, x, 0, k);
    }
  }

  lemma {:induction false} OwnerElsewhere(job: Job, subs: seq<Job>, x: nat, i: nat, k: nat)
    requires OrderedSubs(job, subs) && k < |subs| && i <= |subs| && !InSub(job, subs, k, x)
    ensures Owner(job, subs, x, i) != [subs[k]]
    decreases |subs| - i
  {
    if i < |subs| {
      assert i < k ==> subs[i].End() <= subs[k].start;
      assert k < i ==> subs[k].End() <= subs[i].start;
      OwnerElsewhere(job, subs, x, i + 1, k);
    }
  }

  /** A sub track that is not raw gets its range. */
  lemma {:induction false} SubReceives(job: Job, subs: seq<Job>, k: nat, blocks: seq<Block>, to: nat)
    requires job.raw && OrderedSubs(job, subs) && k < |subs| && !subs[k].raw
    requires Tiles(blocks, job.start, to) && Shaped(job, blocks) && AllAssigned(job, subs, blocks)
    ensures Receives(AllHandedOn(job, blocks), subs[k], Reached(job, subs, k, to), SubEnd(job, subs, k))
    decreases |blocks|
  {
    TilesSectors(blocks, job.start, to);
    if blocks != [] {
      var before, b := blocks[..|blocks| - 1], blocks[|blocks| - 1];
      TilesSectors(before, job.start, b.start);
      SubReceives(job, subs, k, before, b.start);
      BlockReaches(job, subs, k, b);
      SubBlock(job, subs, k, AllHandedOn(job, before), b);
    }
  }

  lemma SubBlock(job: Job, subs: seq<Job>, k: nat, given: seq<Given>, b: Block)
    requires job.raw && k < |subs| && !subs[k].raw && subs[k].length >= 1 && b.count >= 1 && |b.sub| <= 1
    requires Receives(given, subs[k], Reached(job, subs, k, b.start), SubEnd(job, subs, k)) && Reaches(job, subs, k, b)
    ensures Receives(given + HandedOn(job, b), subs[k], Reached(job, subs, k, b.start + b.count), SubEnd(job, subs, k))
  {
    var sub := subs[k];
    HandedTo(job, b, sub);
    if b.sub == [sub] {
      ReceivesMore(given, HandedOn(job, b), sub, b.start, SubEnd(job, subs, k), Frames(ContentOf(b), sub, b.last));
    } else {
      ReceivesSame(given, HandedOn(job, b), sub, Reached(job, subs, k, b.start), SubEnd(job, subs, k));
    }
  }

  /** A block of the sub track goes on in it, up to its end if it is marked; any other leaves it alone. */
  predicate Reaches(job: Job, subs: seq<Job>, k: nat, b: Block)
    requires k < |subs| && subs[k].length >= 1
  {
    var from, to := Reached(job, subs, k, b.start), Reached(job, subs, k, b.start + b.count);
    if b.sub == [subs[k]] then from == b.start && to == b.start + b.count && (b.last <==> to == SubEnd(job, subs, k))
    else from == to && subs[k] !in b.sub
  }

  lemma BlockReaches(job: Job, subs: seq<Job>, k: nat, b: Block)
    requires OrderedSubs(job, subs) && k < |subs| && b.count >= 1 && |b.sub| <= 1 && Assigned(job, subs, b) && job.start <= b.start
    ensures Reaches(job, subs, k, b)
  {
    OwnerIs(job, subs, k, b.start);
    OwnerIs(job, subs, k, b.start + b.count - 1);
    if b.sub != [subs[k]] {
      OwnerIs(job, subs, k, subs[k].start);
    }
  }

  lemma HandedAll(job: Job, blocks: seq<Block>, b: Block, was: seq<Given>)
    requires Shaped(job, blocks) && |b.sub| <= 1 && (!job.raw ==> b.sub == [])
    ensures Shaped(job, blocks + [b])
    ensures was + AllHandedOn(job, blocks) + HandedOn(job, b) == was + AllHandedOn(job, blocks + [b])
  {
    HandedMore(job, blocks, b);
  }

  /** Everyone got everything: the job's frame threads or its file all its sectors, and with ordered sub
      tracks each one's frame threads its range. */
  predicate Delivered(job: Job, subs: seq<Job>, given: seq<Given>) {
    && (if job.raw then Pieces(Writes(given), job.start, job.End()) else Receives(given, job, job.End(), job.End()) && Writes(given) == [])
    && (OrderedSubs(job, subs) ==>
          forall k :: 0 <= k < |subs| && !subs[k].raw ==> Receives(given, subs[k], SubEnd(job, subs, k), SubEnd(job, subs, k)))
  }

  lemma AllDelivered(job: Job, subs: seq<Job>, blocks: seq<Block>, r: Ranges, checked: bool, plain: bool)
    requires LoggedAt(blocks, r, job, job.End(), checked, plain) && Shaped(job, blocks)
    requires !job.raw ==> subs == []
    requires forall k :: 0 <= k < |subs| ==> subs[k].End() <= job.End()
    requires OrderedSubs(job, subs) ==> AllAssigned(job, subs, blocks)
    ensures Delivered(job, subs, AllHandedOn(job, blocks))
  {
    if job.raw { JobWritten(job, blocks, job.End()); } else { JobReceives(job, blocks, job.End()); }
    if OrderedSubs(job, subs) {
      forall k | 0 <= k < |subs| && !subs[k].raw
        ensures Receives(AllHandedOn(job, blocks), subs[k], SubEnd(job, subs, k), SubEnd(job, subs, k))
      {
        SubReceives(job, subs, k, blocks, job.End());
        assert Reached(job, subs, k, job.End()) == SubEnd(job, subs, k);
      }
    }
  }

  class Output {
    const disc: Disc
    var currentLsn: nat
    var endLsn: nat
    var subQueue: seq<Job>
    var ftSub: seq<Job>                 // the sub track being written, or none
    var processingThreadRun: bool
    var checkedForNonEncryptedDisc: bool
    var nonEncryptedDisc: bool
    var blocks: seq<Block>
    var readBuffer: Content
    var given: seq<Given>               // what was written or given to frame threads
    ghost var frameThread: bool         // a frame thread reads read_buffer
    ghost var subs: seq<Job>            // the whole sub queue

    ghost predicate Valid()
      reads this
    {
      disc.Valid() && |ftSub| <= 1 && processingThreadRun == frameThread && (!checkedForNonEncryptedDisc ==> !nonEncryptedDisc)
    }

    function CurrentVerdict(): Verdict
      reads this
    {
      if checkedForNonEncryptedDisc then Known(nonEncryptedDisc) else Unknown
    }

    constructor (disc: Disc)
      requires disc.Valid()
      ensures Valid() && this.disc == disc && !frameThread && subQueue == [] && ftSub == [] && blocks == [] && given == []
    {
      this.disc, currentLsn, endLsn, subQueue, ftSub, blocks := disc, 0, 0, [], [], [];
      processingThreadRun, checkedForNonEncryptedDisc, nonEncryptedDisc, frameThread := false, false, false, false;
      subs, readBuffer, given := [], Content(0, 0, false), [];
    }

    /** scarletbook_output_join_process_frames_thread */
    method JoinFrameThread()
      requires frameThread
      modifies `frameThread
      ensures !frameThread
    {
      frameThread := false;
    }

    /** scarletbook_output_start_process_frames_thread: there is one thread id; the thread is given what
        is in read_buffer. */
    method StartFrameThread(track: Job, last: bool)
      requires !frameThread
      modifies `frameThread, `given
      ensures frameThread && given == old(given) + [Frames(readBuffer, track, last)]
    {
      given := given + [Frames(readBuffer, track, last)];
      frameThread := true;
    }

    /** write_block */
    method WriteBlock()
      modifies `given
      ensures given == old(given) + [Written(readBuffer)]
    {
      given := given + [Written(readBuffer)];
    }

    /** The memcpy over read_buffer: no frame thread may be reading it. */
    method OverwriteReadBuffer(start: nat, count: nat)
      requires !frameThread
      modifies `readBuffer
      ensures readBuffer == Content(start, count, false)
    {
      readBuffer := Content(start, count, false);
    }

    /** sacd_decrypt */
    method Decrypt()
      requires !frameThread
      modifies `readBuffer
      ensures readBuffer == old(readBuffer).(decrypted := true)
    {
      readBuffer := readBuffer.(decrypted := true);
    }

    ghost predicate Logged(job: Job)
      reads this
    {
      LoggedAt(blocks, disc.ranges, job, currentLsn, checkedForNonEncryptedDisc, nonEncryptedDisc)
    }

    /** The sub tracks are inside the job; only a raw job has any. */
    ghost predicate Inside(job: Job)
      reads this
    {
      && currentLsn <= job.End() && endLsn <= job.End()
      && (forall k :: 0 <= k < |subQueue| ==> job.start <= subQueue[k].start && 1 <= subQueue[k].length && subQueue[k].End() <= job.End())
      && (!job.raw ==> subQueue == [] && ftSub == [] && endLsn == job.End())
    }

    ghost predicate Distributed(job: Job)
      reads this
    {
      DistributedAt(job, subs, subQueue, ftSub, currentLsn, endLsn, blocks)
    }

    method JoinIfRunning()
      requires Valid()
      modifies `processingThreadRun, `frameThread
      ensures Valid() && !frameThread
    {
      if processingThreadRun {
        processingThreadRun := false;
        JoinFrameThread();
      }
    }

    /** The check for discs that are not encrypted, on the first encrypted block. */
    method CheckDisc(encrypted: bool, lsn: nat)
      requires Valid()
      modifies `nonEncryptedDisc, `checkedForNonEncryptedDisc
      ensures Valid() && (encrypted ==> checkedForNonEncryptedDisc)
      ensures CurrentVerdict() == if encrypted && old(CurrentVerdict()).Unknown? then Known(disc.plain(lsn)) else old(CurrentVerdict())
      ensures old(checkedForNonEncryptedDisc) || !encrypted ==> nonEncryptedDisc == old(nonEncryptedDisc) && checkedForNonEncryptedDisc == old(checkedForNonEncryptedDisc)
    {
      if encrypted && !checkedForNonEncryptedDisc {
        nonEncryptedDisc := disc.plain(lsn);
        checkedForNonEncryptedDisc := true;
      }
    }

    /** Frame threads or raw output for the block that is in read_buffer. */
    method Dispatch(job: Job, last: bool)
      requires Valid() && !frameThread && (!job.raw ==> ftSub == [])
      modifies `processingThreadRun, `frameThread, `given
      ensures Valid() && (frameThread <==> !job.raw || (ftSub != [] && !ftSub[0].raw))
      ensures given == old(given)
        + (if job.raw then [Written(readBuffer)] else [Frames(readBuffer, job, last)])
        + (if ftSub != [] && !ftSub[0].raw then [Frames(readBuffer, ftSub[0], last)] else [])
    {
      if !job.raw {
        StartFrameThread(job, last);
        processingThreadRun := true;
      } else {
        WriteBlock();
      }
      if ftSub != [] && !ftSub[0].raw {
        StartFrameThread(ftSub[0], last);
        processingThreadRun := true;
      }
    }

    /** Counts the block that is in read_buffer, and decrypts it if it has to be. */
    method Record(job: Job, blockSize: nat, encrypted: bool)
      requires Valid() && !frameThread && readBuffer == Content(currentLsn, blockSize, false)
      modifies `currentLsn, `nonEncryptedDisc, `checkedForNonEncryptedDisc, `blocks, `readBuffer
      ensures Valid() && currentLsn == old(currentLsn) + blockSize && (encrypted ==> checkedForNonEncryptedDisc)
      ensures old(checkedForNonEncryptedDisc) || !encrypted ==> nonEncryptedDisc == old(nonEncryptedDisc) && checkedForNonEncryptedDisc == old(checkedForNonEncryptedDisc)
      ensures blocks == old(blocks) + [Block(old(currentLsn), blockSize, encrypted, encrypted && !nonEncryptedDisc, job.raw, currentLsn == endLsn, ftSub)]
      ensures CurrentVerdict() == VerdictNext(old(CurrentVerdict()), blocks[|blocks| - 1], disc.plain)
      ensures readBuffer == ContentOf(blocks[|blocks| - 1])
    {
      var lsn := currentLsn;
      currentLsn := currentLsn + blockSize;
      CheckDisc(encrypted, lsn);
      var decrypted := encrypted && !nonEncryptedDisc;
      if decrypted { Decrypt(); }
      blocks := blocks + [Block(lsn, blockSize, encrypted, decrypted, job.raw, currentLsn == endLsn, ftSub)];
    }

    /** The first branch of the loop: one block, wholly encrypted or not, is read, decrypted if it has
        to be, logged, and handed on. */
    method ReadBlock(job: Job) returns (ghost b: Block)
      requires Valid() && currentLsn < endLsn && (!job.raw ==> ftSub == [])
      modifies `currentLsn, `nonEncryptedDisc, `checkedForNonEncryptedDisc, `blocks, `processingThreadRun, `frameThread, `readBuffer, `given
      ensures Valid() && blocks == old(blocks) + [b] && b.start == old(currentLsn) < currentLsn == b.start + b.count <= endLsn
      ensures WholeBlock(disc.ranges, b) && b.written == job.raw && b.sub == ftSub
      ensures (b.last <==> currentLsn == endLsn) && (b.decrypted <==> b.encrypted && !nonEncryptedDisc)
      ensures b.encrypted ==> checkedForNonEncryptedDisc
      ensures CurrentVerdict() == VerdictNext(old(CurrentVerdict()), b, disc.plain)
      ensures old(checkedForNonEncryptedDisc) || !b.encrypted ==> nonEncryptedDisc == old(nonEncryptedDisc) && checkedForNonEncryptedDisc == old(checkedForNonEncryptedDisc)
      ensures given == old(given) + HandedOn(job, b) && (frameThread <==> !job.raw || (ftSub != [] && !ftSub[0].raw))
    {
      var c := Choose(disc.ranges, currentLsn, endLsn);
      ChosenWhole(disc.ranges, currentLsn, endLsn);
      var blockSize := disc.serves(currentLsn, c.blockSize);
      JoinIfRunning();
      OverwriteReadBuffer(currentLsn, blockSize);
      Record(job, blockSize, c.encrypted);
      b := blocks[|blocks| - 1];
      ghost var was := given;
      Dispatch(job, currentLsn == endLsn);
      assert given == was + HandedOn(job, b);
    }

    /** The second branch of the loop: the end of a range is reached. */
    method NextRange(job: Job) returns (done: bool)
      requires Valid()
      modifies `subQueue, `ftSub, `endLsn, `processingThreadRun, `frameThread
      ensures Valid() && !frameThread && Range(subQueue, ftSub, endLsn) == RangeAfter(job, old(subQueue), currentLsn)
      ensures done <==> old(subQueue) == [] && currentLsn >= job.End()
    {
      JoinIfRunning();
      ftSub := [];
      done := false;
      if subQueue != [] {
        if currentLsn < subQueue[0].start {
          endLsn := subQueue[0].start;
        } else {
          ftSub := [subQueue[0]];
          endLsn := subQueue[0].End();
          subQueue := subQueue[1..];
        }
      } else {
        endLsn := job.End();
        done := !(currentLsn < endLsn);
      }
    }

    /** What is set up before the loop. */
    method StartJob(job: Job, subs: seq<Job>)
      requires Valid() && !frameThread && ftSub == []
      requires forall k :: 0 <= k < |subs| ==> job.start <= subs[k].start && 1 <= subs[k].length && subs[k].End() <= job.End()
      requires !job.raw ==> subs == []
      modifies this
      ensures Valid() && Logged(job) && Inside(job) && Distributed(job) && currentLsn == job.start && blocks == [] && this.subs == subs
      ensures CurrentVerdict() == old(CurrentVerdict()) && given == old(given)
    {
      currentLsn, endLsn, subQueue, blocks, this.subs := job.start, job.End(), subs, [], subs;
      if subQueue != [] {
        if currentLsn < subQueue[0].start {
          endLsn := subQueue[0].start;
        } else {
          ftSub := [subQueue[0]];
          endLsn := subQueue[0].End() - 1;
          subQueue := subQueue[1..];
        }
      }
    }

    /** Since the job began, exactly its blocks were handed on. */
    ghost predicate HandedSince(job: Job, was: seq<Given>)
      reads this
    {
      given == was + AllHandedOn(job, blocks) && Shaped(job, blocks)
    }

    /** The first branch keeps what holds of the log. */
    method NextBlock(job: Job, ghost was: seq<Given>)
      requires Valid() && Logged(job) && Inside(job) && Distributed(job) && currentLsn < endLsn && HandedSince(job, was)
      modifies `currentLsn, `nonEncryptedDisc, `checkedForNonEncryptedDisc, `blocks, `processingThreadRun, `frameThread, `readBuffer, `given
      ensures Valid() && Logged(job) && Inside(job) && Distributed(job) && old(currentLsn) < currentLsn <= endLsn
      ensures blocks != [] && blocks[..|blocks| - 1] == old(blocks)
      ensures CurrentVerdict() == VerdictNext(old(CurrentVerdict()), blocks[|blocks| - 1], disc.plain)
      ensures HandedSince(job, was)
    {
      ghost var lsn, log, checked, plain := currentLsn, blocks, checkedForNonEncryptedDisc, nonEncryptedDisc;
      ghost var b := ReadBlock(job);
      LogMore(log, disc.ranges, job, lsn, checked, plain, checkedForNonEncryptedDisc, nonEncryptedDisc, b);
      DistributeMore(job, subs, subQueue, lsn, endLsn, log, b);
      HandedAll(job, log, b, was);
      assert lsn + b.count == currentLsn && b.sub == ftSub && log + [b] == blocks;
      assert Logged(job);
      assert Distributed(job);
    }

    /** What holds at every turn of the loop. */
    ghost predicate Going(job: Job, was: Verdict, before: seq<Given>)
      reads this
    {
      && Valid() && Logged(job) && Inside(job) && Distributed(job) && job.start <= currentLsn
      && CurrentVerdict() == VerdictAfter(was, blocks, disc.plain) && HandedSince(job, before)
    }

    method TakeBlock(job: Job, ghost was: Verdict, ghost before: seq<Given>)
      requires Going(job, was, before) && currentLsn < endLsn
      modifies `currentLsn, `nonEncryptedDisc, `checkedForNonEncryptedDisc, `blocks, `processingThreadRun, `frameThread, `readBuffer, `given
      ensures Going(job, was, before) && old(currentLsn) < currentLsn <= job.End()
    {
      NextBlock(job, before);
    }

    method EndRange(job: Job, ghost was: Verdict, ghost before: seq<Given>) returns (done: bool)
      requires Going(job, was, before) && currentLsn >= endLsn
      modifies `subQueue, `ftSub, `endLsn, `processingThreadRun, `frameThread
      ensures Going(job, was, before) && !frameThread
      ensures if done then currentLsn == job.End() && subQueue == [] && ftSub == []
              else |subQueue| < |old(subQueue)| || (subQueue == old(subQueue) && currentLsn < endLsn)
    {
      DistributeNext(job, subs, subQueue, ftSub, currentLsn, endLsn, blocks);
      done := NextRange(job);
    }

    /** The loop of a job. */
    method ProcessBlocks(job: Job, subs: seq<Job>)
      requires Valid() && !frameThread && ftSub == []
      requires forall k :: 0 <= k < |subs| ==> job.start <= subs[k].start && 1 <= subs[k].length && subs[k].End() <= job.End()
      requires !job.raw ==> subs == []
      modifies this
      ensures !frameThread && ftSub == [] && subQueue == [] && currentLsn == job.End() && this.subs == subs
      ensures Going(job, old(CurrentVerdict()), old(given))
    {
      ghost var was, before := CurrentVerdict(), given;
      StartJob(job, subs);
      assert AllHandedOn(job, []) == [];
      var done := false;
      while !done
        invariant Going(job, was, before) && this.subs == subs
        invariant done ==> currentLsn == job.End() && subQueue == [] && ftSub == [] && !frameThread
        decreases !done, |subQueue|, job.End() - currentLsn, currentLsn >= endLsn
      {
        if currentLsn < endLsn {
          TakeBlock(job, was, before);
        } else {
          done := EndRange(job, was, before);
        }
      }
    }

    /** A whole job: for any sub queue inside it, the log has each of its sectors exactly once and in
        order, in blocks of at most 512 sectors that are wholly encrypted or not, and every block went
        to the sub track it belongs to; it was decrypted if it is encrypted and the verdict is not
        against it, which is that of the first encrypted block ever.  The job's frame threads, or its
        file, were given all of them, and the frame threads of each sub track those of its range, each
        sector once and in order, and only what ends the range marked as the last; each was decrypted if it had
        to be.  At the end no frame thread is left. */
    method ProcessJob(job: Job, subs: seq<Job>)
      requires Valid() && !frameThread && ftSub == []
      requires forall k :: 0 <= k < |subs| ==> job.start <= subs[k].start && 1 <= subs[k].length && subs[k].End() <= job.End()
      requires !job.raw ==> subs == []
      modifies this
      ensures Valid() && !frameThread && ftSub == [] && subQueue == []
      ensures Logged(job) && currentLsn == job.End()
      ensures CurrentVerdict() == VerdictAfter(old(CurrentVerdict()), blocks, disc.plain)
      ensures OrderedSubs(job, subs) ==> AllAssigned(job, subs, blocks)
      ensures given == old(given) + AllHandedOn(job, blocks) && Delivered(job, subs, AllHandedOn(job, blocks))
      ensures AllReadable(AllHandedOn(job, blocks), disc.ranges, nonEncryptedDisc)
    {
      ProcessBlocks(job, subs);
      HandedReadable(job, blocks, disc.ranges, nonEncryptedDisc);
      AllDelivered(job, subs, blocks, disc.ranges, checkedForNonEncryptedDisc, nonEncryptedDisc);
    }
  }
}
