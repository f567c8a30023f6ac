/** The DSF writer of libs/libsacd/dsf.c: interleaved bytes become blocks of 4096 bytes a channel,
    and the unfinished blocks of one track start the next.  What the writer does is first described
    by functions on the channels' contents; class DsfHandle below has the loops. */
module Dsf {
  import opened Arithmetic
  import opened Bits
  import opened Reblocking
  import opened BitReverse

  /** SACD_BLOCK_SIZE_PER_CHANNEL */
  const BLOCK: nat := 4096

  /** A track being written: what is in each channel's buffer, the blocks in the order in which they
      were written, and the two counters. */
  datatype Track = Track(bufs: seq<seq<Byte>>, file: seq<seq<Byte>>, sampleCount: nat, audioDataSize: nat)

  /** The channels' fills agree. */
  ghost predicate Level(t: Track, n: nat) {
    n >= 1 && |t.bufs| == n && |t.bufs[0]| <= BLOCK && forall i :: 0 <= i < n ==> |t.bufs[i]| == |t.bufs[0]|
  }

  function Zeros(n: nat): (z: seq<Byte>) { seq(n, i => 0) }

  /** A block on disk: the content and zeros up to the block's end. */
  function Block(buf: seq<Byte>): seq<Byte>
    requires |buf| <= BLOCK
  {
    buf + Zeros(BLOCK - |buf|)
  }

  // ----- one round over the channels -----

  /** One byte for each channel. */
  function Push(t: Track, bytes: seq<Byte>): Track
    requires |t.bufs| <= |bytes|
  {
    t.(bufs := seq(|t.bufs|, i requires 0 <= i < |t.bufs| => t.bufs[i] + [Reverse(bytes[i])]))
  }

  ghost function Blocks(bufs: seq<seq<Byte>>): seq<seq<Byte>>
    requires forall i :: 0 <= i < |bufs| ==> |bufs[i]| <= BLOCK
  {
    seq(|bufs|, i requires 0 <= i < |bufs| => Block(bufs[i]))
  }

  function Empty(n: nat): seq<seq<Byte>> { seq(n, i => []) }

  /** Every channel's block is written and emptied. */
  ghost function Flush(t: Track, n: nat): Track
    requires Level(t, n)
  {
    Track(Empty(n), t.file + Blocks(t.bufs), t.sampleCount + Times(|t.bufs[0]|, n), t.audioDataSize + Times(BLOCK, n))
  }

  lemma PushLevel(t: Track, n: nat, bytes: seq<Byte>)
    requires Level(t, n) && n <= |bytes| && |t.bufs[0]| < BLOCK
    ensures Level(Push(t, bytes), n) && |Push(t, bytes).bufs[0]| == |t.bufs[0]| + 1
  {
  }

  /** dsf_write_frame: rounds that store while a channel has fewer than `limit` bytes, and else
      flush without taking input. */
  ghost function Write(t: Track, n: nat, frame: seq<Byte>, limit: nat): (r: Track)
    requires Level(t, n) && IsRounds(frame, n) && limit <= BLOCK && (frame != [] ==> limit >= 1)
    ensures Level(r, n)
    decreases |frame|, |t.bufs[0]|
  {
    if frame == [] then t
    else if |t.bufs[0]| < limit then
      PushLevel(t, n, frame);
      Write(Push(t, frame), n, frame[n..], limit)
    else Write(Flush(t, n), n, frame, limit)
  }

  /** What is compared with a channel's fill: the block size, or the frame's bytes a channel if fewer. */
  function Limit(rounds: nat): nat { if rounds < BLOCK then rounds else BLOCK }

  ghost function WriteFrame(t: Track, n: nat, frame: seq<Byte>): (r: Track)
    requires Level(t, n) && IsRounds(frame, n)
    ensures Level(r, n)
  {
    Write(t, n, frame, Limit(Rounds(frame, n)))
  }

  // ----- what the blocks hold -----

  /** Everything channel i was given in this track, its carried-over start included. */
  ghost function Stream(t: Track, n: nat, i: nat): seq<Byte>
    requires Level(t, n) && i < n && IsRounds(t.file, n)
  {
    Channel(t.file, n, i) + t.bufs[i]
  }

  /** Channel i of a frame, with its bits reversed. */
  function Input(frame: seq<Byte>, n: nat, i: nat): seq<Byte>
    requires n >= 1 && i < n && IsRounds(frame, n)
    decreases |frame|
  {
    if frame == [] then [] else [Reverse(frame[i])] + Input(frame[n..], n, i)
  }

  /** Only full blocks were written so far. */
  ghost predicate Unpadded(t: Track, n: nat) {
    && Level(t, n) && IsRounds(t.file, n) && t.sampleCount == t.audioDataSize == Times(Times(BLOCK, n), Rounds(t.file, n))
    && forall k :: 0 <= k < |t.file| ==> |t.file[k]| == BLOCK
  }

  /** No block will be written before it is full: the frame is long, or fits what is free. */
  predicate Fits(fill: nat, rounds: nat, limit: nat) {
    limit == BLOCK || rounds == 0 || (fill == BLOCK && rounds <= limit) || fill + rounds <= limit
  }

  /** When dsf_write_frame writes full blocks only; a caller can test it. */
  predicate Smooth(fill: nat, rounds: nat) {
    rounds >= BLOCK || rounds == 0 || fill == 0 || fill == BLOCK
  }

  lemma FlushStream(t: Track, n: nat, i: nat)
    requires Unpadded(t, n) && |t.bufs[0]| == BLOCK && i < n
    ensures Unpadded(Flush(t, n), n) && Stream(Flush(t, n), n, i) == Stream(t, n, i)
  {
    var blocks := Blocks(t.bufs);
    RoundsAppend(t.file, blocks, n);
    ChannelAppend(t.file, blocks, n, i);
    assert Block(t.bufs[i]) == t.bufs[i];
    assert Channel(t.file, n, i) + t.bufs[i] + [] == Channel(t.file, n, i) + t.bufs[i];
    var file := Flush(t, n).file;
    forall k | 0 <= k < |file| ensures |file[k]| == BLOCK {
      if k >= |t.file| { assert file[k] == blocks[k - |t.file|]; }
    }
  }

  /** A frame that fits loses nothing and leaves no gap. */
  lemma {:induction false} WriteStream(t: Track, n: nat, frame: seq<Byte>, limit: nat, i: nat)
    requires Unpadded(t, n) && IsRounds(frame, n) && limit <= BLOCK && (frame != [] ==> limit >= 1) && i < n
    requires Fits(|t.bufs[0]|, Rounds(frame, n), limit)
    ensures Unpadded(Write(t, n, frame, limit), n)
    ensures Stream(Write(t, n, frame, limit), n, i) == Stream(t, n, i) + Input(frame, n, i)
    decreases |frame|, |t.bufs[0]|
  {
    if frame == [] {
      assert Stream(t, n, i) + [] == Stream(t, n, i);
    } else if |t.bufs[0]| < limit {
      var u, rest := Push(t, frame), frame[n..];
      PushLevel(t, n, frame);
      WriteStream(u, n, rest, limit, i);
      assert Stream(u, n, i) + Input(rest, n, i) == Stream(t, n, i) + ([Reverse(frame[i])] + Input(rest, n, i));
    } else {
      FlushStream(t, n, i);
      WriteStream(Flush(t, n), n, frame, limit, i);
    }
  }

  // ----- frames that are not smooth -----

  lemma {:induction false} GapGrows(t: Track, n: nat, frame: seq<Byte>, limit: nat)
    requires Level(t, n) && IsRounds(frame, n) && limit <= BLOCK && (frame != [] ==> limit >= 1)
    ensures var r := Write(t, n, frame, limit); r.audioDataSize - r.sampleCount >= t.audioDataSize - t.sampleCount
    decreases |frame|, |t.bufs[0]|
  {
    if frame != [] {
      if |t.bufs[0]| < limit {
        PushLevel(t, n, frame);
        GapGrows(Push(t, frame), n, frame[n..], limit);
      } else {
        TimesMonotone(|t.bufs[0]|, BLOCK, n);
        GapGrows(Flush(t, n), n, frame, limit);
      }
    }
  }

  lemma {:induction false} GapOpens(t: Track, n: nat, frame: seq<Byte>, limit: nat)
    requires Level(t, n) && IsRounds(frame, n) && 1 <= limit < BLOCK
    requires 0 < |t.bufs[0]| < BLOCK && frame != [] && |t.bufs[0]| + Rounds(frame, n) > limit
    ensures var r := Write(t, n, frame, limit); r.audioDataSize - r.sampleCount > t.audioDataSize - t.sampleCount
    decreases |frame|
  {
    if |t.bufs[0]| < limit {
      PushLevel(t, n, frame);
      GapOpens(Push(t, frame), n, frame[n..], limit);
    } else {
      TimesStrict(|t.bufs[0]|, BLOCK, n);
      GapGrows(Flush(t, n), n, frame, limit);
    }
  }

  /** dsf_write_frame writes full blocks only exactly when the frame is smooth; else it writes a
      block that is padded in the middle of the track. */
  lemma SmoothExactly(t: Track, n: nat, frame: seq<Byte>)
    requires Unpadded(t, n) && IsRounds(frame, n)
    ensures Unpadded(WriteFrame(t, n, frame), n) <==> Smooth(|t.bufs[0]|, Rounds(frame, n))
  {
    var rounds := Rounds(frame, n);
    if Smooth(|t.bufs[0]|, rounds) {
      WriteStream(t, n, frame, Limit(rounds), 0);
    } else {
      GapOpens(t, n, frame, Limit(rounds));
    }
  }

  lemma {:induction false} InputLength(frame: seq<Byte>, n: nat, i: nat)
    requires n >= 1 && i < n && IsRounds(frame, n)
    ensures |Input(frame, n, i)| == Rounds(frame, n)
    decreases |frame|
  {
    if frame != [] { InputLength(frame[n..], n, i); }
  }

  function NewTrack(n: nat): Track { Track(Empty(n), [], 0, 0) }

  /** A first frame shorter than a block stays in the buffers. */
  lemma FirstStays(n: nat, frame: seq<Byte>)
    requires n >= 1 && IsRounds(frame, n) && Rounds(frame, n) < BLOCK
    ensures var t := WriteFrame(NewTrack(n), n, frame); Unpadded(t, n) && t.file == [] && |t.bufs[0]| == Rounds(frame, n)
  {
    var t, rounds := WriteFrame(NewTrack(n), n, frame), Rounds(frame, n);
    WriteStream(NewTrack(n), n, frame, rounds, 0);
    InputLength(frame, n, 0);
    ChannelLength(t.file, n, 0);
  }

  /** Tracks that are padded in the middle exist: any two frames shorter than a block make one. */
  lemma ShortFramesPad(n: nat, first: seq<Byte>, second: seq<Byte>)
    requires n >= 1 && IsRounds(first, n) && IsRounds(second, n)
    requires 0 < Rounds(first, n) < BLOCK && 0 < Rounds(second, n) < BLOCK
    ensures !Unpadded(WriteFrame(WriteFrame(NewTrack(n), n, first), n, second), n)
  {
    FirstStays(n, first);
    SmoothExactly(WriteFrame(NewTrack(n), n, first), n, second);
  }

  // ----- a track, and tracks in a row -----

  /** Each frame has a multiple of n bytes. */
  ghost predicate AllRounds(frames: seq<seq<Byte>>, n: nat)
    requires n >= 1
  {
    forall k :: 0 <= k < |frames| ==> IsRounds(frames[k], n)
  }

  ghost predicate TracksRounds(tracks: seq<seq<seq<Byte>>>, n: nat)
    requires n >= 1
  {
    forall t :: 0 <= t < |tracks| ==> AllRounds(tracks[t], n)
  }

  ghost function WriteFrames(t: Track, n: nat, frames: seq<seq<Byte>>): (r: Track)
    requires Level(t, n) && AllRounds(frames, n)
    ensures Level(r, n)
    decreases |frames|
  {
    if frames == [] then t else WriteFrames(WriteFrame(t, n, frames[0]), n, frames[1..])
  }

  /** Each frame is smooth when its turn comes. */
  ghost predicate AllSmooth(t: Track, n: nat, frames: seq<seq<Byte>>)
    requires Level(t, n) && AllRounds(frames, n)
    decreases |frames|
  {
    frames == [] || (Smooth(|t.bufs[0]|, Rounds(frames[0], n)) && AllSmooth(WriteFrame(t, n, frames[0]), n, frames[1..]))
  }

  /** Channel i of several frames. */
  ghost function Inputs(frames: seq<seq<Byte>>, n: nat, i: nat): seq<Byte>
    requires n >= 1 && i < n && AllRounds(frames, n)
    decreases |frames|
  {
    if frames == [] then [] else Input(frames[0], n, i) + Inputs(frames[1..], n, i)
  }

  lemma {:induction false} FramesStream(t: Track, n: nat, frames: seq<seq<Byte>>, i: nat)
    requires Unpadded(t, n) && i < n && AllRounds(frames, n) && AllSmooth(t, n, frames)
    ensures Unpadded(WriteFrames(t, n, frames), n)
    ensures Stream(WriteFrames(t, n, frames), n, i) == Stream(t, n, i) + Inputs(frames, n, i)
    decreases |frames|
  {
    if frames == [] {
      assert Stream(t, n, i) + [] == Stream(t, n, i);
    } else {
      var frame, rest, rounds := frames[0], frames[1..], Rounds(frames[0], n);
      var u := WriteFrame(t, n, frame);
      WriteStream(t, n, frame, Limit(rounds), i);
      FramesStream(u, n, rest, i);
      Assoc(Stream(t, n, i), Input(frame, n, i), Inputs(rest, n, i));
    }
  }

  /** Long frames are smooth. */
  lemma {:induction false} LongSmooth(t: Track, n: nat, frames: seq<seq<Byte>>)
    requires Level(t, n) && AllRounds(frames, n) && forall k :: 0 <= k < |frames| ==> Rounds(frames[k], n) >= BLOCK
    ensures AllSmooth(t, n, frames)
    decreases |frames|
  {
    if frames != [] { LongSmooth(WriteFrame(t, n, frames[0]), n, frames[1..]); }
  }

  /** dsf_create: a later track of a no-pad run starts with what the one before left. */
  function Create(carried: seq<seq<Byte>>): Track { Track(carried, [], 0, 0) }

  /** dsf_close of the last track: what is left is padded to whole blocks. */
  ghost function CloseLast(t: Track, n: nat): Track
    requires Level(t, n)
  {
    if |t.bufs[0]| > 0 then Flush(t, n) else t
  }

  /** A closed file: its blocks and its counters. */
  datatype Closed = Closed(file: seq<seq<Byte>>, sampleCount: nat, audioDataSize: nat)

  function AsClosed(t: Track): Closed { Closed(t.file, t.sampleCount, t.audioDataSize) }

  /** The files of consecutive no-pad tracks. */
  ghost function WriteTracks(carried: seq<seq<Byte>>, n: nat, tracks: seq<seq<seq<Byte>>>): seq<Closed>
    requires Level(Create(carried), n)
    requires TracksRounds(tracks, n)
    decreases |tracks|
  {
    if tracks == [] then []
    else
      var t := WriteFrames(Create(carried), n, tracks[0]);
      if |tracks| == 1 then [AsClosed(CloseLast(t, n))] else [AsClosed(t)] + WriteTracks(t.bufs, n, tracks[1..])
  }

  ghost predicate SmoothTracks(carried: seq<seq<Byte>>, n: nat, tracks: seq<seq<seq<Byte>>>)
    requires Level(Create(carried), n)
    requires TracksRounds(tracks, n)
    decreases |tracks|
  {
    tracks == [] || (AllSmooth(Create(carried), n, tracks[0]) && SmoothTracks(WriteFrames(Create(carried), n, tracks[0]).bufs, n, tracks[1..]))
  }

  /** Only zeros from there on. */
  predicate Silent(s: seq<Byte>, from: nat) { from <= |s| && forall k :: from <= k < |s| ==> s[k] == 0 }

  /** The file can be played, and has fewer than BLOCK bytes a channel too many, all of them 0. */
  ghost predicate Playable(c: Closed, n: nat) {
    && n >= 1 && IsRounds(c.file, n)
    && (forall i :: 0 <= i < n ==> c.sampleCount / n <= |Channel(c.file, n, i)| < c.sampleCount / n + BLOCK)
    && (forall i :: 0 <= i < n ==> Silent(Channel(c.file, n, i), c.sampleCount / n))
  }

  /** The samples of channel i that a player reads: the blocks cut to the count in the header. */
  ghost function Played(c: Closed, n: nat, i: nat): seq<Byte>
    requires Playable(c, n) && i < n
  {
    Channel(c.file, n, i)[..c.sampleCount / n]
  }

  ghost predicate AllPlayable(files: seq<Closed>, n: nat) { forall k :: 0 <= k < |files| ==> Playable(files[k], n) }

  /** Only the last file may have padding. */
  ghost predicate PaddedAtEnd(files: seq<Closed>) {
    |files| <= 1 || (files[0].sampleCount == files[0].audioDataSize && PaddedAtEnd(files[1..]))
  }

  ghost function PlayedAll(files: seq<Closed>, n: nat, i: nat): seq<Byte>
    requires n >= 1 && i < n && AllPlayable(files, n)
    decreases |files|
  {
    if files == [] then [] else Played(files[0], n, i) + PlayedAll(files[1..], n, i)
  }

  ghost function TracksInput(tracks: seq<seq<seq<Byte>>>, n: nat, i: nat): seq<Byte>
    requires n >= 1 && i < n && TracksRounds(tracks, n)
    decreases |tracks|
  {
    if tracks == [] then [] else Inputs(tracks[0], n, i) + TracksInput(tracks[1..], n, i)
  }

  lemma {:induction false} ChannelLength(file: seq<seq<Byte>>, n: nat, i: nat)
    requires n >= 1 && i < n && IsRounds(file, n) && forall k :: 0 <= k < |file| ==> |file[k]| == BLOCK
    ensures |Channel(file, n, i)| == Times(BLOCK, Rounds(file, n))
    decreases |file|
  {
    if file != [] { ChannelLength(file[n..], n, i); }
  }

  /** A track that is not the last is played in full, without any padding. */
  lemma UnpaddedPlays(t: Track, n: nat, i: nat)
    requires Unpadded(t, n) && i < n
    ensures Playable(AsClosed(t), n) && Played(AsClosed(t), n, i) == Channel(t.file, n, i)
  {
    var k := Rounds(t.file, n);
    TimesSwap(BLOCK, n, k);
    TimesDivided(Times(BLOCK, k), n);
    forall j | 0 <= j < n ensures |Channel(t.file, n, j)| == Times(BLOCK, k) { ChannelLength(t.file, n, j); }
  }

  /** One channel of the padded file. */
  lemma LastChannel(t: Track, n: nat, j: nat)
    requires Unpadded(t, n) && j < n
    ensures var file := t.file + Blocks(t.bufs);
            IsRounds(file, n) && Channel(file, n, j) == Channel(t.file, n, j) + Block(t.bufs[j])
    ensures |Channel(t.file, n, j)| == Times(BLOCK, Rounds(t.file, n))
  {
    ChannelLength(t.file, n, j);
    OneRound(Blocks(t.bufs), n, j);
    ChannelAppend(t.file, Blocks(t.bufs), n, j);
  }

  lemma LastCount(t: Track, n: nat)
    requires Unpadded(t, n) && |t.bufs[0]| > 0
    ensures CloseLast(t, n).sampleCount / n == Times(BLOCK, Rounds(t.file, n)) + |t.bufs[0]|
  {
    CountDivided(BLOCK, n, Rounds(t.file, n), |t.bufs[0]|);
  }

  lemma CountDivided(size: nat, n: nat, k: nat, fill: nat)
    requires n >= 1
    ensures (Times(Times(size, n), k) + Times(fill, n)) / n == Times(size, k) + fill
  {
    TimesSwap(size, n, k);
    TimesAddLeft(Times(size, k), fill, n);
    TimesDivided(Times(size, k) + fill, n);
  }

  /** The last track is played in full, and its padding is less than a block. */
  lemma LastPlays(t: Track, n: nat, i: nat)
    requires Unpadded(t, n) && i < n
    ensures Playable(AsClosed(CloseLast(t, n)), n) && Played(AsClosed(CloseLast(t, n)), n, i) == Stream(t, n, i)
  {
    if |t.bufs[0]| == 0 {
      UnpaddedPlays(t, n, i);
      assert Channel(t.file, n, i) + [] == Channel(t.file, n, i);
    } else {
      LastCount(t, n);
      forall j | 0 <= j < n
        ensures IsRounds(t.file + Blocks(t.bufs), n)
        ensures Channel(t.file + Blocks(t.bufs), n, j) == Channel(t.file, n, j) + Block(t.bufs[j])
        ensures |Channel(t.file, n, j)| == Times(BLOCK, Rounds(t.file, n))
      {
        LastChannel(t, n, j);
      }
    }
  }

  lemma PlayedFirst(c: Closed, files: seq<Closed>, n: nat, i: nat)
    requires i < n && Playable(c, n) && AllPlayable(files, n)
    ensures AllPlayable([c] + files, n)
    ensures c.sampleCount == c.audioDataSize && PaddedAtEnd(files) ==> PaddedAtEnd([c] + files)
    ensures PlayedAll([c] + files, n, i) == Played(c, n, i) + PlayedAll(files, n, i)
  {
    assert ([c] + files)[1..] == files;
  }

  /** Nothing is lost over any tracks: per channel, the files played one after the other are the
      bit-reversed input in order, and only the last file has padding. */
  lemma {:induction false} TracksConserve(carried: seq<seq<Byte>>, n: nat, tracks: seq<seq<seq<Byte>>>, i: nat)
    requires Level(Create(carried), n) && i < n && tracks != []
    requires TracksRounds(tracks, n)
    requires SmoothTracks(carried, n, tracks)
    ensures var files := WriteTracks(carried, n, tracks);
            && |files| == |tracks| && AllPlayable(files, n) && PaddedAtEnd(files)
            && PlayedAll(files, n, i) == carried[i] + TracksInput(tracks, n, i)
    decreases |tracks|
  {
    var t := WriteFrames(Create(carried), n, tracks[0]);
    FramesStream(Create(carried), n, tracks[0], i);
    assert Stream(Create(carried), n, i) == carried[i];
    var input, later := Inputs(tracks[0], n, i), TracksInput(tracks[1..], n, i);
    if |tracks| == 1 {
      var c := AsClosed(CloseLast(t, n));
      LastPlays(t, n, i);
      PlayedFirst(c, [], n, i);
      assert [c] + [] == [c] && Played(c, n, i) + [] == Played(c, n, i) && input + [] == input;
    } else {
      var c, rest := AsClosed(t), WriteTracks(t.bufs, n, tracks[1..]);
      UnpaddedPlays(t, n, i);
      TracksConserve(t.bufs, n, tracks[1..], i);
      PlayedFirst(c, rest, n, i);
      Regroup(Channel(t.file, n, i), t.bufs[i], carried[i], input, later);
    }
  }
}
