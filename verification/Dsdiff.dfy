/** The DSDIFF writer of libs/libsacd/dsdiff.c: what is in the file, and a reader that walks its
    chunks.  The chunks that do not depend on the frames are parameters: `fixed` stands between the
    form type and the sound data (FVER and PROP), `tail` behind the index (DIIN, COMT, ID3). */
module Dsdiff {
  import opened Bits
  import opened Reblocking

  // ----- numbers, most significant byte first -----

  function Pow256(n: nat): nat { if n == 0 then 1 else 256 * Pow256(n - 1) }

  /** Digit k of v to the base 256. */
  function Digit(v: nat, k: nat): Byte
    decreases k
  {
    if k == 0 then v % 256 else Digit(v / 256, k - 1)
  }

  /** hton16, hton32, hton64 */
  function Big(v: nat, n: nat): (s: seq<Byte>) { seq(n, i requires 0 <= i < n => Digit(v, n - 1 - i)) }

  function FromBig(s: seq<Byte>): nat
    decreases |s|
  {
    if s == [] then 0 else 256 * FromBig(s[..|s| - 1]) + s[|s| - 1]
  }

  lemma {:induction false} BigRead(v: nat, n: nat)
    requires v < Pow256(n)
    ensures FromBig(Big(v, n)) == v
    decreases n
  {
    if n > 0 {
      BigRead(v / 256, n - 1);
      var s, t := Big(v, n), Big(v / 256, n - 1);
      forall i | 0 <= i < n - 1 ensures s[i] == t[i] { assert Digit(v, n - 1 - i) == Digit(v / 256, n - 2 - i); }
      assert s[..n - 1] == t;
      assert s[n - 1] == Digit(v, 0) == v % 256;
    }
  }

  // ----- chunks -----

  const FRM8: seq<Byte> := [0x46, 0x52, 0x4d, 0x38]
  const DSD: seq<Byte> := [0x44, 0x53, 0x44, 0x20]
  const DST: seq<Byte> := [0x44, 0x53, 0x54, 0x20]
  const FRTE: seq<Byte> := [0x46, 0x52, 0x54, 0x45]
  const DSTF: seq<Byte> := [0x44, 0x53, 0x54, 0x46]
  const DSTI: seq<Byte> := [0x44, 0x53, 0x54, 0x49]

  /** CEIL_ODD_NUMBER */
  function Ceil(x: nat): nat { if x % 2 == 1 then x + 1 else x }

  function Pad(data: seq<Byte>): seq<Byte> { if |data| % 2 == 1 then [0] else [] }

  function ChunkHeader(id: seq<Byte>, size: nat): seq<Byte> { id + Big(size, 8) }

  /** A frame data chunk: its size does not count the pad byte. */
  function FrameChunk(data: seq<Byte>): seq<Byte> { ChunkHeader(DSTF, |data|) + data + Pad(data) }

  datatype Index = Index(offset: nat, length: nat)

  /** The file and what the handle knows of it. */
  datatype Recording = Recording(file: seq<Byte>, frameCount: nat, audioDataSize: nat, indexes: seq<Index>)

  /** The sound data chunk's header; with DST the frame information chunk is in it. */
  function SoundHeader(dst: bool, frameCount: nat, audioDataSize: nat): seq<Byte> {
    if dst then ChunkHeader(DST, Ceil(audioDataSize + 18)) + ChunkHeader(FRTE, 6) + Big(frameCount, 4) + Big(75, 2)
    else ChunkHeader(DSD, Ceil(audioDataSize))
  }

  function HeaderSize(dst: bool, fixed: seq<Byte>): nat { 16 + |fixed| + if dst then 30 else 12 }

  function Header(dst: bool, fixed: seq<Byte>, frameCount: nat, audioDataSize: nat, footerSize: nat): seq<Byte> {
    ChunkHeader(FRM8, Ceil(HeaderSize(dst, fixed) + footerSize + audioDataSize - 12)) + DSD + fixed + SoundHeader(dst, frameCount, audioDataSize)
  }

  /** Whatever the counts are, the header has the same size: writing it again overwrites nothing else. */
  lemma HeaderLength(dst: bool, fixed: seq<Byte>, frameCount: nat, audioDataSize: nat, footerSize: nat)
    ensures |Header(dst, fixed, frameCount, audioDataSize, footerSize)| == HeaderSize(dst, fixed)
  {
  }

  function Entry(x: Index): seq<Byte> { Big(x.offset, 8) + Big(x.length, 4) }

  function Entries(xs: seq<Index>): seq<Byte>
    decreases |xs|
  {
    if xs == [] then [] else Entries(xs[..|xs| - 1]) + Entry(xs[|xs| - 1])
  }

  function Footer(dst: bool, indexes: seq<Index>, tail: seq<Byte>): seq<Byte> {
    (if dst && indexes != [] then ChunkHeader(DSTI, 12 * |indexes|) + Entries(indexes) else []) + tail
  }

  /** dsdiff_create */
  function Create(dst: bool, fixed: seq<Byte>, tail: seq<Byte>): Recording {
    Recording(Header(dst, fixed, 0, 0, |tail|), 0, 0, [])
  }

  /** dsdiff_write_frame */
  function WriteFrame(d: Recording, dst: bool, buf: seq<Byte>): Recording {
    if dst then
      Recording(d.file + FrameChunk(buf), d.frameCount + 1, d.audioDataSize + |FrameChunk(buf)|, d.indexes + [Index(|d.file| + 12, |buf|)])
    else Recording(d.file + buf, d.frameCount + 1, d.audioDataSize + |buf|, d.indexes)
  }

  /** The frames of a recording; the last one is at hand. */
  datatype Frames = None | Then(before: Frames, last: seq<Byte>)

  function Count(fs: Frames): nat { if fs.None? then 0 else Count(fs.before) + 1 }

  function Data(fs: Frames): seq<seq<Byte>> { if fs.None? then [] else Data(fs.before) + [fs.last] }

  function WriteFrames(d: Recording, dst: bool, fs: Frames): Recording {
    if fs.None? then d else WriteFrame(WriteFrames(d, dst, fs.before), dst, fs.last)
  }

  /** The pad byte behind the sound data. */
  function PadSound(d: Recording): Recording {
    if d.audioDataSize % 2 == 1 then d.(file := d.file + [0], audioDataSize := d.audioDataSize + 1) else d
  }

  /** dsdiff_close: the footer goes to the end, then the header is written again over the first. */
  function Close(d: Recording, dst: bool, fixed: seq<Byte>, tail: seq<Byte>): Recording
    requires |d.file| >= HeaderSize(dst, fixed)
  {
    var p := PadSound(d);
    var footer := Footer(dst, p.indexes, tail);
    p.(file := Header(dst, fixed, p.frameCount, p.audioDataSize, |footer|) + (p.file + footer)[HeaderSize(dst, fixed)..])
  }

  // ----- what a run leaves in the file -----

  /** The frame chunks in order. */
  function Chunks(fs: Frames): seq<Byte> { if fs.None? then [] else Chunks(fs.before) + FrameChunk(fs.last) }

  /** Where the data of each frame is when the chunks start at `pos`. */
  function Places(fs: Frames, pos: nat): seq<Index> {
    if fs.None? then [] else Places(fs.before, pos) + [Index(pos + |Chunks(fs.before)| + 12, |fs.last|)]
  }

  lemma FrameWritten(d: Recording, first: seq<Byte>, chunks: seq<Byte>, data: seq<Byte>)
    requires d.file == first + chunks && d.audioDataSize == |chunks|
    ensures var e := WriteFrame(d, true, data);
            && e.file == first + (chunks + FrameChunk(data)) && e.audioDataSize == |chunks + FrameChunk(data)|
            && e.frameCount == d.frameCount + 1 && e.indexes == d.indexes + [Index(|first| + |chunks| + 12, |data|)]
  {
    Assoc(first, chunks, FrameChunk(data));
  }

  lemma {:induction false} FramesWritten(d: Recording, fs: Frames)
    requires d.frameCount == 0 && d.audioDataSize == 0 && d.indexes == []
    ensures var e := WriteFrames(d, true, fs);
            && e.file == d.file + Chunks(fs)
            && e.frameCount == Count(fs) && e.audioDataSize == |Chunks(fs)| && e.indexes == Places(fs, |d.file|)
  {
    match fs
    case None =>
      assert d.file + [] == d.file;
    case Then(before, last) =>
      FramesWritten(d, before);
      FrameWritten(WriteFrames(d, true, before), d.file, Chunks(before), last);
  }

  lemma {:induction false} ChunksEven(fs: Frames)
    ensures |Chunks(fs)| % 2 == 0
  {
    if fs.Then? { ChunksEven(fs.before); }
  }

  lemma Overwrite(first: seq<Byte>, header: seq<Byte>, chunks: seq<Byte>, footer: seq<Byte>)
    ensures header + (first + chunks + footer)[|first|..] == header + chunks + footer
  {
    assert (first + chunks + footer)[|first|..] == chunks + footer;
  }

  /** The closed file: a header of the first one's size, the chunks, and the footer. */
  lemma ClosedFile(fs: Frames, fixed: seq<Byte>, first: seq<Byte>, tail: seq<Byte>)
    ensures var d, h := WriteFrames(Create(true, fixed, first), true, fs), HeaderSize(true, fixed);
            var footer := Footer(true, Places(fs, h), tail);
            && |d.file| >= h
            && Close(d, true, fixed, tail).file == Header(true, fixed, Count(fs), |Chunks(fs)|, |footer|) + Chunks(fs) + footer
  {
    var d, h, chunks := WriteFrames(Create(true, fixed, first), true, fs), HeaderSize(true, fixed), Chunks(fs);
    var footer := Footer(true, Places(fs, h), tail);
    HeaderLength(true, fixed, 0, 0, |first|);
    FramesWritten(Create(true, fixed, first), fs);
    ChunksEven(fs);
    var header0, header := Header(true, fixed, 0, 0, |first|), Header(true, fixed, Count(fs), |chunks|, |footer|);
    assert PadSound(d) == d;
    Overwrite(header0, header, chunks, footer);
  }

  /** The chunks that do not depend on the frames stand at the end. */
  lemma TailStands(fs: Frames, fixed: seq<Byte>, first: seq<Byte>, tail: seq<Byte>)
    ensures var d := WriteFrames(Create(true, fixed, first), true, fs);
            && |d.file| >= HeaderSize(true, fixed)
            && var s := Close(d, true, fixed, tail).file; |s| >= |tail| && s[|s| - |tail|..] == tail
  {
    ClosedFile(fs, fixed, first, tail);
  }

  // ----- the export without DST -----

  /** The frames, one after the other. */
  function Sound(fs: Frames): seq<Byte> { if fs.None? then [] else Sound(fs.before) + fs.last }

  /** What follows sound data of odd length. */
  function SoundPad(sound: seq<Byte>): seq<Byte> { if |sound| % 2 == 1 then [0] else [] }

  lemma {:induction false} DsdFramesWritten(d: Recording, fs: Frames)
    requires d.frameCount == 0 && d.audioDataSize == 0
    ensures var e := WriteFrames(d, false, fs);
            && e.file == d.file + Sound(fs)
            && e.frameCount == Count(fs) && e.audioDataSize == |Sound(fs)| && e.indexes == d.indexes
  {
    match fs
    case None =>
      assert d.file + [] == d.file;
    case Then(before, last) =>
      DsdFramesWritten(d, before);
      Assoc(d.file, Sound(before), last);
  }

  /** The closed file: the final header, all frames one after the other, a zero byte exactly if their
      total is odd, and the tail. */
  lemma DsdClosedFile(fs: Frames, fixed: seq<Byte>, first: seq<Byte>, tail: seq<Byte>)
    ensures var d, h, sound := WriteFrames(Create(false, fixed, first), false, fs), HeaderSize(false, fixed), Sound(fs) + SoundPad(Sound(fs));
            && |d.file| >= h
            && Close(d, false, fixed, tail).file == Header(false, fixed, Count(fs), |sound|, |tail|) + sound + tail
  {
    var d, h, sound := WriteFrames(Create(false, fixed, first), false, fs), HeaderSize(false, fixed), Sound(fs) + SoundPad(Sound(fs));
    HeaderLength(false, fixed, 0, 0, |first|);
    DsdFramesWritten(Create(false, fixed, first), fs);
    var header0, header := Header(false, fixed, 0, 0, |first|), Header(false, fixed, Count(fs), |sound|, |tail|);
    assert Footer(false, PadSound(d).indexes, tail) == tail;
    assert PadSound(d).file == header0 + sound;
    Overwrite(header0, header, sound, tail);
  }

  // ----- reading the file -----

  /** A frame that a reader finds: where its data is, and the data. */
  datatype Found = Found(index: Index, data: seq<Byte>)

  datatype Walked = Done(frames: seq<Found>) | Broken

  function Front(x: Found, w: Walked): Walked { if w.Broken? then w else Done([x] + w.frames) }

  function SizeAt(s: seq<Byte>, pos: nat): nat
    requires pos + 12 <= |s|
  {
    FromBig(s[pos + 4..pos + 12])
  }

  function NextAt(s: seq<Byte>, pos: nat): nat
    requires pos + 12 <= |s|
  {
    pos + 12 + Ceil(SizeAt(s, pos))
  }

  predicate ChunkFits(s: seq<Byte>, pos: nat, end: nat) {
    pos + 12 <= end <= |s| && s[pos..pos + 4] == DSTF && NextAt(s, pos) <= end
  }

  function FoundAt(s: seq<Byte>, pos: nat): Found
    requires ChunkFits(s, pos, |s|)
  {
    Found(Index(pos + 12, SizeAt(s, pos)), s[pos + 12..pos + 12 + SizeAt(s, pos)])
  }

  /** Walks the frame chunks from `pos` to `end`. */
  function Walk(s: seq<Byte>, pos: nat, end: nat): Walked
    requires end <= |s|
    decreases end - pos
  {
    if pos == end then Done([])
    else if !ChunkFits(s, pos, end) then Broken
    else Front(FoundAt(s, pos), Walk(s, NextAt(s, pos), end))
  }

  /** `part` stands at `pos`. */
  ghost predicate At(s: seq<Byte>, pos: nat, part: seq<Byte>) { pos + |part| <= |s| && s[pos..pos + |part|] == part }

  /** A frame chunk at `pos`. */
  ghost predicate ChunkAt(s: seq<Byte>, pos: nat, data: seq<Byte>) {
    At(s, pos, FrameChunk(data)) && |data| < Pow256(8)
  }

  /** A part of a part. */
  lemma SubParts(s: seq<Byte>, pos: nat, a: seq<Byte>, b: seq<Byte>)
    requires pos + |a + b| <= |s| && s[pos..pos + |a + b|] == a + b
    ensures s[pos..pos + |a|] == a && s[pos + |a|..pos + |a| + |b|] == b
  {
    var all := s[pos..pos + |a + b|];
    assert all[..|a|] == a && all[|a|..] == b;
    assert s[pos..pos + |a|] == all[..|a|] && s[pos + |a|..pos + |a| + |b|] == all[|a|..];
  }

  lemma WalkOne(s: seq<Byte>, pos: nat, data: seq<Byte>)
    requires ChunkAt(s, pos, data)
    ensures var end := pos + |FrameChunk(data)|;
            end == pos + 12 + Ceil(|data|) && Walk(s, pos, end) == Done([Found(Index(pos + 12, |data|), data)])
  {
    var end, size := pos + |FrameChunk(data)|, Big(|data|, 8);
    BigRead(|data|, 8);
    SubParts(s, pos, DSTF + size + data, Pad(data));
    SubParts(s, pos, DSTF + size, data);
    SubParts(s, pos, DSTF, size);
    assert Walk(s, end, end) == Done([]);
  }

  /** One more chunk behind what was walked. */
  lemma {:induction false} WalkMore(s: seq<Byte>, pos: nat, mid: nat, end: nat)
    requires pos <= mid <= end <= |s| && Walk(s, pos, mid).Done? && Walk(s, mid, end).Done?
    ensures Walk(s, pos, end) == Done(Walk(s, pos, mid).frames + Walk(s, mid, end).frames)
    decreases mid - pos
  {
    if pos == mid {
      assert [] + Walk(s, mid, end).frames == Walk(s, mid, end).frames;
    } else {
      var x, next := FoundAt(s, pos), NextAt(s, pos);
      WalkMore(s, next, mid, end);
      Assoc([x], Walk(s, next, mid).frames, Walk(s, mid, end).frames);
      assert ChunkFits(s, pos, end);
    }
  }

  lemma WalkAnother(s: seq<Byte>, pos: nat, mid: nat, found: seq<Found>, data: seq<Byte>, end: nat, all: seq<Found>)
    requires pos <= mid && ChunkAt(s, mid, data) && end == mid + |FrameChunk(data)| && Walk(s, pos, mid) == Done(found)
    requires all == found + [Found(Index(mid + 12, |data|), data)]
    ensures Walk(s, pos, end) == Done(all)
  {
    WalkOne(s, mid, data);
    WalkMore(s, pos, mid, end);
  }

  /** No frame is too long for a length in the index. */
  predicate Short(fs: Frames) { fs.None? || (|fs.last| < Pow256(4) && Short(fs.before)) }

  /** What a walk over the chunks from `pos` finds. */
  function FoundAll(fs: Frames, pos: nat): seq<Found> {
    if fs.None? then [] else FoundAll(fs.before, pos) + [Found(Index(pos + |Chunks(fs.before)| + 12, |fs.last|), fs.last)]
  }

  lemma {:induction false} FoundPlaces(fs: Frames, pos: nat)
    ensures |FoundAll(fs, pos)| == |Places(fs, pos)| == |Data(fs)| == Count(fs)
    ensures forall i :: 0 <= i < Count(fs) ==> FoundAll(fs, pos)[i] == Found(Places(fs, pos)[i], Data(fs)[i])
  {
    if fs.Then? { FoundPlaces(fs.before, pos); }
  }

  lemma FoundPlace(fs: Frames, pos: nat, i: nat)
    requires i < Count(fs)
    ensures |FoundAll(fs, pos)| == |Places(fs, pos)| == |Data(fs)| == Count(fs)
    ensures FoundAll(fs, pos)[i] == Found(Places(fs, pos)[i], Data(fs)[i])
  {
    FoundPlaces(fs, pos);
  }

  lemma {:induction false} WalkChunks(s: seq<Byte>, pos: nat, fs: Frames)
    requires At(s, pos, Chunks(fs)) && Short(fs)
    ensures Walk(s, pos, pos + |Chunks(fs)|) == Done(FoundAll(fs, pos))
  {
    match fs
    case None =>
    case Then(before, last) =>
      SubParts(s, pos, Chunks(before), FrameChunk(last));
      WalkChunks(s, pos, before);
      Pow256Values();
      WalkAnother(s, pos, pos + |Chunks(before)|, FoundAll(before, pos), last, pos + |Chunks(fs)|, FoundAll(fs, pos));
  }

  lemma Pow256Values()
    ensures Pow256(4) == 0x1_0000_0000 && Pow256(8) == 0x1_0000_0000_0000_0000
  {
    assert Pow256(4) == 0x1_0000_0000;
  }

  /** The i-th entry of the index at `pos`. */
  function EntryAt(s: seq<Byte>, pos: nat, i: nat): Index
    requires pos + 12 * i + 12 <= |s|
  {
    Index(FromBig(s[pos + 12 * i..pos + 12 * i + 8]), FromBig(s[pos + 12 * i + 8..pos + 12 * i + 12]))
  }

  lemma {:induction false} EntriesLength(xs: seq<Index>)
    ensures |Entries(xs)| == 12 * |xs|
    decreases |xs|
  {
    if xs != [] { EntriesLength(xs[..|xs| - 1]); }
  }

  lemma {:induction false} EntryRead(xs: seq<Index>, i: nat)
    requires i < |xs| && xs[i].offset < Pow256(8) && xs[i].length < Pow256(4)
    ensures |Entries(xs)| == 12 * |xs| && EntryAt(Entries(xs), 0, i) == xs[i]
    decreases |xs|
  {
    var before, last, all := xs[..|xs| - 1], xs[|xs| - 1], Entries(xs);
    EntriesLength(xs);
    EntriesLength(before);
    if i < |xs| - 1 {
      EntryRead(before, i);
      assert all[12 * i..12 * i + 8] == Entries(before)[12 * i..12 * i + 8] && all[12 * i + 8..12 * i + 12] == Entries(before)[12 * i + 8..12 * i + 12];
    } else {
      BigRead(last.offset, 8);
      BigRead(last.length, 4);
      assert all[12 * i..12 * i + 8] == Big(last.offset, 8) && all[12 * i + 8..12 * i + 12] == Big(last.length, 4);
    }
  }

  // ----- what a reader of the closed file finds -----

  /** A file in its three parts. */
  ghost predicate Parts(s: seq<Byte>, header: seq<Byte>, chunks: seq<Byte>, footer: seq<Byte>) {
    && |s| == |header| + |chunks| + |footer|
    && s[..|header|] == header && s[|header|..|header| + |chunks|] == chunks && s[|header| + |chunks|..] == footer
  }

  lemma PartsOf(header: seq<Byte>, chunks: seq<Byte>, footer: seq<Byte>)
    ensures Parts(header + chunks + footer, header, chunks, footer)
  {
  }

  lemma {:induction false} PlacesBound(fs: Frames, pos: nat, i: nat)
    requires i < Count(fs) && Short(fs)
    ensures |Places(fs, pos)| == Count(fs)
    ensures Places(fs, pos)[i].offset <= pos + |Chunks(fs)| && Places(fs, pos)[i].length < Pow256(4)
  {
    FoundPlaces(fs, pos);
    if i < Count(fs) - 1 { PlacesBound(fs.before, pos, i); }
  }

  lemma FooterSize(xs: seq<Index>, tail: seq<Byte>)
    requires xs != []
    ensures |Footer(true, xs, tail)| == 12 + 12 * |xs| + |tail|
  {
    EntriesLength(xs);
  }

  lemma FooterEntry(xs: seq<Index>, tail: seq<Byte>, i: nat)
    requires i < |xs| && xs[i].offset < Pow256(8) && xs[i].length < Pow256(4) && 12 * |xs| < Pow256(8)
    ensures var f := Footer(true, xs, tail);
            |f| == 12 + 12 * |xs| + |tail| && f[..4] == DSTI && FromBig(f[4..12]) == 12 * |xs| && EntryAt(f, 12, i) == xs[i]
  {
    var size, entries, f := Big(12 * |xs|, 8), Entries(xs), Footer(true, xs, tail);
    EntryRead(xs, i);
    BigRead(12 * |xs|, 8);
    assert f == DSTI + size + entries + tail;
    SubParts(f, 0, DSTI + size + entries, tail);
    SubParts(f, 0, DSTI + size, entries);
    SubParts(f, 0, DSTI, size);
    PartSlice(f, 12, entries, 12 * i, 12 * i + 8);
    PartSlice(f, 12, entries, 12 * i + 8, 12 * i + 12);
  }

  lemma PartSlice(s: seq<Byte>, pos: nat, part: seq<Byte>, a: nat, b: nat)
    requires At(s, pos, part) && a <= b <= |part|
    ensures s[pos + a..pos + b] == part[a..b]
  {
    forall k | 0 <= k < b - a ensures s[pos + a..pos + b][k] == part[a..b][k] {
      assert s[pos..pos + |part|][a + k] == part[a + k];
    }
  }

  lemma TailSlice(s: seq<Byte>, start: nat, a: nat, b: nat)
    requires a <= b && start + b <= |s|
    ensures s[start..][a..b] == s[start + a..start + b]
  {
  }

  lemma EntryShifted(s: seq<Byte>, start: nat, footer: seq<Byte>, i: nat)
    requires start <= |s| && s[start..] == footer && 24 + 12 * i <= |footer|
    ensures EntryAt(s, start + 12, i) == EntryAt(footer, 12, i)
    ensures s[start..start + 4] == footer[..4] && s[start + 4..start + 12] == footer[4..12]
  {
    var at := 12 + 12 * i;
    TailSlice(s, start, at, at + 8);
    TailSlice(s, start, at + 8, at + 12);
    TailSlice(s, start, 0, 4);
    TailSlice(s, start, 4, 12);
  }

  /** What a walk finds is what stands in the file. */
  lemma {:induction false} FoundData(s: seq<Byte>, pos: nat, end: nat, i: nat)
    requires pos <= end <= |s| && Walk(s, pos, end).Done? && i < |Walk(s, pos, end).frames|
    ensures var x := Walk(s, pos, end).frames[i];
            x.index.offset + x.index.length <= end && s[x.index.offset..x.index.offset + x.index.length] == x.data
    decreases end - pos
  {
    if i > 0 { FoundData(s, NextAt(s, pos), end, i - 1); }
  }

  /** The index chunk stands at `start` and has the places `xs`. */
  lemma IndexStands(s: seq<Byte>, start: nat, xs: seq<Index>, footer: seq<Byte>, tail: seq<Byte>, i: nat)
    requires start <= |s| < Pow256(8) && s[start..] == footer && footer == Footer(true, xs, tail)
    requires i < |xs| && xs[i].offset <= start && xs[i].length < Pow256(4)
    ensures start + 12 + 12 * |xs| <= |s|
    ensures s[start..start + 4] == DSTI && FromBig(s[start + 4..start + 12]) == 12 * |xs| && EntryAt(s, start + 12, i) == xs[i]
  {
    FooterSize(xs, tail);
    FooterEntry(xs, tail, i);
    EntryShifted(s, start, footer, i);
  }

  /** What stands where `x` says. */
  ghost predicate Stands(s: seq<Byte>, x: Found) {
    x.index.offset + x.index.length <= |s| && s[x.index.offset..x.index.offset + x.index.length] == x.data
  }

  /** The chunk walk finds exactly the frames; the index, read from the file, says of each where the
      walk finds it; and there it stands. */
  ghost predicate Agrees(s: seq<Byte>, h: nat, n: nat, data: seq<seq<Byte>>, frames: seq<Found>, i: nat) {
    && |frames| == |data| && i < |data| && h + n + 12 + 12 * |data| <= |s| && Walk(s, h, h + n) == Done(frames)
    && EntryAt(s, h + n + 12, i) == frames[i].index && frames[i].data == data[i] && Stands(s, frames[i])
  }

  lemma FoundStands(s: seq<Byte>, pos: nat, end: nat, frames: seq<Found>, i: nat)
    requires pos <= end <= |s| && Walk(s, pos, end) == Done(frames) && i < |frames|
    ensures Stands(s, frames[i])
  {
    FoundData(s, pos, end, i);
  }

  lemma AgreesFrom(s: seq<Byte>, h: nat, n: nat, data: seq<seq<Byte>>, frames: seq<Found>, xs: seq<Index>, footer: seq<Byte>, tail: seq<Byte>, i: nat)
    requires h + n <= |s| < Pow256(8) && s[h + n..] == footer && footer == Footer(true, xs, tail)
    requires Walk(s, h, h + n) == Done(frames)
    requires |frames| == |xs| == |data| && i < |data| && frames[i] == Found(xs[i], data[i])
    requires xs[i].offset <= h + n && xs[i].length < Pow256(4)
    ensures Agrees(s, h, n, data, frames, i)
  {
    IndexStands(s, h + n, xs, footer, tail, i);
    FoundStands(s, h, h + n, frames, i);
  }

  lemma IndexAgrees(s: seq<Byte>, header: seq<Byte>, fs: Frames, footer: seq<Byte>, tail: seq<Byte>, i: nat)
    requires Parts(s, header, Chunks(fs), footer) && footer == Footer(true, Places(fs, |header|), tail)
    requires Short(fs) && i < Count(fs) && |s| < Pow256(8)
    ensures Agrees(s, |header|, |Chunks(fs)|, Data(fs), FoundAll(fs, |header|), i)
  {
    var h, n, frames, xs := |header|, |Chunks(fs)|, FoundAll(fs, |header|), Places(fs, |header|);
    WalkChunks(s, h, fs);
    PlacesBound(fs, h, i);
    FoundPlace(fs, h, i);
    AgreesFrom(s, h, n, Data(fs), frames, xs, footer, tail, i);
  }

  /** The same of the file that a run of the writer leaves. */
  lemma ClosedIndexAgrees(fs: Frames, fixed: seq<Byte>, first: seq<Byte>, tail: seq<Byte>, i: nat)
    requires Short(fs) && i < Count(fs)
    ensures var d, h := WriteFrames(Create(true, fixed, first), true, fs), HeaderSize(true, fixed);
            && |d.file| >= h
            && var s := Close(d, true, fixed, tail).file;
               |s| < Pow256(8) ==> Agrees(s, h, |Chunks(fs)|, Data(fs), FoundAll(fs, h), i)
  {
    var d, h, n := WriteFrames(Create(true, fixed, first), true, fs), HeaderSize(true, fixed), |Chunks(fs)|;
    var footer := Footer(true, Places(fs, h), tail);
    ClosedFile(fs, fixed, first, tail);
    HeaderLength(true, fixed, Count(fs), n, |footer|);
    var s, header := Close(d, true, fixed, tail).file, Header(true, fixed, Count(fs), n, |footer|);
    PartsOf(header, Chunks(fs), footer);
    if |s| < Pow256(8) { IndexAgrees(s, header, fs, footer, tail, i); }
  }

  // ----- sizes -----

  lemma AtFront(s: seq<Byte>, pos: nat, a: seq<Byte>, b: seq<Byte>)
    requires At(s, pos, a + b)
    ensures At(s, pos, a) && At(s, pos + |a|, b)
  {
    SubParts(s, pos, a, b);
  }

  lemma AtNumber(s: seq<Byte>, pos: nat, v: nat, n: nat)
    requires At(s, pos, Big(v, n)) && v < Pow256(n)
    ensures pos + n <= |s| && FromBig(s[pos..pos + n]) == v
  {
    BigRead(v, n);
  }

  lemma AtChunkHeader(s: seq<Byte>, pos: nat, id: seq<Byte>, size: nat)
    requires At(s, pos, ChunkHeader(id, size)) && |id| == 4 && size < Pow256(8)
    ensures pos + 12 <= |s| && s[pos..pos + 4] == id && FromBig(s[pos + 4..pos + 12]) == size
  {
    AtFront(s, pos, id, Big(size, 8));
    AtNumber(s, pos + 4, size, 8);
  }

  /** The sound data chunk's header at `pos`. */
  lemma SoundSizes(s: seq<Byte>, pos: nat, frameCount: nat, n: nat)
    requires At(s, pos, SoundHeader(true, frameCount, n)) && n % 2 == 0 && n + 18 < Pow256(8) && frameCount < Pow256(4)
    ensures pos + 30 <= |s| && s[pos..pos + 4] == DST && FromBig(s[pos + 4..pos + 12]) == n + 18
    ensures s[pos + 12..pos + 16] == FRTE && FromBig(s[pos + 16..pos + 24]) == 6
    ensures FromBig(s[pos + 24..pos + 28]) == frameCount && FromBig(s[pos + 28..pos + 30]) == 75
  {
    var dst, frte, count := ChunkHeader(DST, Ceil(n + 18)), ChunkHeader(FRTE, 6), Big(frameCount, 4);
    AtFront(s, pos, dst + frte + count, Big(75, 2));
    AtFront(s, pos, dst + frte, count);
    AtFront(s, pos, dst, frte);
    AtChunkHeader(s, pos, DST, n + 18);
    AtChunkHeader(s, pos + 12, FRTE, 6);
    AtNumber(s, pos + 24, frameCount, 4);
    AtNumber(s, pos + 28, 75, 2);
  }

  lemma HeaderAt(s: seq<Byte>, fixed: seq<Byte>, form: seq<Byte>, sound: seq<Byte>)
    requires |form| == 12 && At(s, 0, form + DSD + fixed + sound)
    ensures At(s, 0, form) && At(s, 12, DSD) && At(s, 16, fixed) && At(s, 16 + |fixed|, sound)
  {
    AtFront(s, 0, form + DSD + fixed, sound);
    AtFront(s, 0, form + DSD, fixed);
    AtFront(s, 0, form, DSD);
  }

  /** The parts of the header, when all sizes are even. */
  lemma HeaderIs(fixed: seq<Byte>, frameCount: nat, n: nat, footerSize: nat, size: nat)
    requires size == HeaderSize(true, fixed) + footerSize + n - 12 && size % 2 == 0
    ensures Header(true, fixed, frameCount, n, footerSize) == ChunkHeader(FRM8, size) + DSD + fixed + SoundHeader(true, frameCount, n)
  {
  }

  /** The form chunk is the file less the chunk header, of type DSD. */
  ghost predicate FormSized(s: seq<Byte>, fixed: seq<Byte>) {
    |s| >= 16 + |fixed| && s[..4] == FRM8 && FromBig(s[4..12]) == |s| - 12 && s[12..16] == DSD && s[16..16 + |fixed|] == fixed
  }

  /** The sizes in the header: the form, the sound data chunk, which ends where the frames end, and the
      frame information chunk in it, with the number of frames and how many are played a second. */
  ghost predicate Sized(s: seq<Byte>, fixed: seq<Byte>, frameCount: nat, n: nat) {
    var p := 16 + |fixed|;
    && FormSized(s, fixed) && |s| >= p + 30
    && s[p..p + 4] == DST && FromBig(s[p + 4..p + 12]) == n + 18
    && s[p + 12..p + 16] == FRTE && FromBig(s[p + 16..p + 24]) == 6
    && FromBig(s[p + 24..p + 28]) == frameCount && FromBig(s[p + 28..p + 30]) == 75
  }

  lemma SizesIn(s: seq<Byte>, header: seq<Byte>, fixed: seq<Byte>, frameCount: nat, sound: seq<Byte>, n: nat)
    requires 12 <= |s| < Pow256(8) && At(s, 0, header) && header == ChunkHeader(FRM8, |s| - 12) + DSD + fixed + sound
    requires sound == SoundHeader(true, frameCount, n) && n % 2 == 0 && n + 18 < Pow256(8) && frameCount < Pow256(4)
    ensures Sized(s, fixed, frameCount, n)
  {
    HeaderAt(s, fixed, ChunkHeader(FRM8, |s| - 12), sound);
    AtChunkHeader(s, 0, FRM8, |s| - 12);
    SoundSizes(s, 16 + |fixed|, frameCount, n);
  }

  lemma SizesAgree(s: seq<Byte>, header: seq<Byte>, fixed: seq<Byte>, frameCount: nat, chunks: seq<Byte>, footer: seq<Byte>)
    requires Parts(s, header, chunks, footer) && header == Header(true, fixed, frameCount, |chunks|, |footer|)
    requires |fixed| % 2 == 0 && |chunks| % 2 == 0 && |footer| % 2 == 0 && frameCount < Pow256(4) && |s| < Pow256(8)
    ensures Sized(s, fixed, frameCount, |chunks|)
  {
    HeaderLength(true, fixed, frameCount, |chunks|, |footer|);
    HeaderIs(fixed, frameCount, |chunks|, |footer|, |s| - 12);
    SizesIn(s, header, fixed, frameCount, SoundHeader(true, frameCount, |chunks|), |chunks|);
  }

  lemma FooterEven(xs: seq<Index>, tail: seq<Byte>)
    requires |tail| % 2 == 0
    ensures |Footer(true, xs, tail)| % 2 == 0
  {
    if xs != [] { FooterSize(xs, tail); }
  }

  /** The same of the file that a run of the writer leaves. */
  lemma ClosedSizesAgree(fs: Frames, fixed: seq<Byte>, first: seq<Byte>, tail: seq<Byte>)
    requires |fixed| % 2 == 0 && |tail| % 2 == 0 && Count(fs) < Pow256(4)
    ensures var d, h := WriteFrames(Create(true, fixed, first), true, fs), HeaderSize(true, fixed);
            && |d.file| >= h
            && var s := Close(d, true, fixed, tail).file; |s| < Pow256(8) ==> Sized(s, fixed, Count(fs), |Chunks(fs)|)
  {
    var d, h, chunks := WriteFrames(Create(true, fixed, first), true, fs), HeaderSize(true, fixed), Chunks(fs);
    var footer := Footer(true, Places(fs, h), tail);
    ClosedFile(fs, fixed, first, tail);
    ChunksEven(fs);
    FooterEven(Places(fs, h), tail);
    var s, header := Close(d, true, fixed, tail).file, Header(true, fixed, Count(fs), |chunks|, |footer|);
    PartsOf(header, chunks, footer);
    if |s| < Pow256(8) { SizesAgree(s, header, fixed, Count(fs), chunks, footer); }
  }

  /** What a reader finds in a file without DST: the sizes, the frames' data where the sound data chunk
      says, its pad byte, and the tail behind it. */
  ghost predicate DsdSized(s: seq<Byte>, fixed: seq<Byte>, sound: seq<Byte>, tail: seq<Byte>) {
    var p := 16 + |fixed|;
    var end := p + 12 + |sound| + |sound| % 2;
    && FormSized(s, fixed) && end <= |s|
    && s[p..p + 4] == DSD && FromBig(s[p + 4..p + 12]) == |sound| + |sound| % 2
    && s[p + 12..p + 12 + |sound|] == sound && (|sound| % 2 == 1 ==> s[end - 1] == 0)
    && s[end..] == tail
  }

  lemma DsdHeaderIn(s: seq<Byte>, header: seq<Byte>, fixed: seq<Byte>, n: nat)
    requires 12 <= |s| < Pow256(8) && n < Pow256(8) && At(s, 0, header)
    requires header == ChunkHeader(FRM8, |s| - 12) + DSD + fixed + ChunkHeader(DSD, n)
    ensures var p := 16 + |fixed|; FormSized(s, fixed) && |s| >= p + 12 && s[p..p + 4] == DSD && FromBig(s[p + 4..p + 12]) == n
  {
    HeaderAt(s, fixed, ChunkHeader(FRM8, |s| - 12), ChunkHeader(DSD, n));
    AtChunkHeader(s, 0, FRM8, |s| - 12);
    AtChunkHeader(s, 16 + |fixed|, DSD, n);
  }

  lemma DsdDataIn(s: seq<Byte>, at: nat, sound: seq<Byte>)
    requires At(s, at, sound + SoundPad(sound))
    ensures var end := at + |sound| + |sound| % 2;
            end <= |s| && s[at..at + |sound|] == sound && (|sound| % 2 == 1 ==> s[end - 1] == 0)
  {
    var pad, from := SoundPad(sound), at + |sound|;
    AtFront(s, at, sound, pad);
    if |sound| % 2 == 1 {
      assert |pad| == 1 && pad[0] == 0;
      assert s[from..from + |pad|][0] == s[from];
    }
  }

  lemma DsdSizesIn(s: seq<Byte>, header: seq<Byte>, fixed: seq<Byte>, sound: seq<Byte>, tail: seq<Byte>)
    requires Parts(s, header, sound + SoundPad(sound), tail) && |header| == 16 + |fixed| + 12 && |s| < Pow256(8)
    requires header == ChunkHeader(FRM8, |s| - 12) + DSD + fixed + ChunkHeader(DSD, |sound| + |sound| % 2)
    ensures DsdSized(s, fixed, sound, tail)
  {
    DsdHeaderIn(s, header, fixed, |sound| + |sound| % 2);
    DsdDataIn(s, |header|, sound);
  }

  lemma DsdFileAgrees(s: seq<Byte>, fixed: seq<Byte>, frameCount: nat, sound: seq<Byte>, tail: seq<Byte>)
    requires |fixed| % 2 == 0 && |tail| % 2 == 0 && |s| < Pow256(8)
    requires var data := sound + SoundPad(sound); s == Header(false, fixed, frameCount, |data|, |tail|) + data + tail
    ensures DsdSized(s, fixed, sound, tail)
  {
    var data := sound + SoundPad(sound);
    var header := Header(false, fixed, frameCount, |data|, |tail|);
    HeaderLength(false, fixed, frameCount, |data|, |tail|);
    DsdHeaderIs(fixed, frameCount, |data|, |tail|, |s| - 12);
    PartsOf(header, data, tail);
    DsdSizesIn(s, header, fixed, sound, tail);
  }

  /** So it is in the file that a run of the writer leaves. */
  lemma DsdClosedAgrees(fs: Frames, fixed: seq<Byte>, first: seq<Byte>, tail: seq<Byte>)
    requires |fixed| % 2 == 0 && |tail| % 2 == 0
    ensures var d := WriteFrames(Create(false, fixed, first), false, fs);
            && |d.file| >= HeaderSize(false, fixed)
            && var s := Close(d, false, fixed, tail).file; |s| < Pow256(8) ==> DsdSized(s, fixed, Sound(fs), tail)
  {
    DsdClosedFile(fs, fixed, first, tail);
    var s := Close(WriteFrames(Create(false, fixed, first), false, fs), false, fixed, tail).file;
    if |s| < Pow256(8) { DsdFileAgrees(s, fixed, Count(fs), Sound(fs), tail); }
  }

  lemma DsdHeaderIs(fixed: seq<Byte>, frameCount: nat, n: nat, footerSize: nat, size: nat)
    requires size == HeaderSize(false, fixed) + footerSize + n - 12 && size % 2 == 0 && n % 2 == 0
    ensures Header(false, fixed, frameCount, n, footerSize) == ChunkHeader(FRM8, size) + DSD + fixed + ChunkHeader(DSD, n)
  {
  }
}
