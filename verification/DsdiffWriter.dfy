/** The methods of libs/libsacd/dsdiff.c on a handle, against the functions of Dsdiff. */
module DsdiffWriter {
  import opened Bits
  import opened Dsdiff

  class DsdiffHandle {
    const dst: bool                    // !dsd_encoded_export
    const fixed: seq<Byte>
    var file: seq<Byte>                // what fwrite and fseek make of the file
    var frameCount: nat
    var audioDataSize: nat
    var frameIndexes: array<Index>     // of frame_indexes_allocated entries

    ghost predicate Valid()
      reads this
    {
      |file| >= HeaderSize(dst, fixed) && (dst ==> frameCount <= frameIndexes.Length)
    }

    ghost function View(): Recording
      requires Valid()
      reads this, frameIndexes
    {
      Recording(file, frameCount, audioDataSize, if dst then frameIndexes[..frameCount] else [])
    }

    /** dsdiff_create */
    constructor (dst: bool, fixed: seq<Byte>, tail: seq<Byte>)
      ensures Valid() && this.dst == dst && this.fixed == fixed && View() == Create(dst, fixed, tail) && fresh(frameIndexes)
    {
      this.dst, this.fixed, frameCount, audioDataSize := dst, fixed, 0, 0;
      HeaderLength(dst, fixed, 0, 0, |tail|);
      file := Header(dst, fixed, 0, 0, |tail|);
      frameIndexes := new Index[0];
    }

    /** realloc of the index by 10000 entries. */
    method Grow()
      modifies `frameIndexes
      ensures fresh(frameIndexes) && frameIndexes.Length == old(frameIndexes.Length) + 10000
      ensures frameIndexes[..old(frameIndexes.Length)] == old(frameIndexes[..])
    {
      var from := frameIndexes;
      var more := new Index[from.Length + 10000](_ => Index(0, 0));
      for i := 0 to from.Length
        invariant frameIndexes == from && more[..i] == from[..i]
      {
        more[i] := from[i];
      }
      assert from[..from.Length] == from[..];
      frameIndexes := more;
    }

    /** dsdiff_write_frame */
    method WriteFrame(buf: seq<Byte>) returns (nrw: nat)
      requires Valid()
      modifies this, frameIndexes
      ensures Valid() && View() == Dsdiff.WriteFrame(old(View()), dst, buf)
      ensures audioDataSize == old(audioDataSize) + nrw && (frameIndexes == old(frameIndexes) || fresh(frameIndexes))
    {
      ghost var d := View();
      frameCount := frameCount + 1;
      if !dst {
        file := file + buf;
        nrw := |buf|;
      } else {
        if frameCount > frameIndexes.Length { Grow(); }
        assert frameIndexes[..frameCount - 1] == d.indexes;
        frameIndexes[frameCount - 1] := Index(|file| + 12, |buf|);
        var chunk := ChunkHeader(DSTF, |buf|);
        file := file + chunk;
        file := file + buf;
        nrw := |chunk| + |buf|;
        if |buf| % 2 == 1 {
          file := file + [0];
          nrw := nrw + 1;
        }
        assert file == d.file + FrameChunk(buf);
        assert frameIndexes[..frameCount] == d.indexes + [Index(|d.file| + 12, |buf|)];
      }
      audioDataSize := audioDataSize + nrw;
    }

    /** The index entries of calculate_header_and_footer. */
    method RenderEntries() returns (entries: seq<Byte>)
      requires Valid() && dst
      ensures entries == Entries(View().indexes)
    {
      entries := [];
      for frame := 0 to frameCount
        invariant entries == Entries(frameIndexes[..frame])
      {
        var xs := frameIndexes[..frame + 1];
        assert xs[..frame] == frameIndexes[..frame];
        entries := entries + Entry(frameIndexes[frame]);
      }
    }

    /** dsdiff_close */
    method Close(tail: seq<Byte>)
      requires Valid()
      modifies this
      ensures Valid() && View() == Dsdiff.Close(old(View()), dst, fixed, tail)
    {
      if audioDataSize % 2 == 1 {
        file := file + [0];
        audioDataSize := audioDataSize + 1;
      }
      ghost var p := View();
      var footer := [];
      if dst && frameCount > 0 {
        footer := RenderEntries();
        footer := ChunkHeader(DSTI, 12 * frameCount) + footer;
      }
      footer := footer + tail;
      assert footer == Footer(dst, p.indexes, tail);
      file := file + footer;
      var header := Header(dst, fixed, frameCount, audioDataSize, |footer|);
      HeaderLength(dst, fixed, frameCount, audioDataSize, |footer|);
      file := header + file[|header|..];
    }
  }
}
