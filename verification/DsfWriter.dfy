/** The loops of libs/libsacd/dsf.c on the channels' buffers, against the functions of Dsf. */
module DsfWriter {
  import opened Arithmetic
  import opened Bits
  import opened Reblocking
  import opened BitReverse
  import opened Dsf

  /** MAX_CHANNEL_COUNT */
  const CHANNELS: nat := 6

  /** A row of bytes for each channel, and how much of each is in use: `buffer` and `buffer_ptr` of
      a handle (a null pointer is an empty row), or the `buffer_prev` and `buffer_ptr_prev` that
      carry what is left to the next track.  Behind what is in use the rows are 0. */
  class Buffers {
    const rows: array2<Byte>
    const fill: array<nat>

    constructor ()
      ensures Valid() && fresh(rows) && fresh(fill)
      ensures forall i :: 0 <= i < CHANNELS ==> Buf(i) == []
    {
      rows := new Byte[CHANNELS, BLOCK]((i, k) => 0);
      fill := new nat[CHANNELS](i => 0);
    }

    ghost predicate Valid()
      reads rows, fill
    {
      && rows.Length0 == fill.Length == CHANNELS && rows.Length1 == BLOCK
      && (forall i :: 0 <= i < CHANNELS ==> fill[i] <= BLOCK)
      && forall i, k :: 0 <= i < CHANNELS && fill[i] <= k < BLOCK ==> rows[i, k] == 0
    }

    /** What channel i holds. */
    ghost function Buf(i: nat): seq<Byte>
      requires Valid() && i < CHANNELS
      reads rows, fill
    {
      seq(fill[i], k requires Valid() && 0 <= k < fill[i] reads rows, fill => rows[i, k])
    }

    ghost function Bufs(n: nat): seq<seq<Byte>>
      requires Valid() && n <= CHANNELS
      reads rows, fill
    {
      seq(n, i requires 0 <= i < n && Valid() reads rows, fill => Buf(i))
    }

    /** *buffer_ptr[i]++ = b */
    method Store(i: nat, b: Byte)
      requires Valid() && i < CHANNELS && fill[i] < BLOCK
      modifies rows, fill
      ensures Valid() && Buf(i) == old(Buf(i)) + [b]
      ensures forall j :: 0 <= j < CHANNELS && j != i ==> Buf(j) == old(Buf(j))
    {
      rows[i, fill[i]] := b;
      fill[i] := fill[i] + 1;
    }

    /** The whole row of channel i, which is then cleared. */
    method TakeBlock(i: nat) returns (block: seq<Byte>)
      requires Valid() && i < CHANNELS
      modifies rows, fill
      ensures Valid() && block == Block(old(Buf(i))) && Buf(i) == []
      ensures forall j :: 0 <= j < CHANNELS && j != i ==> Buf(j) == old(Buf(j))
    {
      block := seq(BLOCK, k requires 0 <= k < BLOCK reads rows => rows[i, k]);
      assert block == Block(Buf(i));
      fill[i] := 0;
      forall k | 0 <= k < BLOCK { rows[i, k] := 0; }
    }

    /** Takes over everything from other buffers. */
    method CopyFrom(other: Buffers)
      requires rows.Length0 == fill.Length == CHANNELS && rows.Length1 == BLOCK && other.Valid()
      requires other.rows != rows && other.fill != fill
      modifies rows, fill
      ensures Valid() && forall i :: 0 <= i < CHANNELS ==> Buf(i) == other.Buf(i)
    {
      for i := 0 to CHANNELS
        invariant forall j :: 0 <= j < i ==> fill[j] == other.fill[j]
        invariant forall j, k :: 0 <= j < i && 0 <= k < BLOCK ==> rows[j, k] == other.rows[j, k]
      {
        forall k | 0 <= k < BLOCK { rows[i, k] := other.rows[i, k]; }
        fill[i] := other.fill[i];
      }
      assert Valid();
      forall i | 0 <= i < CHANNELS ensures Buf(i) == other.Buf(i) {}
    }
  }

  class DsfHandle {
    const channelCount: nat
    const buffers: Buffers
    var file: seq<seq<Byte>>
    var sampleCount: nat
    var audioDataSize: nat

    ghost predicate Valid()
      reads this, buffers, buffers.rows, buffers.fill
    {
      1 <= channelCount <= CHANNELS && buffers.Valid()
    }

    /** The track as the functions of Dsf see it. */
    ghost function View(): Track
      requires Valid()
      reads this, buffers, buffers.rows, buffers.fill
    {
      Track(buffers.Bufs(channelCount), file, sampleCount, audioDataSize)
    }

    /** dsf_create */
    constructor (channelCount: nat, track: nat, nopad: bool, previous: Buffers)
      requires 1 <= channelCount <= CHANNELS && previous.Valid()
      ensures Valid() && this.channelCount == channelCount && fresh(buffers) && fresh(buffers.rows) && fresh(buffers.fill)
      ensures View() == Create(if track > 0 && nopad then previous.Bufs(channelCount) else Empty(channelCount))
    {
      this.channelCount, file, sampleCount, audioDataSize := channelCount, [], 0, 0;
      var b := new Buffers();
      buffers := b;
      new;
      if track > 0 && nopad {
        buffers.CopyFrom(previous);
        assert buffers.Bufs(channelCount) == previous.Bufs(channelCount);
      } else {
        assert buffers.Bufs(channelCount) == Empty(channelCount);
      }
    }

    /** The round that began with the track `t` is through with the first i channels; `stores` says
        whether it takes a byte a channel from `bytes` or writes blocks. */
    ghost predicate Within(t: Track, i: nat, stores: bool, bytes: seq<Byte>)
      requires Valid() && i <= channelCount == |t.bufs| <= |bytes| && Level(t, channelCount)
      reads this, buffers, buffers.rows, buffers.fill
    {
      && (forall j :: 0 <= j < i ==> buffers.Buf(j) == if stores then t.bufs[j] + [Reverse(bytes[j])] else [])
      && (forall j :: i <= j < channelCount ==> buffers.Buf(j) == t.bufs[j])
      && file == (if stores then t.file else t.file + Blocks(t.bufs[..i]))
      && sampleCount == t.sampleCount + (if stores then 0 else Times(|t.bufs[0]|, i))
      && audioDataSize == t.audioDataSize + (if stores then 0 else Times(BLOCK, i))
    }

    /** The body of the loop over the channels, at a channel that still has room. */
    method StoreByte(i: nat, b: Byte, ghost t: Track, ghost bytes: seq<Byte>)
      requires Valid() && i < channelCount == |t.bufs| <= |bytes| && Level(t, channelCount) && Within(t, i, true, bytes)
      requires |t.bufs[0]| < BLOCK && b == bytes[i]
      modifies buffers.rows, buffers.fill
      ensures Valid() && Within(t, i + 1, true, bytes)
    {
      assert |buffers.Buf(i)| == |t.bufs[i]|;
      buffers.Store(i, Reverse(b));
    }

    /** The same at a channel whose block is written. */
    method WriteBlock(i: nat, ghost t: Track, ghost bytes: seq<Byte>)
      requires Valid() && i < channelCount == |t.bufs| <= |bytes| && Level(t, channelCount) && Within(t, i, false, bytes)
      modifies this`file, this`sampleCount, this`audioDataSize, buffers.rows, buffers.fill
      ensures Valid() && Within(t, i + 1, false, bytes)
    {
      assert buffers.fill[i] == |buffers.Buf(i)| == |t.bufs[0]|;
      sampleCount := sampleCount + buffers.fill[i];
      var block := buffers.TakeBlock(i);
      file := file + [block];
      audioDataSize := audioDataSize + BLOCK;
      assert Blocks(t.bufs[..i + 1]) == Blocks(t.bufs[..i]) + [Block(t.bufs[i])];
    }

    /** One round over the channels. */
    method Round(buf: seq<Byte>, pos: nat, limit: nat) returns (pos': nat)
      requires Valid() && Level(View(), channelCount) && pos + channelCount <= |buf| && limit <= BLOCK
      modifies this`file, this`sampleCount, this`audioDataSize, buffers.rows, buffers.fill
      ensures Valid()
      ensures if |old(View()).bufs[0]| < limit then View() == Push(old(View()), buf[pos..]) && pos' == pos + channelCount
              else View() == Flush(old(View()), channelCount) && pos' == pos
    {
      ghost var t, bytes := View(), buf[pos..];
      ghost var stores := |t.bufs[0]| < limit;
      pos' := pos;
      for i := 0 to channelCount
        invariant Valid() && Within(t, i, stores, bytes) && pos' == if stores then pos + i else pos
      {
        assert buffers.fill[i] == |buffers.Buf(i)| == |t.bufs[0]|;
        if buffers.fill[i] < limit {
          StoreByte(i, buf[pos'], t, bytes);
          pos' := pos' + 1;
        } else {
          WriteBlock(i, t, bytes);
        }
      }
      if stores {
        assert View().bufs == Push(t, bytes).bufs;
      } else {
        assert View().bufs == Empty(channelCount);
        assert t.bufs[..channelCount] == t.bufs;
      }
    }

    /** dsf_write_frame; it returns how much the file has grown. */
    method WriteFrame(buf: seq<Byte>) returns (written: nat)
      requires Valid() && Level(View(), channelCount) && IsRounds(buf, channelCount)
      modifies this`file, this`sampleCount, this`audioDataSize, buffers.rows, buffers.fill
      ensures Valid() && Level(View(), channelCount) && View() == Dsf.WriteFrame(old(View()), channelCount, buf)
      ensures audioDataSize == old(audioDataSize) + written
    {
      ghost var t := View();
      var rounds := |buf| / channelCount;
      RoundsLength(buf, channelCount);
      TimesCommutes(channelCount, Rounds(buf, channelCount));
      TimesDivided(Rounds(buf, channelCount), channelCount);
      var limit := if rounds < BLOCK then rounds else BLOCK;
      var pos, before := 0, audioDataSize;
      assert buf[0..] == buf;
      while pos < |buf|
        invariant pos <= |buf| && Valid() && Level(View(), channelCount) && IsRounds(buf[pos..], channelCount)
        invariant audioDataSize >= before
        invariant Write(t, channelCount, buf, limit) == Write(View(), channelCount, buf[pos..], limit)
        decreases |buf| - pos, |View().bufs[0]|
      {
        ghost var v, rest := View(), buf[pos..];
        if |v.bufs[0]| < limit { PushLevel(v, channelCount, rest); }
        pos := Round(buf, pos, limit);
        assert rest[channelCount..] == buf[(|buf| - |rest|) + channelCount..];
      }
      written := audioDataSize - before;
    }

    /** dsf_close: with `carry`, in a no-pad run that goes on, what is left is kept for the next
        track; else it is padded and written. */
    method Close(carry: bool, previous: Buffers)
      requires Valid() && Level(View(), channelCount) && previous.Valid()
      requires previous != buffers && previous.rows != buffers.rows && previous.fill != buffers.fill
      modifies this`file, this`sampleCount, this`audioDataSize, buffers.rows, buffers.fill, previous.rows, previous.fill
      ensures Valid() && previous.Valid()
      ensures if carry then View() == old(View()) && previous.Bufs(channelCount) == View().bufs
              else View() == CloseLast(old(View()), channelCount) && previous.Bufs(channelCount) == old(previous.Bufs(channelCount))
    {
      ghost var t := View();
      if carry {
        previous.CopyFrom(buffers);
        assert previous.Bufs(channelCount) == View().bufs;
      } else {
        for i := 0 to channelCount
          modifies this`file, this`sampleCount, this`audioDataSize, buffers.rows, buffers.fill
          invariant Valid() && Within(t, if |t.bufs[0]| > 0 then i else 0, false, Zeros(channelCount))
        {
          assert buffers.fill[i] == |buffers.Buf(i)| == |t.bufs[0]|;
          if buffers.fill[i] > 0 {
            WriteBlock(i, t, Zeros(channelCount));
          }
        }
        assert t.bufs[..channelCount] == t.bufs;
        if |t.bufs[0]| > 0 {
          assert View().bufs == Empty(channelCount);
        } else {
          assert t.file + Blocks(t.bufs[..0]) == t.file;
          assert View().bufs == t.bufs;
        }
      }
    }
  }
}
