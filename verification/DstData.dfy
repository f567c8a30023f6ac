/** The bit reader of libs/libdstdec/dst_data.c over the bytes of one DST frame. */
module DstData {
  import opened BitOps
  import opened Bits

  function Min(a: int, b: int): int { if a < b then a else b }

  /** A 32-bit int from the low bits of a long. */
  function ToInt32(v: int): int {
    var w := v % 0x1_0000_0000;
    if w >= 0x8000_0000 then w - 0x1_0000_0000 else w
  }

  /** The one number of 32 bits that differs by a multiple of 2^32. */
  lemma ToInt32Wraps(v: int)
    ensures -0x8000_0000 <= ToInt32(v) < 0x8000_0000 && (v - ToInt32(v)) % 0x1_0000_0000 == 0
  {
  }

  function ToInt16(v: int): int {
    var w := v % 0x1_0000;
    if w >= 0x8000 then w - 0x1_0000 else w
  }

  /** The meaning of the reader's state: the `inByte` low bits of the byte before `next`, then all
      bytes from `next` on. */
  function Unread(data: seq<Byte>, next: nat, inByte: nat): BitList
    requires inByte > 0 ==> 1 <= next <= |data|
    decreases |data| - next, inByte
  {
    if inByte > 0 then Cons(ShiftRight(data[next - 1], inByte - 1) % 2, Unread(data, next, inByte - 1))
    else if next < |data| then Unread(data, next + 1, 8)
    else Nil
  }

  /** All bits of a frame. */
  function AllBits(data: seq<Byte>): BitList { Unread(data, 0, 0) }

  lemma {:induction false} UnreadLength(data: seq<Byte>, next: nat, inByte: nat)
    requires next <= |data| && (inByte > 0 ==> 1 <= next)
    ensures Length(Unread(data, next, inByte)) == 8 * (|data| - next) + inByte
    decreases |data| - next, inByte
  {
    if inByte > 0 { UnreadLength(data, next, inByte - 1); }
    else if next < |data| { UnreadLength(data, next + 1, 8); }
  }

  lemma {:induction false} ShiftRightOnce(v: int, n: nat)
    ensures ShiftRight(v, n) / 2 == ShiftRight(v, n + 1)
    decreases n
  {
    if n > 0 { ShiftRightOnce(v / 2, n - 1); }
  }

  /** The next `count` bits of a byte: shift out what follows them, then mask. */
  lemma {:induction false} ChunkTaken(data: seq<Byte>, next: nat, inByte: nat, count: nat, acc: nat)
    requires 1 <= next <= |data| && count <= inByte
    ensures Take(Unread(data, next, inByte), count, acc)
         == Ok(ShiftLeft(acc, count) + LowBits(ShiftRight(data[next - 1], inByte - count), count), Unread(data, next, inByte - count))
  {
    if count > 0 {
      ChunkTaken(data, next, inByte, count - 1, acc);
      TakeSplit(Unread(data, next, inByte), count - 1, 1, acc);
      ShiftRightOnce(data[next - 1], inByte - count);
    }
  }

  lemma {:induction false} ShiftLeftRight(v: nat, n: nat)
    ensures ShiftRight(ShiftLeft(v, n), n) == v
  {
    if n > 0 { ShiftLeftRight(v, n - 1); }
  }

  const MASKS: seq<nat> := [0, 1, 3, 7, 0xf, 0x1f, 0x3f, 0x7f, 0xff]

  lemma MasksOnes(n: nat)
    requires n <= 8
    ensures MASKS[n] == Ones(n)
  {
    Pow2Values();
  }

  /** The word with the next bits of a byte: masked, they keep their place `at` in the byte, and then
      move to their place `left` in the word. */
  function Joined(word: nat, b: Byte, thisBits: nat, at: nat, left: nat): nat
    requires thisBits <= 8
  {
    var masked := And(b, ShiftLeft(MASKS[thisBits], at));
    Or(word, if left <= at then ShiftRight(masked, at - left) else ShiftLeft(masked, left - at))
  }

  lemma JoinedAdds(v: nat, b: Byte, thisBits: nat, at: nat, left: nat)
    requires thisBits <= 8 && (at == 0 || left == 0)
    ensures Joined(ShiftLeft(v, left + thisBits), b, thisBits, at, left)
         == ShiftLeft(v, left + thisBits) + ShiftLeft(LowBits(ShiftRight(b, at), thisBits), left)
  {
    var chunk := LowBits(ShiftRight(b, at), thisBits);
    MasksOnes(thisBits);
    AndMask(b, thisBits, at);
    ShiftLeftRight(chunk, at);
    LowBitsBound(ShiftRight(b, at), thisBits);
    OrBelow(v, left + thisBits, chunk, thisBits, left);
  }

  /** The word so far: `done` bits have been taken, and are moved up by the `left` bits still to come. */
  ghost predicate Partial(bits: BitList, done: nat, left: nat, word: nat, rest: BitList) {
    var r := Take(bits, done, 0);
    r.Ok? && r.rest == rest && word == ShiftLeft(r.value, left)
  }

  /** One turn of the loop of `getbits`: the next `count` bits of a byte join the word. */
  lemma Accumulate(bits: BitList, done: nat, data: seq<Byte>, next: nat, inByte: nat, count: nat, left: nat, word: nat, chunk: nat)
    requires 1 <= next <= |data| && count <= inByte && count <= left
    requires Partial(bits, done, left, word, Unread(data, next, inByte))
    requires chunk == LowBits(ShiftRight(data[next - 1], inByte - count), count)
    ensures Partial(bits, done + count, left - count, word + ShiftLeft(chunk, left - count), Unread(data, next, inByte - count))
  {
    var acc := Take(bits, done, 0).value;
    ChunkTaken(data, next, inByte, count, acc);
    TakeSplit(bits, done, count, 0);
    ShiftLeftAdd(ShiftLeft(acc, count), chunk, left - count);
    ShiftLeftTwice(acc, count, left - count);
  }

  lemma ChunkJoins(bits: BitList, done: nat, data: seq<Byte>, next: nat, inByte: nat, count: nat, left: nat, word: nat)
    requires 1 <= next <= |data| && count <= inByte <= 8 && count <= left && (count == inByte || count == left)
    requires Partial(bits, done, left, word, Unread(data, next, inByte))
    ensures Partial(bits, done + count, left - count, Joined(word, data[next - 1], count, inByte - count, left - count),
                    Unread(data, next, inByte - count))
  {
    var b := data[next - 1];
    Accumulate(bits, done, data, next, inByte, count, left, word, LowBits(ShiftRight(b, inByte - count), count));
    JoinedAdds(Take(bits, done, 0).value, b, count, inByte - count, left - count);
  }

  /** What FIO_BitGetShortSigned makes of the word it read. */
  function ShortOf(word: nat, len: nat): int
    requires len >= 1
  {
    var x := ToInt16(word);
    if x >= Pow2(len - 1) then x - Pow2(len) else x
  }

  lemma Int16Word(word: nat)
    requires word < 0x1_0000
    ensures ToInt16(word) == if word >= 0x8000 then word - 0x1_0000 else word
  {
  }

  lemma ShortValue(word: nat, len: nat)
    requires 1 <= len <= 16 && word < Pow2(len)
    ensures ShortOf(word, len) == Signed(word, len)
  {
    var half, all := Pow2(len - 1), Pow2(len);
    assert all == 2 * half && all <= 0x1_0000 && (len < 16 ==> all <= 0x8000) && (len == 16 ==> all == 0x1_0000) by {
      Pow2Values();
      Pow2Monotone(len, 16);
      if len < 16 { Pow2Monotone(len, 15); }
    }
    Int16Word(word);
  }

  lemma SmallWord(word: nat, len: nat)
    requires len < 32 && word < Pow2(len)
    ensures ToInt32(word) == word
  {
    Pow2Monotone(len, 31);
    Pow2Values();
  }

  class StrData {
    var data: seq<Byte>
    var byteCounter: nat
    var bitPosition: nat
    var dataByte: Byte

    ghost predicate Valid()
      reads this
    {
      && bitPosition < 8
      && (bitPosition > 0 ==> 1 <= byteCounter <= |data| && dataByte == data[byteCounter - 1])
    }

    /** get_in_bitcount */
    function BitCount(): nat
      requires Valid() || (bitPosition == 8 && byteCounter >= 1)
      reads this
    {
      byteCounter * 8 - bitPosition
    }

    /** The bits not yet read. */
    ghost function Rest(): BitList
      requires Valid() || (1 <= byteCounter <= |data|)
      reads this
    {
      Unread(data, byteCounter, bitPosition)
    }

    /** FillBuffer */
    constructor (data: seq<Byte>)
      ensures Valid() && this.data == data && BitCount() == 0 && Rest() == AllBits(data)
    {
      this.data, this.byteCounter, this.bitPosition, this.dataByte := data, 0, 0, 0;
    }

    /** Loads the next byte; past the end nothing is left. */
    method LoadByte() returns (ok: bool)
      requires Valid() && bitPosition == 0
      modifies this
      ensures data == old(data)
      ensures ok <==> old(Rest()) != Nil
      ensures ok ==> bitPosition == 8 && 1 <= byteCounter <= |data| && dataByte == data[byteCounter - 1]
      ensures ok ==> BitCount() == old(BitCount()) && Rest() == old(Rest())
      ensures !ok ==> Valid() && Rest() == Nil
    {
      byteCounter := byteCounter + 1;
      if byteCounter > |data| {
        return false;
      }
      dataByte := data[byteCounter - 1];
      bitPosition := 8;
      assert Unread(data, byteCounter, 8).Cons?;
      ok := true;
    }

    /** The one-bit fast path of `getbits`. */
    method GetBit() returns (ok: bool, word: nat)
      requires Valid()
      modifies this
      ensures Valid() && data == old(data)
      ensures ok <==> old(Rest()) != Nil
      ensures ok ==> byteCounter <= |data|
      ensures ok ==> BitCount() == old(BitCount()) + 1 && Take(old(Rest()), 1, 0) == Ok(word, Rest())
      ensures !ok ==> Rest() == Nil && word == 0
    {
      word := 0;
      if bitPosition == 0 {
        ok := LoadByte();
        if !ok { return; }
      }
      word := TakeBit();
      ok := true;
    }

    /** The next bit of the byte at hand. */
    method TakeBit() returns (word: nat)
      requires 0 < bitPosition <= 8 && 1 <= byteCounter <= |data| && dataByte == data[byteCounter - 1]
      modifies `bitPosition
      ensures Valid() && BitCount() == old(BitCount()) + 1 && Take(old(Rest()), 1, 0) == Ok(word, Rest())
    {
      ChunkTaken(data, byteCounter, bitPosition, 1, 0);
      bitPosition := bitPosition - 1;
      MasksOnes(1);
      AndOnes(ShiftRight(dataByte, bitPosition), 1);
      word := And(ShiftRight(dataByte, bitPosition), 1);
    }

    /** The general loop of `getbits`. */
    method GetWord(n: nat) returns (ok: bool, word: nat)
      requires Valid() && 1 <= n <= 32
      modifies this
      ensures Valid() && data == old(data)
      ensures ok <==> Take(old(Rest()), n, 0).Ok?
      ensures ok ==> byteCounter <= |data|
      ensures ok ==> BitCount() == old(BitCount()) + n && Take(old(Rest()), n, 0) == Ok(word, Rest())
      ensures !ok ==> Rest() == Nil && (old(Rest()) == Nil ==> word == 0)
    {
      word := 0;
      var left := n;
      ShiftLeftZero(n);
      while left > 0
        invariant 0 <= left <= n && data == old(data) && Valid()
        invariant BitCount() == old(BitCount()) + (n - left)
        invariant left < n ==> byteCounter <= |data|
        invariant Partial(old(Rest()), n - left, left, word, Rest())
      {
        ghost var done := n - left;
        if bitPosition == 0 {
          ok := LoadByte();
          if !ok {
            TakeSplit(old(Rest()), done, left, 0);
            return;
          }
        }
        var count;
        count, word := TakeChunk(left, word, old(Rest()), done);
        left := left - count;
      }
      ok := true;
    }

    /** The rest of the loop's body: takes what the loaded byte has of the bits wanted. */
    method TakeChunk(left: nat, word: nat, ghost bits: BitList, ghost done: nat) returns (count: nat, word': nat)
      requires 0 < bitPosition <= 8 && 1 <= byteCounter <= |data| && dataByte == data[byteCounter - 1]
      requires 0 < left && Partial(bits, done, left, word, Rest())
      modifies this`bitPosition
      ensures Valid() && 0 < count <= left && bitPosition == old(bitPosition) - count
      ensures Partial(bits, done + count, left - count, word', Rest())
    {
      count := Min(bitPosition, left);
      ChunkJoins(bits, done, data, byteCounter, bitPosition, count, left, word);
      word' := Joined(word, dataByte, count, bitPosition - count, left - count);
      bitPosition := bitPosition - count;
    }

    /** Reads `n` bits, most significant first, or fails exactly when fewer are left. */
    method GetBits(n: nat) returns (ok: bool, word: nat)
      requires Valid() && 1 <= n <= 32
      modifies this
      ensures Valid() && data == old(data)
      ensures ok <==> ReadU(old(Rest()), n).Ok?
      ensures ok ==> ReadU(old(Rest()), n) == Ok(word, Rest()) && BitCount() == old(BitCount()) + n
      ensures ok ==> byteCounter <= |data|
      ensures !ok ==> Rest() == Nil && (old(Rest()) == Nil ==> word == 0)
    {
      if n == 1 {
        ok, word := GetBit();
      } else {
        ok, word := GetWord(n);
      }
    }

    /** FIO_BitGetIntUnsigned, and for widths up to 8 FIO_BitGetChrUnsigned. */
    method GetUnsigned(len: int) returns (ok: bool, x: int)
      requires Valid() && len <= 32
      modifies this
      ensures Valid() && data == old(data)
      ensures ok <==> len >= 0 && ReadU(old(Rest()), len).Ok?
      ensures !ok && len >= 0 ==> ReadU(old(Rest()), len) == Err(NegativeBitAllocation)
      ensures ok ==> BitCount() == old(BitCount()) + len && Rest() == ReadU(old(Rest()), len).rest
      ensures ok ==> x == ToInt32(ReadU(old(Rest()), len).value)
      ensures ok && len < 32 ==> x == ReadU(old(Rest()), len).value
      ensures ok && len > 0 ==> byteCounter <= |data|
      ensures ok && len == 0 ==> byteCounter == old(byteCounter)
      ensures !ok && len >= 0 ==> Rest() == Nil && (old(Rest()) == Nil ==> x == 0)
      ensures !ok && len < 0 ==> Rest() == old(Rest())
    {
      x := 0;
      if len > 0 {
        var tmp;
        TakeFails(Rest(), len, 0);
        ok, tmp := GetBits(len);
        x := ToInt32(tmp);
        if ok && len < 32 {
          ReadUExact(old(Rest()), len);
          SmallWord(tmp, len);
        }
      } else {
        ok := len == 0;
      }
    }

    /** FIO_BitGetShortSigned */
    method GetShortSigned(len: nat) returns (ok: bool, x: int)
      requires Valid() && 1 <= len <= 16
      modifies this
      ensures Valid() && data == old(data)
      ensures ok <==> ReadS(old(Rest()), len).Ok?
      ensures !ok ==> ReadS(old(Rest()), len) == Err(NegativeBitAllocation)
      ensures ok ==> BitCount() == old(BitCount()) + len && ReadS(old(Rest()), len) == Ok(x, Rest())
      ensures ok ==> byteCounter <= |data|
      ensures !ok ==> Rest() == Nil
    {
      var tmp;
      TakeFails(Rest(), len, 0);
      ok, tmp := GetBits(len);
      x := ShortOf(tmp, len);
      if ok {
        ReadUExact(old(Rest()), len);
        ShortValue(tmp, len);
      }
    }
  }
}
