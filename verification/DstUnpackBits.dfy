/** ReadArithmeticCodedData and ReadDSDframe of libs/libdstdec/unpack_dst.c: the arithmetic code is
    read 32 bits at a time and spread out through a table of nibbles, which is the same as reading
    it bit by bit. */
module DstUnpackBits {
  import opened Arithmetic
  import opened Bits
  import opened DstData
  import opened DstFrame
  import opened DstSegments
  import opened DstUnpackCodes

  /** The table for little-endian machines: four bytes with one bit of the nibble each. */
  const SPREAD: seq<nat> := [
    0x00000000, 0x01000000, 0x00010000, 0x01010000,
    0x00000100, 0x01000100, 0x00010100, 0x01010100,
    0x00000001, 0x01000001, 0x00010001, 0x01010001,
    0x00000101, 0x01000101, 0x00010101, 0x01010101
  ]

  /** Byte k of an int as little-endian machines store it. */
  function StoredByte(w: nat, k: nat): Byte
    requires k < 4
  {
    if k == 0 then w % 0x100
    else if k == 1 then w / 0x100 % 0x100
    else if k == 2 then w / 0x1_0000 % 0x100
    else w / 0x100_0000 % 0x100
  }

  /** The table does what it is for: byte k is bit 3 - k of the nibble. */
  lemma SpreadBits(n: nat)
    requires n < 16
    ensures |SPREAD| == 16
    ensures StoredByte(SPREAD[n], 0) == n / 8 % 2 && StoredByte(SPREAD[n], 1) == n / 4 % 2
    ensures StoredByte(SPREAD[n], 2) == n / 2 % 2 && StoredByte(SPREAD[n], 3) == n % 2
  {
    var b3, b2, b1, b0 := n / 8 % 2, n / 4 % 2, n / 2 % 2, n % 2;
    assert n == 8 * b3 + 4 * b2 + 2 * b1 + b0;
    assert SPREAD[n] == b3 + 0x100 * b2 + 0x1_0000 * b1 + 0x100_0000 * b0;
    StoredBytes(b3, b2, b1, b0);
  }

  lemma StoredBytes(b3: Bit, b2: Bit, b1: Bit, b0: Bit)
    ensures var w := b3 + 0x100 * b2 + 0x1_0000 * b1 + 0x100_0000 * b0;
            StoredByte(w, 0) == b3 && StoredByte(w, 1) == b2 && StoredByte(w, 2) == b1 && StoredByte(w, 3) == b0
  {
  }

  /** Bit number b of v, counting from the lowest. */
  function BitOf(v: int, b: nat): Bit { ShiftRight(v, b) % 2 }

  /** (v >> s) & 0xf */
  function Nibble(v: int, s: nat): nat { ShiftRight(v, s) % 16 }

  lemma NibbleBits(v: int, s: nat)
    ensures Nibble(v, s) / 8 % 2 == BitOf(v, s + 3) && Nibble(v, s) / 4 % 2 == BitOf(v, s + 2)
    ensures Nibble(v, s) / 2 % 2 == BitOf(v, s + 1) && Nibble(v, s) % 2 == BitOf(v, s)
  {
    ShiftRightOnce(v, s);
    ShiftRightOnce(v, s + 1);
    ShiftRightOnce(v, s + 2);
    Halves(ShiftRight(v, s));
  }

  lemma Halves(u: int)
    ensures u % 16 / 8 % 2 == u / 2 / 2 / 2 % 2 && u % 16 / 4 % 2 == u / 2 / 2 % 2
    ensures u % 16 / 2 % 2 == u / 2 % 2 && u % 16 % 2 == u % 2
  {
    var q, r := u / 16, u % 16;
    assert u == 16 * q + r;
    assert u / 2 == 8 * q + r / 2;
    assert u / 2 / 2 == 4 * q + r / 4;
    assert u / 2 / 2 / 2 == 2 * q + r / 8;
  }

  /** The sign of a 32-bit int does not change its bits. */
  lemma {:induction false} WrappedShift(w: int, n: nat, s: nat)
    requires s < n
    ensures ShiftRight(w - Pow2(n), s) == ShiftRight(w, s) - Pow2(n - s)
    decreases s
  {
    if s > 0 {
      assert Pow2(n) == 2 * Pow2(n - 1) && (w - 2 * Pow2(n - 1)) / 2 == w / 2 - Pow2(n - 1);
      WrappedShift(w / 2, n - 1, s - 1);
    }
  }

  lemma WrappedBits(w: nat, n: nat, b: nat)
    requires b < n
    ensures BitOf(w - Pow2(n), b) == BitOf(w, b)
  {
    WrappedShift(w, n, b);
    assert Pow2(n - b) == 2 * Pow2(n - b - 1);
  }

  lemma Int32Bits(w: nat, n: nat, b: nat)
    requires Pow2(n) == 0x1_0000_0000 && w < Pow2(n) && b < n
    ensures BitOf(ToInt32(w), b) == BitOf(w, b)
  {
    WrappedBits(w, n, b);
  }

  /** `each` has the n bits of w from place `from` on. */
  ghost predicate HasBits(each: seq<int>, from: nat, n: nat, w: int) {
    from + n <= |each| && forall k :: from <= k < from + n ==> each[k] == BitOf(w, from + n - 1 - k)
  }

  lemma HasBitsStep(each: seq<Bit>, from: nat, n: nat, w: nat, last: Bit)
    requires |each| == from + n && HasBits(each, from, n, w)
    ensures HasBits(each + [last], from, n + 1, 2 * w + last)
  {
    LastBit(w, last);
    forall k | from <= k < from + n + 1 ensures (each + [last])[k] == BitOf(2 * w + last, from + n - k) {
      if k < from + n { assert BitOf(2 * w + last, from + n - k) == BitOf(w, from + n - k - 1); }
    }
  }

  /** The next n bits one by one are the bits of the number they make. */
  lemma {:induction false} WordBits(bits: BitList, n: nat, done: seq<Bit>)
    requires ReadU(bits, n).Ok?
    ensures var w, each := ReadU(bits, n), ReadEach(bits, n, done);
            && each.Ok? && each.rest == w.rest && |each.value| == |done| + n && each.value[..|done|] == done
            && HasBits(each.value, |done|, n, w.value)
    decreases n
  {
    if n > 0 {
      TakePrefix(bits, n - 1, n, 0);
      TakeSplit(bits, n - 1, 1, 0);
      WordBits(bits, n - 1, done);
      var v, each := ReadU(bits, n - 1), ReadEach(bits, n - 1, done);
      EachSplit(bits, n - 1, 1, done);
      HasBitsStep(each.value, |done|, n - 1, v.value, v.rest.bit);
    }
  }

  /** Four bits of a word into four places of the array. */
  method StoreNibble(aData: array<Byte>, j: nat, val: int, s: nat)
    requires j + 4 <= aData.Length
    modifies aData
    ensures forall k :: j <= k < j + 4 ==> aData[k] == BitOf(val, s + 3 - (k - j))
    ensures forall k :: 0 <= k < aData.Length && !(j <= k < j + 4) ==> aData[k] == old(aData[k])
  {
    NibbleBits(val, s);
    SpreadBits(Nibble(val, s));
    var word := SPREAD[Nibble(val, s)];
    aData[j], aData[j + 1], aData[j + 2], aData[j + 3] := StoredByte(word, 0), StoredByte(word, 1), StoredByte(word, 2), StoredByte(word, 3);
  }

  /** The body of the loop over whole words. */
  method StoreWord(aData: array<Byte>, j: nat, val: int)
    requires j + 32 <= aData.Length
    modifies aData
    ensures forall k :: j <= k < j + 32 ==> aData[k] == BitOf(val, 31 - (k - j))
    ensures forall k :: 0 <= k < aData.Length && !(j <= k < j + 32) ==> aData[k] == old(aData[k])
  {
    for n := 0 to 8
      invariant forall k :: j <= k < j + 4 * n ==> aData[k] == BitOf(val, 31 - (k - j))
      invariant forall k :: 0 <= k < aData.Length && !(j <= k < j + 32) ==> aData[k] == old(aData[k])
    {
      StoreNibble(aData, j + 4 * n, val, 28 - 4 * n);
    }
  }

  /** `done` is what reading the first n bits one by one gives, and `rest` is what it leaves. */
  ghost predicate Fetched(bits: BitList, n: nat, done: seq<int>, rest: BitList) {
    var r := ReadEach(bits, n, []);
    r.Ok? && r.value == done && r.rest == rest
  }

  /** A word read whole and spread out is 32 bits read one by one. */
  lemma FetchedWord(bits: BitList, j: nat, done: seq<int>, rest: BitList, n: nat, more: seq<int>)
    requires Pow2(n) == 0x1_0000_0000 && Fetched(bits, j, done, rest) && ReadU(rest, n).Ok?
    requires |more| == |done| + n && more[..|done|] == done
    requires forall k :: |done| <= k < |done| + n ==> more[k] == BitOf(ToInt32(ReadU(rest, n).value), n - 1 - (k - |done|))
    ensures Fetched(bits, j + n, more, ReadU(rest, n).rest)
  {
    var r := ReadEach(bits, j, []);
    EachSplit(bits, j, n, []);
    WordBits(rest, n, r.value);
    var each, w := ReadEach(rest, n, r.value).value, ReadU(rest, n).value;
    ReadUBound(rest, n);
    forall k | 0 <= k < |more| ensures more[k] == each[k] {
      if k < |done| {
        assert more[k] == more[..|done|][k] && each[k] == each[..|done|][k];
      } else {
        Int32Bits(w, n, n - 1 - (k - |done|));
      }
    }
  }

  lemma FetchedBit(bits: BitList, j: nat, done: seq<int>, rest: BitList)
    requires Fetched(bits, j, done, rest) && rest.Cons?
    ensures Fetched(bits, j + 1, done + [rest.bit], rest.tail)
  {
    EachSplit(bits, j, 1, []);
  }

  lemma FetchedLength(bits: BitList, j: nat, done: seq<int>, rest: BitList)
    requires Fetched(bits, j, done, rest)
    ensures Length(rest) == Length(bits) - j
  {
    EachEnough(bits, j, []);
  }

  lemma {:induction false} EnoughForWord(bits: BitList, n: nat, acc: nat)
    ensures Take(bits, n, acc).Ok? <==> n <= Length(bits)
    decreases n
  {
    if n > 0 && bits.Cons? { EnoughForWord(bits.tail, n - 1, 2 * acc + bits.bit); }
  }

  /** One turn of the loop over whole words. */
  method FetchWord(sd: StrData, aData: array<Byte>, j: nat, ghost bits: BitList)
    requires InFrame(sd) && j + 32 <= aData.Length && j + 32 <= Length(bits) && Fetched(bits, j, aData[..j], sd.Rest())
    modifies sd, aData
    ensures InFrame(sd) && sd.data == old(sd.data) && Fetched(bits, j + 32, aData[..j + 32], sd.Rest())
  {
    ghost var n: nat, rest, done := 32, sd.Rest(), aData[..j];
    FetchedLength(bits, j, done, rest);
    EnoughForWord(rest, n, 0);
    var ok, val := sd.GetUnsigned(32);
    StoreWord(aData, j, val);
    ghost var more := aData[..j + 32];
    assert more[..j] == done;
    Pow2Values();
    FetchedWord(bits, j, done, rest, n, more);
  }

  /** ReadArithmeticCodedData */
  method ReadArithmeticCodedData(sd: StrData, aDataLen: nat, aData: array<Byte>)
    requires InFrame(sd) && aDataLen <= aData.Length && aDataLen <= Length(sd.Rest())
    modifies sd, aData
    ensures InFrame(sd) && sd.data == old(sd.data)
    ensures var r := ReadEach(old(sd.Rest()), aDataLen, []); r.Ok? && r.value == aData[..aDataLen] && r.rest == sd.Rest()
  {
    ghost var bits := sd.Rest();
    var j := 0;
    while j < aDataLen - 31
      invariant j <= aDataLen && InFrame(sd) && sd.data == old(sd.data) && Fetched(bits, j, aData[..j], sd.Rest())
    {
      FetchWord(sd, aData, j, bits);
      j := j + 32;
    }
    while j < aDataLen
      invariant j <= aDataLen && InFrame(sd) && sd.data == old(sd.data) && Fetched(bits, j, aData[..j], sd.Rest())
    {
      ghost var rest, done := sd.Rest(), aData[..j];
      FetchedLength(bits, j, done, rest);
      var ok, bit := ReadFlag(sd);
      aData[j] := bit;
      FetchedBit(bits, j, done, rest);
      assert aData[..j + 1] == done + [bit];
      j := j + 1;
    }
  }

  lemma {:induction false} TakenLength(bits: BitList, n: nat, acc: nat)
    requires Take(bits, n, acc).Ok?
    ensures Length(Take(bits, n, acc).rest) == Length(bits) - n
    decreases n
  {
    if n > 0 { TakenLength(bits.tail, n - 1, 2 * acc + bits.bit); }
  }

  /** The bits are n whole bytes of w bits. */
  ghost predicate Bytewise(bits: BitList, w: nat, n: nat)
    decreases n
  {
    if n == 0 then bits == Nil else ReadU(bits, w).Ok? && Bytewise(ReadU(bits, w).rest, w, n - 1)
  }

  lemma {:induction false} LengthBytewise(bits: BitList, w: nat, n: nat)
    requires Length(bits) == Times(w, n)
    ensures Bytewise(bits, w, n)
    decreases n
  {
    if n > 0 {
      EnoughForWord(bits, w, 0);
      TakenLength(bits, w, 0);
      LengthBytewise(ReadU(bits, w).rest, w, n - 1);
    }
  }

  /** FIO_BitGetChrUnsigned on whole bytes: past the end it gives 0. */
  method ReadChr(sd: StrData, w: nat, ghost left: nat) returns (x: Byte)
    requires sd.Valid() && 0 < w < 32 && Pow2(w) == 256 && Bytewise(sd.Rest(), w, left)
    modifies sd
    ensures sd.Valid() && sd.data == old(sd.data)
    ensures Bytewise(sd.Rest(), w, if left == 0 then 0 else left - 1) && ReadByte(old(sd.Rest()), w) == Ok(x, sd.Rest())
  {
    ReadUBound(sd.Rest(), w);
    var ok, v := sd.GetUnsigned(w);
    x := v;
  }

  ghost predicate InBytes(whole: Parsed<seq<Byte>>, done: seq<Byte>, bits: BitList, w: nat, left: nat) {
    var r := ReadBytes(bits, w, left);
    r.Ok? && whole == Ok(done + r.value, r.rest)
  }

  lemma {:induction false} BytesRead(bits: BitList, w: nat, n: nat)
    ensures ReadBytes(bits, w, n).Ok? && |ReadBytes(bits, w, n).value| == n
    decreases n
  {
    if n > 0 { BytesRead(ReadByte(bits, w).rest, w, n - 1); }
  }

  lemma InBytesStart(bits: BitList, w: nat, n: nat)
    ensures InBytes(ReadBytes(bits, w, n), [], bits, w, n)
  {
    BytesRead(bits, w, n);
    assert [] + ReadBytes(bits, w, n).value == ReadBytes(bits, w, n).value;
  }

  lemma InBytesStep(whole: Parsed<seq<Byte>>, done: seq<Byte>, bits: BitList, w: nat, left: nat, x: Byte, rest: BitList)
    requires left > 0 && InBytes(whole, done, bits, w, left) && ReadByte(bits, w) == Ok(x, rest)
    ensures InBytes(whole, done + [x], rest, w, left - 1)
  {
    BytesRead(rest, w, left - 1);
    var more := ReadBytes(rest, w, left - 1).value;
    assert done + ([x] + more) == done + [x] + more;
  }

  /** ReadDSDframe */
  method ReadDSDframe(sd: StrData, w: nat, max: nat, dsd: array<Byte>, ghost n: nat)
    requires sd.Valid() && 0 < w < 32 && Pow2(w) == 256 && Bytewise(sd.Rest(), w, n) && max <= dsd.Length
    modifies sd, dsd
    ensures sd.Valid() && sd.data == old(sd.data)
    ensures ReadBytes(old(sd.Rest()), w, max) == Ok(dsd[..max], sd.Rest())
  {
    ghost var whole, left := ReadBytes(sd.Rest(), w, max), n;
    InBytesStart(sd.Rest(), w, max);
    for byteNr := 0 to max
      invariant sd.Valid() && sd.data == old(sd.data) && 0 <= left && Bytewise(sd.Rest(), w, left)
      invariant InBytes(whole, dsd[..byteNr], sd.Rest(), w, max - byteNr)
    {
      ghost var done, rest := dsd[..byteNr], sd.Rest();
      var x := ReadChr(sd, w, left);
      left := if left == 0 then 0 else left - 1;
      InBytesStep(whole, done, rest, w, max - byteNr, x, sd.Rest());
      dsd[byteNr] := x;
      assert dsd[..byteNr + 1] == done + [x];
    }
    assert dsd[..max] + [] == dsd[..max];
  }
}
