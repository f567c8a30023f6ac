/** pb_istream_t over a memory buffer, and the methods of libs/libcommon/pb_decode.c that read
    numbers, strings and values from it, against the functions of ProtobufWire and Protobuf. */
module ProtobufInput {
  import opened Arithmetic
  import opened Bits
  import opened BitOps
  import opened ProtobufWire
  import opened Protobuf

  /** The `left` bytes of a buffer from `at` on. */
  function Unread(source: seq<Byte>, at: nat, left: nat): ByteList
    requires at + left <= |source|
    decreases left
  {
    if left == 0 then End else More(source[at], Unread(source, at + 1, left - 1))
  }

  lemma {:induction false} UnreadBytes(source: seq<Byte>, at: nat, left: nat, n: nat)
    requires at + left <= |source| && n <= left
    ensures ReadBytes(Unread(source, at, left), n) == Read(source[at..at + n], Unread(source, at + n, left - n))
    decreases n
  {
    if n > 0 {
      UnreadBytes(source, at + 1, left - 1, n - 1);
      assert source[at..at + n] == [source[at]] + source[at + 1..at + n];
    } else {
      assert source[at..at] == [];
    }
  }

  lemma {:induction false} UnreadCount(source: seq<Byte>, at: nat, left: nat)
    requires at + left <= |source|
    ensures Count(Unread(source, at, left)) == left
    decreases left
  {
    if left > 0 { UnreadCount(source, at + 1, left - 1); }
  }

  // ----- words -----

  /** A shift that drops what is above w bits drops the top of what it shifts. */
  lemma {:induction false} ShiftInWord(x: nat, k: nat, w: nat)
    requires k <= w
    ensures LowBits(ShiftLeft(x, k), w) == ShiftLeft(LowBits(x, w - k), k)
  {
    if k > 0 {
      ShiftInWord(x, k - 1, w - 1);
      assert ShiftLeft(x, k) / 2 == ShiftLeft(x, k - 1);
    }
  }

  /** Masking with n ones leaves the remainder. */
  lemma {:induction false} LowBitsRemainder(v: nat, n: nat) returns (q: nat)
    ensures v == q * Pow2(n) + LowBits(v, n)
    decreases n
  {
    if n == 0 {
      q := v;
    } else {
      q := LowBitsRemainder(v / 2, n - 1);
      var p := Pow2(n - 1);
      assert q * Pow2(n) == 2 * (q * p) by { assert Pow2(n) == 2 * p; }
    }
  }

  lemma RemainderUnique(v: nat, q: nat, r: nat)
    requires v == q * TWO64 + r && r < TWO64
    ensures v % TWO64 == r
  {
  }

  /** The last byte of a varint: its seven bits move up to their place in 64 and join those below. */
  lemma OrInWord(dest: nat, x: nat, k: nat)
    requires k < 64 && dest < Pow2(k)
    ensures Or(dest, ShiftLeft(x, k) % TWO64) == (dest + ShiftLeft(x, k)) % TWO64
  {
    var w := WordWidth();
    var y := ShiftLeft(x, k);
    var c := LowBits(x, w - k);
    var q := LowBitsRemainder(y, w);
    ShiftInWord(x, k, w);
    LowBitsBound(x, w - k);
    ShiftRoom(c, k, w - k);
    RemainderUnique(y, q, ShiftLeft(c, k));
    OrAbove(dest, c, k);
    RemainderUnique(dest + y, q, dest + ShiftLeft(c, k));
  }

  /** The bytes so far: `dest` holds the seven bits of each, and what the k next ones make comes above. */
  ghost predicate Partial(bytes: ByteList, rest: ByteList, k: nat, bitpos: nat, dest: nat) {
    match Groups(rest, k)
    case Failed(end) => GetVarint(bytes) == Failed(end)
    case Read(v, end) => dest < Pow2(bitpos) && GetVarint(bytes) == Read((dest + ShiftLeft(v, bitpos)) % TWO64, end)
  }

  lemma VarintStarts(bytes: ByteList)
    ensures Partial(bytes, bytes, 10, 0, 0)
  {
    var r := Groups(bytes, 10);
    if r.Read? { assert ShiftLeft(r.value, 0) == r.value; }
  }

  /** One turn of the loop of pb_decode_varint. */
  lemma VarintTurn(bytes: ByteList, b: Byte, tail: ByteList, k: nat, bitpos: nat, dest: nat)
    requires k >= 1 && bitpos == 7 * (10 - k) && Partial(bytes, More(b, tail), k, bitpos, dest)
    ensures var dest' := Or(dest, ShiftLeft(b % 128, bitpos) % TWO64);
            if b < 128 then GetVarint(bytes) == Read(dest', tail)
            else Partial(bytes, tail, k - 1, bitpos + 7, dest')
  {
    if b < 128 {
      assert Groups(More(b, tail), k) == Read(b, tail);
      OrInWord(dest, b, bitpos);
    } else {
      GroupTurn(bytes, b, tail, k, bitpos, dest);
    }
  }

  lemma GroupTurn(bytes: ByteList, b: Byte, tail: ByteList, k: nat, bitpos: nat, dest: nat)
    requires k >= 1 && bitpos == 7 * (10 - k) && Partial(bytes, More(b, tail), k, bitpos, dest) && b >= 128
    ensures Partial(bytes, tail, k - 1, bitpos + 7, Or(dest, ShiftLeft(b - 128, bitpos) % TWO64))
  {
    var r := Groups(tail, k - 1);
    if r.Read? {
      assert Groups(More(b, tail), k) == Read(b - 128 + 128 * r.value, r.rest);
      GroupJoins(dest, b - 128, r.value, bitpos);
    }
  }

  lemma GroupJoins(dest: nat, x: nat, v: nat, bitpos: nat)
    requires x < 128 && bitpos <= 56 && dest < Pow2(bitpos)
    ensures var dest' := Or(dest, ShiftLeft(x, bitpos) % TWO64);
            && dest' < Pow2(bitpos + 7)
            && dest' + ShiftLeft(v, bitpos + 7) == dest + ShiftLeft(x + 128 * v, bitpos)
  {
    Pow2Values();
    OrBelow(dest, x, bitpos, 7);
    ShiftLeftAdd(x, 128 * v, bitpos);
    SevenShifted(v);
    ShiftLeftTwice(v, 7, bitpos);
  }

  /** Within the 64 bits nothing is dropped. */
  lemma OrBelow(dest: nat, x: nat, k: nat, n: nat)
    requires x < Pow2(n) && k + n < 64 && dest < Pow2(k)
    ensures Or(dest, ShiftLeft(x, k) % TWO64) == dest + ShiftLeft(x, k) < Pow2(k + n)
  {
    var w := WordWidth();
    Pow2Monotone(k + n, w);
    ShiftRoom(x, k, n);
    RemainderUnique(ShiftLeft(x, k), 0, ShiftLeft(x, k));
    OrAbove(dest, x, k);
  }

  /** The exclusive or of pb_dec_svarint, with 64 ones or with none. */
  lemma SvarintUndone(z: nat)
    requires z < TWO64
    ensures Xor(ShiftRight(z, 1), (TWO64 - And(z, 1)) % TWO64) == UnZigZag(z)
  {
    var w := WordWidth();
    assert Ones(1) == 1;
    AndOnes(z, 1);
    assert LowBits(z, 1) == z % 2;
    assert ShiftRight(z, 1) == z / 2;
    XorOnes(z / 2, w);
    XorZero(z / 2);
  }

  lemma SevenShifted(v: nat)
    ensures ShiftLeft(v, 7) == 128 * v
  {
    assert ShiftLeft(v, 1) == 2 * v;
    assert ShiftLeft(v, 3) == 8 * v;
    assert ShiftLeft(v, 5) == 32 * v;
  }

  // ----- the stream -----

  class IStream {
    const source: seq<Byte>
    var state: nat
    var bytesLeft: nat

    ghost predicate Valid()
      reads this
    {
      state + bytesLeft <= |source|
    }

    ghost function Rest(): ByteList
      requires Valid()
      reads this
    {
      Unread(source, state, bytesLeft)
    }

    /** pb_istream_from_buffer */
    constructor (source: seq<Byte>)
      ensures Valid() && this.source == source && Rest() == Unread(source, 0, |source|)
    {
      this.source, state, bytesLeft := source, 0, |source|;
    }

    /** pb_read with buf_read */
    method Read(count: nat) returns (ok: bool, buf: seq<Byte>)
      requires Valid()
      modifies this
      ensures Valid() && (ok <==> ReadBytes(old(Rest()), count).Read?)
      ensures ok ==> ReadBytes(old(Rest()), count) == Reading.Read(buf, Rest())
      ensures !ok ==> Rest() == old(Rest())
    {
      UnreadCount(source, state, bytesLeft);
      ReadBytesEnough(Rest(), count);
      if bytesLeft < count { return false, []; }
      UnreadBytes(source, state, bytesLeft, count);
      buf := source[state..state + count];
      state := state + count;
      bytesLeft := bytesLeft - count;
      ok := true;
    }

    method ReadByte() returns (ok: bool, b: Byte)
      requires Valid()
      modifies this
      ensures Valid() && (ok <==> old(Rest()).More?)
      ensures ok ==> old(Rest()) == More(b, Rest())
      ensures !ok ==> Rest() == old(Rest())
    {
      var buf;
      ok, buf := Read(1);
      b := 0;
      if ok {
        FirstByte(old(Rest()), buf, Rest());
        b := buf[0];
      }
    }

    /** pb_decode_varint */
    method DecodeVarint() returns (ok: bool, dest: nat)
      requires Valid()
      modifies this
      ensures Valid() && (ok <==> GetVarint(old(Rest())).Read?)
      ensures ok ==> GetVarint(old(Rest())) == Reading.Read(dest, Rest())
      ensures !ok ==> GetVarint(old(Rest())) == Failed(Rest())
    {
      ghost var bytes := Rest();
      ghost var k := 10;
      var bitpos := 0;
      dest := 0;
      VarintStarts(bytes);
      while bitpos < 64
        invariant Valid() && 0 <= k && bitpos == 7 * (10 - k) && Partial(bytes, Rest(), k, bitpos, dest)
        decreases k
      {
        var more, b := ReadByte();
        if !more { return false, dest; }
        VarintTurn(bytes, b, Rest(), k, bitpos, dest);
        dest := Or(dest, ShiftLeft(b % 128, bitpos) % TWO64);
        bitpos := bitpos + 7;
        k := k - 1;
        if b < 128 { return true, dest; }
      }
      ok := false;
    }

    /** pb_decode_varint32 */
    method DecodeVarint32() returns (ok: bool, dest: nat)
      requires Valid()
      modifies this
      ensures Valid() && (ok <==> GetVarint32(old(Rest())).Read?)
      ensures ok ==> GetVarint32(old(Rest())) == Reading.Read(dest, Rest())
      ensures !ok ==> GetVarint32(old(Rest())) == Failed(Rest())
    {
      var temp;
      ok, temp := DecodeVarint();
      dest := temp % TWO32;
    }

    /** pb_skip_varint */
    method SkipVarint() returns (ok: bool)
      requires Valid()
      modifies this
      ensures Valid() && (ok <==> ProtobufWire.SkipVarint(old(Rest())).Read?)
      ensures ok ==> ProtobufWire.SkipVarint(old(Rest())) == Reading.Read((), Rest())
    {
      var more := true;
      while more
        invariant Valid()
        invariant ProtobufWire.SkipVarint(old(Rest())) == if more then ProtobufWire.SkipVarint(Rest()) else Reading.Read((), Rest())
        decreases more, Count(Rest())
      {
        var b;
        ok, b := ReadByte();
        if !ok { return; }
        more := b >= 128;
      }
      ok := true;
    }

    /** pb_skip_string */
    method SkipString() returns (ok: bool)
      requires Valid()
      modifies this
      ensures Valid() && (ok <==> Protobuf.SkipString(old(Rest())).Read?)
      ensures ok ==> Protobuf.SkipString(old(Rest())) == Reading.Read((), Rest())
    {
      var length, skipped;
      ok, length := DecodeVarint32();
      if ok { ok, skipped := Read(length); }
    }

    /** skip */
    method Skip(wireType: nat) returns (ok: bool)
      requires Valid()
      modifies this
      ensures Valid() && (ok <==> Protobuf.Skip(old(Rest()), wireType).Read?)
      ensures ok ==> Protobuf.Skip(old(Rest()), wireType) == Reading.Read((), Rest())
    {
      var skipped;
      match wireType {
        case 0 => ok := SkipVarint();
        case 1 => ok, skipped := Read(8);
        case 2 => ok := SkipString();
        case 5 => ok, skipped := Read(4);
        case _ => ok := false;
      }
    }

    /** pb_dec_bytes, and pb_dec_string up to its terminator. */
    method DecodeData(limit: nat) returns (ok: bool, v: Value)
      requires Valid()
      modifies this
      ensures Valid() && (ok <==> Protobuf.DecodeData(old(Rest()), limit).Read?)
      ensures ok ==> Protobuf.DecodeData(old(Rest()), limit) == Reading.Read(v, Rest())
    {
      var size, data;
      v := Data([]);
      ok, size := DecodeVarint32();
      if !ok { return; }
      if size > limit { return false, v; }
      ok, data := Read(size);
      v := Data(data);
    }

    /** pb_dec_fixed32 and pb_dec_fixed64 */
    method DecodeFixed(n: nat) returns (ok: bool, v: Value)
      requires Valid()
      modifies this
      ensures Valid() && (ok <==> Protobuf.DecodeFixed(old(Rest()), n).Read?)
      ensures ok ==> Protobuf.DecodeFixed(old(Rest()), n) == Reading.Read(v, Rest())
    {
      var data;
      ok, data := Read(n);
      v := Number(GetFixed(data));
    }

    /** pb_dec_svarint, before the copy to the field's memory. */
    method DecodeSvarint() returns (ok: bool, temp: nat)
      requires Valid()
      modifies this
      ensures Valid() && (ok <==> GetVarint(old(Rest())).Read?)
      ensures ok ==> GetVarint(old(Rest())).rest == Rest() && temp == UnZigZag(GetVarint(old(Rest())).value)
    {
      ok, temp := DecodeVarint();
      if ok {
        SvarintUndone(temp);
        temp := Xor(ShiftRight(temp, 1), (TWO64 - And(temp, 1)) % TWO64);   // ^ -(int64_t)(temp & 1)
      }
    }

    /** The decoder that PB_DECODERS holds for the field. */
    method DecodeValue(f: Field) returns (ok: bool, v: Value)
      requires Valid()
      modifies this
      ensures Valid() && (ok <==> Protobuf.DecodeValue(f, old(Rest())).Read?)
      ensures ok ==> Protobuf.DecodeValue(f, old(Rest())) == Reading.Read(v, Rest())
    {
      match f.ltype {
        case VarintType =>
          var temp;
          ok, temp := DecodeVarint();
          v := Number(LowBits(temp, 8 * f.dataSize));
        case SvarintType =>
          var temp;
          ok, temp := DecodeSvarint();
          v := Number(LowBits(temp, 8 * f.dataSize));
        case Fixed32Type => ok, v := DecodeFixed(4);
        case Fixed64Type => ok, v := DecodeFixed(8);
        case BytesType => ok, v := DecodeData(f.dataSize);
        case StringType => ok, v := DecodeData(StringLimit(f.dataSize));
      }
    }
  }

  lemma FirstByte(bytes: ByteList, buf: seq<Byte>, rest: ByteList)
    requires ReadBytes(bytes, 1) == Read(buf, rest)
    ensures |buf| == 1 && bytes == More(buf[0], rest)
  {
    assert ReadBytes(bytes.tail, 0) == Read([], bytes.tail);
  }
}
