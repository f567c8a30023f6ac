/** pb_ostream_t over a memory buffer or for sizing only, and the methods of
    libs/libcommon/pb_encode.c on it, against the functions of ProtobufWire and Protobuf. */
module ProtobufEncoder {
  import opened Arithmetic
  import opened Bits
  import opened BitOps
  import opened ProtobufWire
  import opened Protobuf
  import opened ProtobufInput
  import opened ProtobufDecoder
  import opened ProtobufRoundTrip

  /** What an output stream holds. */
  datatype Output = Output(written: seq<Byte>, count: nat, maxSize: nat, sizing: bool)

  /** `data` has been written, or counted, exactly if it fitted; what was there before still is. */
  ghost predicate Wrote(from: Output, to: Output, data: seq<Byte>, ok: bool) {
    && from.maxSize == to.maxSize && from.sizing == to.sizing
    && (ok <==> from.sizing || from.count + |data| <= from.maxSize)
    && from.count <= to.count && from.written <= to.written
    && (ok ==> to.count == from.count + |data| && (!from.sizing ==> to.written == from.written + data))
  }

  /** Two writes are one. */
  lemma WroteBoth(a: Output, b: Output, c: Output, first: seq<Byte>, second: seq<Byte>, ok: bool)
    requires Wrote(a, b, first, true) && Wrote(b, c, second, ok)
    ensures Wrote(a, c, first + second, ok)
  {
    if ok && !a.sizing { assert (a.written + first) + second == a.written + (first + second); }
  }

  /** What fails for a part fails for the whole. */
  lemma WroteLess(a: Output, b: Output, part: seq<Byte>, rest: seq<Byte>)
    requires Wrote(a, b, part, false)
    ensures Wrote(a, b, part + rest, false)
  {
  }

  class OStream {
    const buffer: array<Byte>
    const maxSize: nat
    const sizing: bool         // callback == NULL: bytes are counted, not kept
    var bytesWritten: nat

    ghost predicate Valid()
      reads this
    {
      !sizing ==> bytesWritten <= maxSize <= buffer.Length
    }

    ghost function View(): Output
      requires Valid()
      reads this, buffer
    {
      Output(if sizing then [] else buffer[..bytesWritten], bytesWritten, maxSize, sizing)
    }

    /** pb_ostream_from_buffer */
    constructor (buffer: array<Byte>, bufsize: nat)
      requires bufsize <= buffer.Length
      ensures Valid() && this.buffer == buffer && maxSize == bufsize && !sizing && bytesWritten == 0
    {
      this.buffer, maxSize, sizing, bytesWritten := buffer, bufsize, false, 0;
    }

    /** A stream that only counts. */
    constructor Sizing()
      ensures Valid() && sizing && bytesWritten == 0 && fresh(buffer)
    {
      buffer := new Byte[0];
      maxSize, sizing, bytesWritten := 0, true, 0;
    }

    /** pb_write with buf_write */
    method Write(buf: seq<Byte>) returns (ok: bool)
      requires Valid()
      modifies this, buffer
      ensures Valid() && Wrote(old(View()), View(), buf, ok)
    {
      if !sizing {
        if bytesWritten + |buf| > maxSize { return false; }
        for i := 0 to |buf|
          invariant bytesWritten == old(bytesWritten)
          invariant buffer[..bytesWritten] == old(buffer[..bytesWritten])
          invariant buffer[bytesWritten..bytesWritten + i] == buf[..i]
        {
          buffer[bytesWritten + i] := buf[i];
        }
        assert buf[..|buf|] == buf;
        assert buffer[..bytesWritten + |buf|] == old(View()).written + buf;
      }
      bytesWritten := bytesWritten + |buf|;
      ok := true;
    }

    /** pb_encode_varint */
    method EncodeVarint(value: nat) returns (ok: bool)
      requires Valid() && value < TWO64
      modifies this, buffer
      ensures Valid() && Wrote(old(View()), View(), Varint(value), ok)
    {
      if value == 0 {
        ok := Write([0]);
      } else {
        var bytes := VarintBytes(value);
        ok := Write(bytes);
      }
    }

    /** pb_encode_tag */
    method EncodeTag(wireType: nat, number: nat) returns (ok: bool)
      requires Valid() && wireType < 8 && number < 0x1000_0000
      modifies this, buffer
      ensures Valid() && Wrote(old(View()), View(), Varint(8 * number + wireType), ok)
    {
      var tag := Or(wireType, ShiftLeft(number, 3));
      OrAbove(wireType, number, 3);
      EightTimes(number);
      ok := EncodeVarint(tag);
    }

    /** pb_encode_tag_for_field */
    method EncodeTagForField(f: Field) returns (ok: bool)
      requires Valid() && f.Valid()
      modifies this, buffer
      ensures Valid() && Wrote(old(View()), View(), Varint(Key(f)), ok)
    {
      var wireType := match f.ltype
        case VarintType | SvarintType => 0
        case Fixed32Type => 5
        case Fixed64Type => 1
        case BytesType | StringType => 2;
      ok := EncodeTag(wireType, f.tag);
    }

    /** pb_encode_string */
    method EncodeString(data: seq<Byte>) returns (ok: bool)
      requires Valid() && |data| < TWO64
      modifies this, buffer
      ensures Valid() && Wrote(old(View()), View(), Delimited(data), ok)
    {
      ghost var start := View();
      ok := EncodeVarint(|data|);
      ghost var between := View();
      if ok {
        ok := Write(data);
        WroteBoth(start, between, View(), Varint(|data|), data, ok);
      }
    }

    /** pb_enc_svarint */
    method EncodeSvarint(value: nat, dataSize: nat) returns (ok: bool)
      requires Valid() && 1 <= dataSize <= 8 && value < Pow2(8 * dataSize)
      modifies this, buffer
      ensures Valid() && Wrote(old(View()), View(), Varint(ZigZag(value, 8 * dataSize)), ok)
    {
      ZigZagged(value, 8 * dataSize);
      ZigZagRoundTrip(value, 8 * dataSize);
      var signbitmask := ShiftLeft(0x80, 8 * dataSize - 8);
      var xormask := ShiftRight(TWO64 - 1, 64 - 8 * dataSize);
      var zigzagged :=
        if And(value, signbitmask) != 0 then Or(ShiftLeft(Xor(value, xormask), 1), 1)
        else ShiftLeft(value, 1);
      ok := EncodeVarint(zigzagged);
    }

    /** The encoder that PB_ENCODERS holds for the field. */
    method EncodeValue(f: Field, v: Value) returns (ok: bool)
      requires Valid() && Encodable(f, v) && (v.Data? ==> |v.bytes| < TWO64)
      modifies this, buffer
      ensures Valid() && Wrote(old(View()), View(), Protobuf.EncodeValue(f, v), ok)
    {
      match f.ltype {
        case VarintType =>
          NumberFits(f, v.n);
          ok := EncodeVarint(v.n);
        case SvarintType => ok := EncodeSvarint(v.n, f.dataSize);
        case Fixed32Type => ok := Write(Fixed(v.n, f.dataSize));
        case Fixed64Type => ok := Write(Fixed(v.n, f.dataSize));
        case BytesType => ok := EncodeString(v.bytes);
        case StringType =>
          CStringShorter(v.bytes);
          ok := EncodeString(CString(v.bytes));
      }
    }

    /** The key and the value. */
    method EncodeField(f: Field, v: Value) returns (ok: bool)
      requires Valid() && Encodable(f, v) && (v.Data? ==> |v.bytes| < TWO64)
      modifies this, buffer
      ensures Valid() && Wrote(old(View()), View(), Protobuf.EncodeField(f, v), ok)
    {
      ghost var start := View();
      ok := EncodeTagForField(f);
      ghost var between := View();
      if ok {
        ok := EncodeValue(f, v);
        WroteBoth(start, between, View(), Varint(Key(f)), Protobuf.EncodeValue(f, v), ok);
      }
    }

    /** The switch of pb_encode on the field's kind. */
    method EncodeSlot(f: Field, slot: Slot) returns (ok: bool)
      requires Valid() && Encodable(f, slot.value) && (slot.value.Data? ==> |slot.value.bytes| < TWO64)
      modifies this, buffer
      ensures Valid() && Wrote(old(View()), View(), Protobuf.EncodeSlot(f, slot), ok)
    {
      ok := true;
      match f.htype {
        case Required => ok := EncodeField(f, slot.value);
        case Optional => if slot.has { ok := EncodeField(f, slot.value); }
      }
    }

    /** pb_encode: writes the message if it fits, and counts it if the stream is for sizing. */
    method PbEncode(fields: seq<Field>, src: seq<Slot>) returns (ok: bool)
      requires Valid() && EncodableMessage(fields, src)
      requires forall i :: 0 <= i < |src| && src[i].value.Data? ==> |src[i].value.bytes| < TWO64
      modifies this, buffer
      ensures Valid() && Wrote(old(View()), View(), EncodeFrom(fields, src, 0), ok)
    {
      var field, pData, prevSize := 0, 0, 0;
      ghost var start, done, left := View(), [], EncodeFrom(fields, src, 0);
      while field < |fields|
        invariant 0 <= field <= |fields| && left == EncodeFrom(fields, src, field)
        invariant Valid() && Wrote(start, View(), done, true) && done + left == EncodeFrom(fields, src, 0)
        invariant PointsBehind(fields, field, pData, prevSize)
      {
        pData, prevSize := NextField(fields, field, pData, prevSize);
        ghost var piece, after := Protobuf.EncodeSlot(fields[field], src[field]), EncodeFrom(fields, src, field + 1);
        Joined(done, piece, after);
        ghost var between := View();
        ok := EncodeSlot(fields[field], src[field]);
        WroteBoth(start, between, View(), done, piece, ok);
        if !ok {
          WroteLess(start, View(), done + piece, after);
          return;
        }
        done, left := done + piece, after;
        field := field + 1;
      }
      ok := true;
    }
  }

  /** pData and prev_size as pb_encode leaves them behind the field before i. */
  predicate PointsBehind(fields: seq<Field>, i: nat, pData: int, prevSize: int) {
    if i == 0 then pData == 0 && prevSize == 0
    else i <= |fields| && pData == Address(fields, i - 1) && prevSize == fields[i - 1].dataSize
  }

  /** pb_encode goes on to field i, and finds it where the decoder's iterator does. */
  method NextField(fields: seq<Field>, i: nat, pData: int, prevSize: int) returns (pData': int, prevSize': int)
    requires i < |fields| && PointsBehind(fields, i, pData, prevSize)
    ensures pData' == Address(fields, i) && PointsBehind(fields, i + 1, pData', prevSize')
  {
    pData' := pData + prevSize + fields[i].dataOffset;
    prevSize' := fields[i].dataSize;
  }

  lemma {:induction false} SignBit(n: nat)
    requires n >= 8
    ensures ShiftLeft(0x80, n - 8) == ShiftLeft(1, n - 1)
    decreases n
  {
    if n == 8 {
      ShiftLeftOne(7);
      Pow2Values();
    } else {
      SignBit(n - 1);
    }
  }

  lemma {:induction false} OnesRight(n: nat, k: nat)
    ensures ShiftRight(Ones(n + k), k) == Ones(n)
    decreases k
  {
    if k > 0 { OnesRight(n, k - 1); }
  }

  /** The masks and bit operations of pb_enc_svarint make the zigzag code. */
  lemma ZigZagged(v: nat, n: nat)
    requires 8 <= n <= 64 && v < Pow2(n)
    ensures ZigZag(v, n) == if And(v, ShiftLeft(0x80, n - 8)) != 0 then Or(ShiftLeft(Xor(v, ShiftRight(TWO64 - 1, 64 - n)), 1), 1)
                            else ShiftLeft(v, 1)
  {
    var w := WordIs64();
    SignBit(n);
    AndTop(v, n);
    OnesRight(n, w - n);
    XorOnes(v, n);
    var x := Ones(n) - v;
    OrCommutes(ShiftLeft(x, 1), 1);
    OrAbove(1, x, 1);
  }

  lemma {:induction false} CStringShorter(s: seq<Byte>)
    ensures |CString(s)| <= |s|
  {
    if s != [] && s[0] != 0 { CStringShorter(s[1..]); }
  }

  lemma EightTimes(v: nat)
    ensures ShiftLeft(v, 3) == 8 * v
  {
    assert ShiftLeft(v, 1) == 2 * v;
  }

  lemma Joined(done: seq<Byte>, piece: seq<Byte>, after: seq<Byte>)
    ensures done + (piece + after) == (done + piece) + after
  {
  }

  /** The groups written so far, each with its top bit set, and what is left of the value. */
  ghost predicate Behind(value: nat, done: seq<Byte>, v: nat) {
    if v > 0 then Varint(value) == done + Varint(v)
    else done != [] && done[|done| - 1] >= 128 && Varint(value) == done[..|done| - 1] + [done[|done| - 1] - 128]
  }

  lemma GroupWritten(value: nat, done: seq<Byte>, v: nat)
    requires v > 0 && Behind(value, done, v) && |Varint(value)| <= 10
    ensures |done| < 10 && Behind(value, done + [v % 128 + 128], v / 128)
  {
    var more := done + [v % 128 + 128];
    if v / 128 > 0 {
      assert done + ([v % 128 + 128] + Varint(v / 128)) == more + Varint(v / 128);
    } else {
      assert more[..|more| - 1] == done;
    }
  }

  lemma TopBit(low: nat)
    requires low < 128
    ensures Or(low, ShiftLeft(1, 7)) == low + 128
  {
    SevenShifted(1);
    Pow2Values();
    OrAbove(low, 1, 7);
  }

  /** The loop of pb_encode_varint. */
  method VarintBytes(value: nat) returns (bytes: seq<Byte>)
    requires 0 < value < TWO64
    ensures bytes == Varint(value)
  {
    var buffer := new Byte[10](_ => 0);
    var i: nat, v: nat := 0, value;
    Varint64Length(value);
    while v > 0
      invariant 0 <= i <= 10 && Behind(value, buffer[..i], v)
      decreases v
    {
      ghost var done := buffer[..i];
      TopBit(v % 128);
      GroupWritten(value, done, v);
      buffer[i] := Or(v % 128, ShiftLeft(1, 7));
      i := i + 1;
      assert buffer[..i] == done + [v % 128 + 128];
      v := v / 128;
    }
    ghost var done := buffer[..i];
    buffer[i - 1] := buffer[i - 1] % 128;
    assert buffer[..i] == done[..i - 1] + [done[i - 1] - 128];
    bytes := buffer[..i];
  }
}
