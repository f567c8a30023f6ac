/** The messages between sacd_extract and the server that reads discs
    (libs/libsacd/sacd_ripper.pb.c, libs/libsacd/sacd_input.c). */
module ProtobufServer {
  import opened Bits
  import opened ProtobufWire
  import opened Protobuf
  import opened ProtobufRoundTrip
  import opened ProtobufEncoder

  /** ServerRequest_fields */
  const REQUEST: seq<Field> := [
    Field(1, VarintType, Required, 0, 0, 4, NoDefault),
    Field(2, VarintType, Required, 0, 0, 4, Default(Number(0))),
    Field(3, VarintType, Required, 0, 0, 4, Default(Number(0)))]

  /** ServerResponse_fields, with the structure's layout on 64-bit machines. */
  const RESPONSE: seq<Field> := [
    Field(1, VarintType, Required, 0, 0, 4, NoDefault),
    Field(2, VarintType, Required, 4, 0, 8, NoDefault),
    Field(3, BytesType, Optional, 8, -8, 512 * 2048, NoDefault)]

  const DISC_READ := 3

  function Request(kind: nat, offset: nat, count: nat): seq<Slot> {
    [Slot(false, Number(kind)), Slot(false, Number(offset)), Slot(false, Number(count))]
  }

  /** Only the response to a read request has data. */
  function Response(kind: nat, result: nat, data: Slot): seq<Slot> {
    [Slot(false, Number(kind)), Slot(false, Number(result)), data]
  }

  predicate ResponseData(data: Slot) { data.value.Data? && (data.has ==> |data.value.bytes| <= 512 * 2048) }

  lemma WordSize()
    ensures Pow2(8 * 4) == TWO32 && Pow2(8 * 8) == TWO64
  {
    Pow2Values();
    assert Pow2(40) == 0x100_0000_0000;
    assert Pow2(48) == 0x1_0000_0000_0000;
    assert Pow2(56) == 0x100_0000_0000_0000;
    assert Pow2(64) == TWO64;
  }

  lemma WordHeld(f: Field, n: nat)
    requires f.ltype.VarintType? && f.dataSize == 4 && n < TWO32
    ensures f.Holds(Number(n))
  {
    WordSize();
  }

  lemma LongHeld(f: Field, n: nat)
    requires f.ltype.VarintType? && f.dataSize == 8 && n < TWO64
    ensures f.Holds(Number(n))
  {
    WordSize();
  }

  lemma FieldsHold(a: Field, b: Field, c: Field, x: Slot, y: Slot, z: Slot)
    requires a.Valid() && b.Valid() && c.Valid() && a.tag != b.tag && b.tag != c.tag && a.tag != c.tag
    requires a.Holds(x.value) && b.Holds(y.value) && c.Shaped(z.value) && (z.value.Number? || Present(c, z) ==> c.Holds(z.value))
    ensures ValidFields([a, b, c]) && ValidMessage([a, b, c], [x, y, z])
  {
  }

  lemma RequestValid(kind: nat, offset: nat, count: nat)
    requires kind < TWO32 && offset < TWO32 && count < TWO32
    ensures ValidFields(REQUEST) && ValidMessage(REQUEST, Request(kind, offset, count))
  {
    var m := Request(kind, offset, count);
    WordHeld(REQUEST[0], kind);
    WordHeld(REQUEST[1], offset);
    WordHeld(REQUEST[2], count);
    FieldsHold(REQUEST[0], REQUEST[1], REQUEST[2], m[0], m[1], m[2]);
  }

  lemma ResponseValid(kind: nat, result: nat, data: Slot)
    requires kind < TWO32 && result < TWO64 && ResponseData(data)
    ensures ValidFields(RESPONSE) && ValidMessage(RESPONSE, Response(kind, result, data))
  {
    var m := Response(kind, result, data);
    WordHeld(RESPONSE[0], kind);
    LongHeld(RESPONSE[1], result);
    FieldsHold(RESPONSE[0], RESPONSE[1], RESPONSE[2], m[0], m[1], m[2]);
  }

  lemma RequestBytes(kind: nat, offset: nat, count: nat)
    requires EncodableMessage(REQUEST, Request(kind, offset, count))
    ensures EncodeFrom(REQUEST, Request(kind, offset, count), 0)
         == (Varint(8) + Varint(kind)) + ((Varint(16) + Varint(offset)) + ((Varint(24) + Varint(count)) + []))
  {
    var m := Request(kind, offset, count);
    assert EncodeFrom(REQUEST, m, 3) == [];
    assert EncodeFrom(REQUEST, m, 2) == EncodeSlot(REQUEST[2], m[2]) + EncodeFrom(REQUEST, m, 3);
    assert EncodeFrom(REQUEST, m, 1) == EncodeSlot(REQUEST[1], m[1]) + EncodeFrom(REQUEST, m, 2);
  }

  /** A response on the wire: the keys are 8, 16 and 26, and the data follows its length. */
  lemma ResponseBytes(kind: nat, result: nat, data: Slot)
    requires EncodableMessage(RESPONSE, Response(kind, result, data)) && data.has && data.value.Data?
    ensures EncodeFrom(RESPONSE, Response(kind, result, data), 0)
         == ([8] + Varint(kind)) + (([16] + Varint(result)) + (([26] + (Varint(|data.value.bytes|) + data.value.bytes)) + []))
  {
    var m := Response(kind, result, data);
    assert EncodeFrom(RESPONSE, m, 3) == [];
    assert EncodeFrom(RESPONSE, m, 2) == EncodeSlot(RESPONSE[2], m[2]) + EncodeFrom(RESPONSE, m, 3);
    assert EncodeFrom(RESPONSE, m, 1) == EncodeSlot(RESPONSE[1], m[1]) + EncodeFrom(RESPONSE, m, 2);
  }

  lemma Varint32Length(v: nat)
    requires v < TWO32
    ensures |Varint(v)| <= 5
  {
    assert Range(5) == 0x8_0000_0000;
    VarintLength(v, 5);
  }

  /** A read request and the zero tag behind it fit the 16 bytes of sacd_net_input_read. */
  lemma ReadRequestFits(pos: nat, blocks: nat)
    requires pos < TWO32 && blocks < TWO32
    ensures EncodableMessage(REQUEST, Request(DISC_READ, pos, blocks))
    ensures |EncodeFrom(REQUEST, Request(DISC_READ, pos, blocks), 0)| + 1 <= 15
  {
    RequestValid(DISC_READ, pos, blocks);
    RequestBytes(DISC_READ, pos, blocks);
    Varint32Length(pos);
    Varint32Length(blocks);
  }

  /** And 15 of them are needed for the last sectors of the largest disc a request can name. */
  lemma ReadRequestLargest()
    ensures EncodableMessage(REQUEST, Request(DISC_READ, TWO32 - 1, TWO32 - 1))
    ensures |EncodeFrom(REQUEST, Request(DISC_READ, TWO32 - 1, TWO32 - 1), 0)| + 1 == 15
  {
    var last := TWO32 - 1;
    RequestValid(DISC_READ, last, last);
    RequestBytes(DISC_READ, last, last);
    assert |Varint(0xF)| == 1;
    assert |Varint(0x7FF)| == 2;
    assert |Varint(0x3_FFFF)| == 3;
    assert |Varint(0x1FF_FFFF)| == 4;
    assert |Varint(last)| == 5;
  }

  /** The server reads the request that the client sent, whatever its memory held. */
  lemma RequestArrives(kind: nat, offset: nat, count: nat, dest: seq<Slot>, rest: ByteList)
    requires kind < TWO32 && offset < TWO32 && count < TWO32 && |dest| == 3
    ensures EncodableMessage(REQUEST, Request(kind, offset, count))
    ensures var r := Decode(REQUEST, Put(EncodeFrom(REQUEST, Request(kind, offset, count), 0), More(0, rest)), dest);
            r.Read? && r.rest == rest && Restored(REQUEST, Request(kind, offset, count), r.value)
  {
    RequestValid(kind, offset, count);
    MessageRoundTrip(REQUEST, Request(kind, offset, count), dest, More(0, rest), rest);
  }

  /** And the client reads the response, with the sectors if it has some. */
  lemma ResponseArrives(kind: nat, result: nat, data: Slot, dest: seq<Slot>, rest: ByteList)
    requires kind < TWO32 && result < TWO64 && ResponseData(data) && |dest| == 3
    ensures EncodableMessage(RESPONSE, Response(kind, result, data))
    ensures var r := Decode(RESPONSE, Put(EncodeFrom(RESPONSE, Response(kind, result, data), 0), More(0, rest)), dest);
            r.Read? && r.rest == rest && Restored(RESPONSE, Response(kind, result, data), r.value)
  {
    ResponseValid(kind, result, data);
    MessageRoundTrip(RESPONSE, Response(kind, result, data), dest, More(0, rest), rest);
  }

  /** A request with its zero tag, wherever the server's memory and the stream behind it stand. */
  lemma RequestArrivesAnywhere(kind: nat, offset: nat, count: nat)
    requires kind < TWO32 && offset < TWO32 && count < TWO32
    requires EncodableMessage(REQUEST, Request(kind, offset, count))
    ensures forall dest: seq<Slot>, rest :: |dest| == 3 ==>
      var r := Decode(REQUEST, Put(EncodeFrom(REQUEST, Request(kind, offset, count), 0) + [0], rest), dest);
      r.Read? && r.rest == rest && Restored(REQUEST, Request(kind, offset, count), r.value)
  {
    var encoded := EncodeFrom(REQUEST, Request(kind, offset, count), 0);
    forall dest: seq<Slot>, rest | |dest| == 3
      ensures var r := Decode(REQUEST, Put(encoded + [0], rest), dest);
              r.Read? && r.rest == rest && Restored(REQUEST, Request(kind, offset, count), r.value)
    {
      PutBoth(encoded, [0], rest);
      assert Put([0], rest) == More(0, rest);
      RequestArrives(kind, offset, count, dest, rest);
    }
  }

  method EncodeTerminated(fields: seq<Field>, m: seq<Slot>, size: nat) returns (ok: bool, output: seq<Byte>)
    requires EncodableMessage(fields, m) && forall i :: 0 <= i < |m| && m[i].value.Data? ==> |m[i].value.bytes| < TWO64
    requires |EncodeFrom(fields, m, 0)| < size
    ensures ok && output == EncodeFrom(fields, m, 0) + [0]
  {
    var outputBuf := new Byte[size](_ => 0);
    var stream := new OStream(outputBuf, outputBuf.Length);
    ok := stream.PbEncode(fields, m);
    var zero := stream.Write([0]);
    output := outputBuf[..stream.bytesWritten];
  }

  /** The request that sacd_net_input_read encodes into its 16 bytes, before it sends them: nothing is
      left out, and the server decodes what was asked for. */
  method ReadRequest(pos: int, blocks: int) returns (ok: bool, output: seq<Byte>)
    ensures ok && |output| <= 15
    ensures forall dest: seq<Slot>, rest :: |dest| == 3 ==>
      var r := Decode(REQUEST, Put(output, rest), dest);
      r.Read? && r.rest == rest && Restored(REQUEST, Request(DISC_READ, pos % TWO32, blocks % TWO32), r.value)
  {
    var offset, count := pos % TWO32, blocks % TWO32;
    ReadRequestFits(offset, count);
    RequestArrivesAnywhere(DISC_READ, offset, count);
    ok, output := EncodeTerminated(REQUEST, Request(DISC_READ, offset, count), 16);
  }
}
