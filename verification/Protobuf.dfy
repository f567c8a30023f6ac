/** Descriptors, messages and what pb_encode and pb_decode make of them
    (libs/libcommon/pb_encode.c and pb_decode.c), for required and optional scalars, bytes and strings. */
module Protobuf {
  import opened Bits
  import opened ProtobufWire

  datatype LType = VarintType | SvarintType | Fixed32Type | Fixed64Type | BytesType | StringType
  datatype HType = Required | Optional

  /** A field's memory: dataSize bytes of a number, lowest first; or the size and the bytes of a
      pb_bytes_array_t; or the characters of a string before the terminator that pb_dec_string writes. */
  datatype Value = Number(n: nat) | Data(bytes: seq<Byte>)
  datatype Default = NoDefault | Default(value: Value)

  /** pb_field_t */
  datatype Field = Field(tag: nat, ltype: LType, htype: HType, dataOffset: nat, sizeOffset: int, dataSize: nat, ptr: Default)
  {
    predicate Numeric() { !ltype.BytesType? && !ltype.StringType? }

    /** What the generated descriptors declare. */
    predicate Valid() {
      && 1 <= tag < 256 && dataSize < TWO32
      && (ltype.VarintType? || ltype.SvarintType? ==> 1 <= dataSize <= 8)
      && (ltype.Fixed32Type? ==> dataSize == 4)
      && (ltype.Fixed64Type? ==> dataSize == 8)
      && (ltype.StringType? ==> dataSize >= 1)
    }

    /** The value is one that the field's memory can hold, and a string ends where it ends. */
    predicate Holds(v: Value) {
      match v
      case Number(n) => Numeric() && n < Pow2(8 * dataSize)
      case Data(bytes) =>
        || (ltype.BytesType? && |bytes| <= dataSize)
        || (ltype.StringType? && |bytes| < dataSize && 0 !in bytes)
    }

    predicate Shaped(v: Value) { v.Number? == Numeric() }
  }

  /** A field of the structure, with its has_ flag if it is optional. */
  datatype Slot = Slot(has: bool, value: Value)

  predicate ValidFields(fields: seq<Field>) {
    && |fields| >= 1
    && (forall i :: 0 <= i < |fields| ==> fields[i].Valid())
    && (forall i, j :: 0 <= i < j < |fields| ==> fields[i].tag != fields[j].tag)
  }

  predicate Present(f: Field, slot: Slot) { f.htype.Required? || slot.has }

  // ----- pb_encode -----

  datatype WireType = WtVarint | Wt64Bit | WtString | Wt32Bit

  function WireOf(ltype: LType): WireType {
    match ltype
    case VarintType | SvarintType => WtVarint
    case Fixed32Type => Wt32Bit
    case Fixed64Type => Wt64Bit
    case BytesType | StringType => WtString
  }

  function WireNumber(w: WireType): nat {
    match w
    case WtVarint => 0
    case Wt64Bit => 1
    case WtString => 2
    case Wt32Bit => 5
  }

  function Key(f: Field): nat { 8 * f.tag + WireNumber(WireOf(f.ltype)) }

  /** The characters before the first zero, which strlen counts. */
  function CString(s: seq<Byte>): seq<Byte> {
    if s == [] || s[0] == 0 then [] else [s[0]] + CString(s[1..])
  }

  function Delimited(data: seq<Byte>): seq<Byte> { Varint(|data|) + data }

  /** The kind of memory that the field has. */
  predicate Encodable(f: Field, v: Value) {
    f.Valid() && f.Shaped(v) && (v.Number? ==> v.n < Pow2(8 * f.dataSize))
  }

  function EncodeValue(f: Field, v: Value): seq<Byte>
    requires Encodable(f, v)
  {
    match f.ltype
    case VarintType => Varint(v.n)
    case SvarintType => Varint(ZigZag(v.n, 8 * f.dataSize))
    case Fixed32Type => Fixed(v.n, f.dataSize)
    case Fixed64Type => Fixed(v.n, f.dataSize)
    case BytesType => Delimited(v.bytes)
    case StringType => Delimited(CString(v.bytes))
  }

  function EncodeField(f: Field, v: Value): seq<Byte>
    requires Encodable(f, v)
  {
    Varint(Key(f)) + EncodeValue(f, v)
  }

  predicate EncodableMessage(fields: seq<Field>, m: seq<Slot>) {
    |m| == |fields| && forall i :: 0 <= i < |fields| ==> Encodable(fields[i], m[i].value)
  }

  function EncodeSlot(f: Field, slot: Slot): seq<Byte>
    requires Encodable(f, slot.value)
  {
    if Present(f, slot) then EncodeField(f, slot.value) else []
  }

  /** The fields from i on, in the descriptor's order. */
  function EncodeFrom(fields: seq<Field>, m: seq<Slot>, i: nat): seq<Byte>
    requires EncodableMessage(fields, m) && i <= |fields|
    decreases |fields| - i
  {
    if i == |fields| then [] else EncodeSlot(fields[i], m[i]) + EncodeFrom(fields, m, i + 1)
  }

  /** A structure whose present fields are in order. */
  predicate ValidMessage(fields: seq<Field>, m: seq<Slot>) {
    && EncodableMessage(fields, m)
    && forall i :: 0 <= i < |fields| && Present(fields[i], m[i]) ==> fields[i].Holds(m[i].value)
  }

  // ----- pb_decode -----

  datatype Found = Nowhere | At(index: nat)

  /** pb_field_next: behind the last field comes the first. */
  function Next(fields: seq<Field>, i: nat): nat {
    if i + 1 >= |fields| then 0 else i + 1
  }

  /** pb_field_find from field i on, for an iterator that stood at `start`. */
  function Find(fields: seq<Field>, i: nat, start: nat, tag: nat): (r: Found)
    requires i < |fields| && start < |fields|
    ensures r.At? ==> r.index < |fields| && fields[r.index].tag == tag
    decreases if i < start then start - i else start + |fields| - i
  {
    if fields[i].tag == tag then At(i)
    else if Next(fields, i) == start then Nowhere
    else Find(fields, Next(fields, i), start, tag)
  }

  function SkipString(bytes: ByteList): (r: Reading<()>)
    ensures r.Read? ==> Count(r.rest) < Count(bytes)
  {
    match GetVarint32(bytes)
    case Failed(rest) => Failed(rest)
    case Read(n, rest) =>
      match ReadBytes(rest, n)
      case Failed(_) => Failed(rest)
      case Read(_, end) => Read((), end)
  }

  function SkipWord(bytes: ByteList, n: nat): (r: Reading<()>)
    ensures r.Read? ==> Count(r.rest) <= Count(bytes)
  {
    match ReadBytes(bytes, n)
    case Failed(_) => Failed(bytes)
    case Read(_, rest) => Read((), rest)
  }

  function Skip(bytes: ByteList, wire: nat): (r: Reading<()>)
    ensures r.Read? ==> Count(r.rest) <= Count(bytes)
  {
    if wire == WireNumber(WtVarint) then SkipVarint(bytes)
    else if wire == WireNumber(Wt64Bit) then SkipWord(bytes, 8)
    else if wire == WireNumber(WtString) then SkipString(bytes)
    else if wire == WireNumber(Wt32Bit) then SkipWord(bytes, 4)
    else Failed(bytes)
  }

  /** The bound on a string's size, in 32 bits. */
  function StringLimit(dataSize: nat): nat { (dataSize + (TWO32 - 1)) % TWO32 }

  function DecodeData(bytes: ByteList, limit: nat): (r: Reading<Value>)
    ensures r.Read? ==> Count(r.rest) < Count(bytes) && r.value.Data? && |r.value.bytes| <= limit
  {
    match GetVarint32(bytes)
    case Failed(rest) => Failed(rest)
    case Read(size, rest) =>
      if size > limit then Failed(rest)
      else
        match ReadBytes(rest, size)
        case Failed(_) => Failed(rest)
        case Read(data, end) => Read(Data(data), end)
  }

  function DecodeFixed(bytes: ByteList, n: nat): (r: Reading<Value>)
    ensures r.Read? ==> Count(r.rest) <= Count(bytes) && r.value.Number?
  {
    match ReadBytes(bytes, n)
    case Failed(_) => Failed(bytes)
    case Read(data, rest) => Read(Number(GetFixed(data)), rest)
  }

  /** The decoders of PB_DECODERS: the field's type decides, whatever the wire type says. */
  function DecodeValue(f: Field, bytes: ByteList): (r: Reading<Value>)
    ensures r.Read? ==> Count(r.rest) <= Count(bytes) && f.Shaped(r.value)
  {
    match f.ltype
    case VarintType =>
      (match GetVarint(bytes)
       case Failed(rest) => Failed(rest)
       case Read(v, rest) => Read(Number(LowBits(v, 8 * f.dataSize)), rest))
    case SvarintType =>
      (match GetVarint(bytes)
       case Failed(rest) => Failed(rest)
       case Read(v, rest) => Read(Number(LowBits(UnZigZag(v), 8 * f.dataSize)), rest))
    case Fixed32Type => DecodeFixed(bytes, 4)
    case Fixed64Type => DecodeFixed(bytes, 8)
    case BytesType => DecodeData(bytes, f.dataSize)
    case StringType => DecodeData(bytes, StringLimit(f.dataSize))
  }

  /** The structure so far, the bits set in fields_seen, and the field the iterator stands at. */
  datatype State = State(message: seq<Slot>, seen: set<nat>, index: nat)

  predicate ValidState(fields: seq<Field>, s: State) {
    |s.message| == |fields| && s.index < |fields|
  }

  datatype Turn = Again(state: State, rest: ByteList) | Stop(rest: ByteList) | Broken

  function Store(f: Field, slot: Slot, v: Value): Slot {
    Slot(f.htype.Optional? || slot.has, v)
  }

  function StoreAt(fields: seq<Field>, s: State, i: nat, v: Value): (s': State)
    requires ValidState(fields, s) && i < |fields|
    ensures ValidState(fields, s')
  {
    State(s.message[i := Store(fields[i], s.message[i], v)], s.seen + {i % 32}, i)
  }

  /** A turn of the loop of pb_decode behind the field's key. */
  function DecodeKeyed(fields: seq<Field>, key: nat, bytes: ByteList, s: State): (t: Turn)
    requires ValidState(fields, s)
    ensures t.Again? ==> ValidState(fields, t.state) && Count(t.rest) <= Count(bytes)
  {
    match Find(fields, s.index, s.index, key / 8)
    case Nowhere =>
      (match Skip(bytes, key % 8)
       case Failed(_) => Broken
       case Read(_, end) => Again(s, end))
    case At(i) =>
      (match DecodeValue(fields[i], bytes)
       case Failed(_) => Broken
       case Read(v, end) => Again(StoreAt(fields, s, i, v), end))
  }

  /** One turn of the loop of pb_decode. */
  function DecodeNext(fields: seq<Field>, bytes: ByteList, s: State): (t: Turn)
    requires ValidState(fields, s)
    ensures t.Again? ==> ValidState(fields, t.state) && Count(t.rest) < Count(bytes)
  {
    match GetVarint32(bytes)
    case Failed(rest) => if rest.End? then Stop(rest) else Broken
    case Read(key, rest) => if key == 0 then Stop(rest) else DecodeKeyed(fields, key, rest, s)
  }

  /** Every required field has its bit; fields 32 apart share one. */
  predicate AllSeen(fields: seq<Field>, seen: set<nat>) {
    forall i :: 0 <= i < |fields| && fields[i].htype.Required? ==> i % 32 in seen
  }

  function Finish(fields: seq<Field>, message: seq<Slot>, seen: set<nat>, rest: ByteList): Reading<seq<Slot>> {
    if AllSeen(fields, seen) then Read(message, rest) else Failed(rest)
  }

  /** The loop of pb_decode and the check behind it. */
  function DecodeLoop(fields: seq<Field>, bytes: ByteList, s: State): Reading<seq<Slot>>
    requires ValidState(fields, s)
    decreases Count(bytes)
  {
    if bytes.End? then Finish(fields, s.message, s.seen, bytes)
    else
      match DecodeNext(fields, bytes, s)
      case Broken => Failed(bytes)
      case Stop(rest) => Finish(fields, s.message, s.seen, rest)
      case Again(s', rest) => DecodeLoop(fields, rest, s')
  }

  /** pb_message_set_to_defaults on one field. */
  function DefaultSlot(f: Field, slot: Slot): Slot {
    Slot(slot.has && f.htype.Required?, if f.ptr.Default? then f.ptr.value else slot.value)
  }

  function Defaults(fields: seq<Field>, m: seq<Slot>): (d: seq<Slot>)
    requires |m| == |fields|
    ensures |d| == |m|
  {
    seq(|m|, i requires 0 <= i < |m| => DefaultSlot(fields[i], m[i]))
  }

  /** pb_decode into a structure whose memory holds m. */
  function Decode(fields: seq<Field>, bytes: ByteList, m: seq<Slot>): Reading<seq<Slot>>
    requires |m| == |fields| && |fields| >= 1
  {
    DecodeLoop(fields, bytes, State(Defaults(fields, m), {}, 0))
  }
}
