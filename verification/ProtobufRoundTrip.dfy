/** Decoding undoes encoding: fields in any order, repeated or mixed with fields the descriptor does
    not know, restore the message, from wherever the field iterator stands. */
module ProtobufRoundTrip {
  import opened Bits
  import opened ProtobufWire
  import opened Protobuf

  // ----- one value -----

  lemma NumberFits(f: Field, n: nat)
    requires f.Valid() && f.Numeric() && n < Pow2(8 * f.dataSize)
    ensures n < TWO64 && 1 <= 8 * f.dataSize <= 64
  {
    var w := WordWidth();
    Pow2Monotone(8 * f.dataSize, w);
  }

  lemma VarintDecodes(f: Field, n: nat, tail: ByteList)
    requires f.Valid() && f.ltype.VarintType? && n < Pow2(8 * f.dataSize)
    ensures DecodeValue(f, Put(Varint(n), tail)) == Read(Number(n), tail)
  {
    NumberFits(f, n);
    VarintRoundTrip(n, tail);
    LowBitsSmall(n, 8 * f.dataSize);
  }

  lemma SvarintDecodes(f: Field, n: nat, tail: ByteList)
    requires f.Valid() && f.ltype.SvarintType? && n < Pow2(8 * f.dataSize)
    ensures DecodeValue(f, Put(Varint(ZigZag(n, 8 * f.dataSize)), tail)) == Read(Number(n), tail)
  {
    NumberFits(f, n);
    ZigZagRoundTrip(n, 8 * f.dataSize);
    VarintRoundTrip(ZigZag(n, 8 * f.dataSize), tail);
  }

  lemma FixedDecodes(n: nat, k: nat, tail: ByteList)
    requires n < Pow2(8 * k)
    ensures DecodeFixed(Put(Fixed(n, k), tail), k) == Read(Number(n), tail)
  {
    ReadBytesPut(Fixed(n, k), tail);
    FixedRoundTrip(n, k);
  }

  lemma DataDecodes(data: seq<Byte>, limit: nat, tail: ByteList)
    requires |data| <= limit && |data| < TWO32
    ensures DecodeData(Put(Delimited(data), tail), limit) == Read(Data(data), tail)
  {
    PutBoth(Varint(|data|), data, tail);
    VarintRoundTrip(|data|, Put(data, tail));
    ReadBytesPut(data, tail);
  }

  lemma {:induction false} CStringWhole(s: seq<Byte>)
    requires 0 !in s
    ensures CString(s) == s
  {
    if s != [] {
      CStringWhole(s[1..]);
      assert s == [s[0]] + s[1..];
    }
  }

  /** A value that its field can hold is read back, and the stream stands behind it. */
  lemma ValueRoundTrip(f: Field, v: Value, tail: ByteList)
    requires f.Valid() && f.Holds(v)
    ensures DecodeValue(f, Put(EncodeValue(f, v), tail)) == Read(v, tail)
  {
    match f.ltype
    case VarintType => VarintDecodes(f, v.n, tail);
    case SvarintType => SvarintDecodes(f, v.n, tail);
    case Fixed32Type => FixedDecodes(v.n, f.dataSize, tail);
    case Fixed64Type => FixedDecodes(v.n, f.dataSize, tail);
    case BytesType => DataDecodes(v.bytes, f.dataSize, tail);
    case StringType =>
      CStringWhole(v.bytes);
      DataDecodes(v.bytes, StringLimit(f.dataSize), tail);
  }

  // ----- the field iterator -----

  /** i, then on and round to the field before start, meets k. */
  predicate Meets(i: nat, start: nat, k: nat) {
    if i < start then i <= k < start else i <= k || k < start
  }

  /** From wherever the iterator stands, it finds the field with the tag. */
  lemma {:induction false} FindsTag(fields: seq<Field>, i: nat, start: nat, k: nat)
    requires ValidFields(fields) && i < |fields| && start < |fields| && k < |fields| && Meets(i, start, k)
    ensures Find(fields, i, start, fields[k].tag) == At(k)
    decreases if i < start then start - i else start + |fields| - i
  {
    if i != k {
      assert fields[i].tag != fields[k].tag;
      FindsTag(fields, Next(fields, i), start, k);
    }
  }

  /** And it finds none when there is none. */
  lemma {:induction false} FindsNone(fields: seq<Field>, i: nat, start: nat, tag: nat)
    requires i < |fields| && start < |fields|
    requires forall k :: 0 <= k < |fields| ==> fields[k].tag != tag
    ensures Find(fields, i, start, tag) == Nowhere
    decreases if i < start then start - i else start + |fields| - i
  {
    if Next(fields, i) != start { FindsNone(fields, Next(fields, i), start, tag); }
  }

  // ----- one field on the wire -----

  /** A field that the descriptor does not know. */
  datatype Body = VarintBody(groups: seq<Byte>) | Word64(word: seq<Byte>) | Chunk(data: seq<Byte>) | Word32(half: seq<Byte>)

  datatype Item = Known(index: nat) | Unknown(number: nat, body: Body)

  predicate ValidBody(b: Body) {
    match b
    case VarintBody(groups) => VarintShaped(groups)
    case Word64(word) => |word| == 8
    case Chunk(data) => |data| < TWO32
    case Word32(half) => |half| == 4
  }

  function BodyWire(b: Body): WireType {
    match b
    case VarintBody(_) => WtVarint
    case Word64(_) => Wt64Bit
    case Chunk(_) => WtString
    case Word32(_) => Wt32Bit
  }

  function BodyBytes(b: Body): seq<Byte> {
    match b
    case VarintBody(groups) => groups
    case Word64(word) => word
    case Chunk(data) => Delimited(data)
    case Word32(half) => half
  }

  function UnknownKey(number: nat, b: Body): nat { 8 * number + WireNumber(BodyWire(b)) }

  predicate ValidItem(fields: seq<Field>, m: seq<Slot>, item: Item)
    requires |m| == |fields|
  {
    match item
    case Known(i) => i < |fields| && Present(fields[i], m[i])
    case Unknown(number, body) =>
      && 0 < UnknownKey(number, body) < TWO32 && ValidBody(body)
      && forall k :: 0 <= k < |fields| ==> fields[k].tag != number
  }

  function ItemBytes(fields: seq<Field>, m: seq<Slot>, item: Item): seq<Byte>
    requires EncodableMessage(fields, m) && ValidItem(fields, m, item)
  {
    match item
    case Known(i) => EncodeField(fields[i], m[i].value)
    case Unknown(number, body) => Varint(UnknownKey(number, body)) + BodyBytes(body)
  }

  /** What the item does to the decoder. */
  function Effect(fields: seq<Field>, m: seq<Slot>, item: Item, s: State): (s': State)
    requires EncodableMessage(fields, m) && ValidItem(fields, m, item) && ValidState(fields, s)
    ensures ValidState(fields, s')
  {
    match item
    case Known(i) => StoreAt(fields, s, i, m[i].value)
    case Unknown(_, _) => s
  }

  lemma BodySkipped(b: Body, tail: ByteList)
    requires ValidBody(b)
    ensures Skip(Put(BodyBytes(b), tail), WireNumber(BodyWire(b))) == Read((), tail)
  {
    match b
    case VarintBody(groups) => SkipVarintPut(groups, tail);
    case Word64(word) => ReadBytesPut(word, tail);
    case Chunk(data) =>
      PutBoth(Varint(|data|), data, tail);
      VarintRoundTrip(|data|, Put(data, tail));
      ReadBytesPut(data, tail);
    case Word32(half) => ReadBytesPut(half, tail);
  }

  lemma KnownDecodes(fields: seq<Field>, m: seq<Slot>, i: nat, tail: ByteList, s: State)
    requires ValidFields(fields) && ValidMessage(fields, m) && ValidState(fields, s)
    requires i < |fields| && Present(fields[i], m[i])
    ensures DecodeNext(fields, Put(EncodeField(fields[i], m[i].value), tail), s)
         == Again(StoreAt(fields, s, i, m[i].value), tail)
  {
    var f, v := fields[i], m[i].value;
    var body := Put(EncodeValue(f, v), tail);
    PutBoth(Varint(Key(f)), EncodeValue(f, v), tail);
    VarintRoundTrip(Key(f), body);
    assert Key(f) / 8 == f.tag;
    FindsTag(fields, s.index, s.index, i);
    ValueRoundTrip(f, v, tail);
  }

  lemma UnknownSkipped(fields: seq<Field>, number: nat, body: Body, tail: ByteList, s: State)
    requires 0 < UnknownKey(number, body) < TWO32 && ValidBody(body) && ValidState(fields, s)
    requires forall k :: 0 <= k < |fields| ==> fields[k].tag != number
    ensures DecodeNext(fields, Put(Varint(UnknownKey(number, body)) + BodyBytes(body), tail), s) == Again(s, tail)
  {
    var key := UnknownKey(number, body);
    PutBoth(Varint(key), BodyBytes(body), tail);
    VarintRoundTrip(key, Put(BodyBytes(body), tail));
    assert key / 8 == number && key % 8 == WireNumber(BodyWire(body));
    FindsNone(fields, s.index, s.index, number);
    BodySkipped(body, tail);
  }

  lemma ItemDecodes(fields: seq<Field>, m: seq<Slot>, item: Item, tail: ByteList, s: State)
    requires ValidFields(fields) && ValidMessage(fields, m) && ValidState(fields, s) && ValidItem(fields, m, item)
    ensures DecodeNext(fields, Put(ItemBytes(fields, m, item), tail), s) == Again(Effect(fields, m, item, s), tail)
  {
    match item
    case Known(i) => KnownDecodes(fields, m, i, tail, s);
    case Unknown(number, body) => UnknownSkipped(fields, number, body, tail, s);
  }

  // ----- all fields on the wire -----

  predicate ValidItems(fields: seq<Field>, m: seq<Slot>, items: seq<Item>)
    requires |m| == |fields|
  {
    forall k :: 0 <= k < |items| ==> ValidItem(fields, m, items[k])
  }

  /** The items one after the other, in front of `tail`. */
  function PutItems(fields: seq<Field>, m: seq<Slot>, items: seq<Item>, tail: ByteList): ByteList
    requires EncodableMessage(fields, m) && ValidItems(fields, m, items)
  {
    if items == [] then tail else Put(ItemBytes(fields, m, items[0]), PutItems(fields, m, items[1..], tail))
  }

  function Effects(fields: seq<Field>, m: seq<Slot>, items: seq<Item>, s: State): (s': State)
    requires EncodableMessage(fields, m) && ValidItems(fields, m, items) && ValidState(fields, s)
    ensures ValidState(fields, s')
  {
    if items == [] then s else Effects(fields, m, items[1..], Effect(fields, m, items[0], s))
  }

  lemma LoopStep(fields: seq<Field>, bytes: ByteList, s: State, s': State, rest: ByteList)
    requires ValidState(fields, s) && DecodeNext(fields, bytes, s) == Again(s', rest)
    ensures DecodeLoop(fields, bytes, s) == DecodeLoop(fields, rest, s')
  {
  }

  lemma {:induction false} ItemsDecode(fields: seq<Field>, m: seq<Slot>, items: seq<Item>, tail: ByteList, s: State)
    requires ValidFields(fields) && ValidMessage(fields, m) && ValidState(fields, s) && ValidItems(fields, m, items)
    ensures DecodeLoop(fields, PutItems(fields, m, items, tail), s)
         == DecodeLoop(fields, tail, Effects(fields, m, items, s))
  {
    if items != [] {
      var rest := PutItems(fields, m, items[1..], tail);
      var s' := Effect(fields, m, items[0], s);
      ItemDecodes(fields, m, items[0], rest, s);
      LoopStep(fields, Put(ItemBytes(fields, m, items[0]), rest), s, s', rest);
      ItemsDecode(fields, m, items[1..], tail, s');
    }
  }

  /** What the items leave in field i. */
  lemma {:induction false} EffectsAt(fields: seq<Field>, m: seq<Slot>, items: seq<Item>, s: State, i: nat)
    requires EncodableMessage(fields, m) && ValidItems(fields, m, items) && ValidState(fields, s) && i < |fields|
    ensures Effects(fields, m, items, s).message[i]
         == if Known(i) in items then Store(fields[i], s.message[i], m[i].value) else s.message[i]
  {
    if items != [] {
      EffectsAt(fields, m, items[1..], Effect(fields, m, items[0], s), i);
      assert items == [items[0]] + items[1..];
    }
  }

  /** One of the items sets bit b of fields_seen. */
  predicate Marks(items: seq<Item>, b: nat) {
    exists k :: 0 <= k < |items| && items[k].Known? && items[k].index % 32 == b
  }

  lemma {:induction false} EffectsSeen(fields: seq<Field>, m: seq<Slot>, items: seq<Item>, s: State, b: nat)
    requires EncodableMessage(fields, m) && ValidItems(fields, m, items) && ValidState(fields, s)
    ensures b in Effects(fields, m, items, s).seen <==> b in s.seen || Marks(items, b)
  {
    if items != [] {
      EffectsSeen(fields, m, items[1..], Effect(fields, m, items[0], s), b);
      assert items == [items[0]] + items[1..];
      if Marks(items[1..], b) {
        var k :| 0 <= k < |items[1..]| && items[1..][k].Known? && items[1..][k].index % 32 == b;
        assert items[k + 1] == items[1..][k];
      }
      if Marks(items, b) {
        var k :| 0 <= k < |items| && items[k].Known? && items[k].index % 32 == b;
        if k > 0 { assert items[1..][k - 1] == items[k]; }
      }
    }
  }

  /** The end of a message: of the stream, or a zero tag with anything behind it. */
  predicate Terminates(tail: ByteList, rest: ByteList) {
    (tail == End && rest == End) || tail == More(0, rest)
  }

  lemma StopsThere(fields: seq<Field>, tail: ByteList, rest: ByteList, s: State)
    requires ValidState(fields, s) && Terminates(tail, rest)
    ensures DecodeLoop(fields, tail, s) == Finish(fields, s.message, s.seen, rest)
  {
    if tail.More? {
      VarintRoundTrip(0, rest);
      assert Put(Varint(0), rest) == tail;
    }
  }

  /** The decoder's start: the defaults in memory, nothing seen, the iterator at some field. */
  function Start(fields: seq<Field>, dest: seq<Slot>, at: nat): State
    requires |dest| == |fields|
  {
    State(Defaults(fields, dest), {}, at)
  }

  /** What the decoder makes of field i: the value on the wire if it is there, and else the default. */
  function Outcome(fields: seq<Field>, m: seq<Slot>, items: seq<Item>, dest: seq<Slot>, i: nat): Slot
    requires |m| == |fields| == |dest| && i < |fields|
  {
    var d := DefaultSlot(fields[i], dest[i]);
    if Known(i) in items then Store(fields[i], d, m[i].value) else d
  }

  /** Each required field's bit is set, be it by another field. */
  predicate AllMarked(fields: seq<Field>, items: seq<Item>) {
    forall i :: 0 <= i < |fields| && fields[i].htype.Required? ==> Marks(items, i % 32)
  }

  lemma EffectsAll(fields: seq<Field>, m: seq<Slot>, items: seq<Item>, dest: seq<Slot>, at: nat)
    requires EncodableMessage(fields, m) && ValidItems(fields, m, items) && |dest| == |fields| && at < |fields|
    ensures var s := Effects(fields, m, items, Start(fields, dest, at));
            && (AllSeen(fields, s.seen) <==> AllMarked(fields, items))
            && forall i :: 0 <= i < |fields| ==> s.message[i] == Outcome(fields, m, items, dest, i)
  {
    var start := Start(fields, dest, at);
    var s := Effects(fields, m, items, start);
    forall i | 0 <= i < |fields|
      ensures s.message[i] == Outcome(fields, m, items, dest, i)
    {
      EffectsAt(fields, m, items, start, i);
    }
    forall i | 0 <= i < |fields|
      ensures i % 32 in s.seen <==> Marks(items, i % 32)
    {
      EffectsSeen(fields, m, items, start, i % 32);
    }
  }

  /** Items are accepted exactly when each required field's bit is set; then every field that one of
      them names is restored, every other has its default, and the stream stands behind the end. */
  lemma ItemsRestore(fields: seq<Field>, m: seq<Slot>, items: seq<Item>, dest: seq<Slot>, at: nat, tail: ByteList, rest: ByteList)
    requires ValidFields(fields) && ValidMessage(fields, m) && |dest| == |fields| && at < |fields|
    requires ValidItems(fields, m, items) && Terminates(tail, rest)
    ensures var r := DecodeLoop(fields, PutItems(fields, m, items, tail), Start(fields, dest, at));
            && (r.Read? <==> AllMarked(fields, items))
            && (r.Read? ==> r.rest == rest && |r.value| == |fields|)
            && (r.Read? ==> forall i :: 0 <= i < |fields| ==> r.value[i] == Outcome(fields, m, items, dest, i))
  {
    var s := Start(fields, dest, at);
    ItemsDecode(fields, m, items, tail, s);
    StopsThere(fields, tail, rest, Effects(fields, m, items, s));
    EffectsAll(fields, m, items, dest, at);
  }

  /** What that is: a field that an item names has the value of the message; another has the default of
      its descriptor, or if that has none what its memory held, and is not there if it is optional. */
  lemma ItemsLeave(fields: seq<Field>, m: seq<Slot>, items: seq<Item>, dest: seq<Slot>, at: nat, tail: ByteList, rest: ByteList, i: nat)
    requires ValidFields(fields) && ValidMessage(fields, m) && |dest| == |fields| && at < |fields| && i < |fields|
    requires ValidItems(fields, m, items) && Terminates(tail, rest)
    requires DecodeLoop(fields, PutItems(fields, m, items, tail), Start(fields, dest, at)).Read?
    ensures var r := DecodeLoop(fields, PutItems(fields, m, items, tail), Start(fields, dest, at)).value;
            && |r| == |fields|
            && r[i].value == (if Known(i) in items then m[i].value
                              else match fields[i].ptr case Default(v) => v case NoDefault => dest[i].value)
            && (fields[i].htype.Optional? ==> (r[i].has <==> Known(i) in items))
  {
    ItemsRestore(fields, m, items, dest, at, tail, rest);
  }

  /** The fields that are present in one structure are present in the other, with the same value. */
  predicate Restored(fields: seq<Field>, m: seq<Slot>, m': seq<Slot>)
    requires |m| == |fields|
  {
    && |m'| == |fields|
    && forall i :: 0 <= i < |fields| ==>
         && (Present(fields[i], m[i]) <==> Present(fields[i], m'[i]))
         && (Present(fields[i], m[i]) ==> m'[i].value == m[i].value)
  }

  /** Every present field is on the wire at least once. */
  predicate Complete(fields: seq<Field>, m: seq<Slot>, items: seq<Item>)
    requires |m| == |fields|
  {
    forall i :: 0 <= i < |fields| && Present(fields[i], m[i]) ==> Known(i) in items
  }

  /** The fields in any order, repeated, mixed with unknown ones, from any start of the iterator:
      the decoder accepts them, restores the message and stops behind it. */
  lemma AnyOrderRestores(fields: seq<Field>, m: seq<Slot>, items: seq<Item>, dest: seq<Slot>, at: nat, tail: ByteList, rest: ByteList)
    requires ValidFields(fields) && ValidMessage(fields, m) && |dest| == |fields| && at < |fields|
    requires ValidItems(fields, m, items) && Terminates(tail, rest)
    requires Complete(fields, m, items)
    ensures var r := DecodeLoop(fields, PutItems(fields, m, items, tail), Start(fields, dest, at));
            r.Read? && r.rest == rest && Restored(fields, m, r.value)
  {
    ItemsRestore(fields, m, items, dest, at, tail, rest);
    forall i | 0 <= i < |fields| && fields[i].htype.Required? ensures Marks(items, i % 32) {
      assert Present(fields[i], m[i]);
      var k :| 0 <= k < |items| && items[k] == Known(i);
    }
    forall i | 0 <= i < |fields| && Known(i) in items ensures Present(fields[i], m[i]) {
      var k :| 0 <= k < |items| && items[k] == Known(i);
    }
  }

  /** Some required field has its bit in common with another field, a multiple of 32 places away. */
  predicate Shares(fields: seq<Field>) {
    exists i, j {:trigger fields[i], fields[j]} ::
      0 <= i < |fields| && 0 <= j < |fields| && i != j && i % 32 == j % 32 && fields[i].htype.Required?
  }

  predicate NamesRequired(fields: seq<Field>, items: seq<Item>) {
    forall i :: 0 <= i < |fields| && fields[i].htype.Required? ==> Known(i) in items
  }

  lemma FewShareNothing(fields: seq<Field>)
    requires |fields| <= 32
    ensures !Shares(fields)
  {
  }

  /** Where no bit is shared, a message without one of its required fields is refused. */
  lemma MissingRefused(fields: seq<Field>, m: seq<Slot>, items: seq<Item>, dest: seq<Slot>, at: nat, tail: ByteList, rest: ByteList)
    requires ValidFields(fields) && ValidMessage(fields, m) && |dest| == |fields| && at < |fields|
    requires ValidItems(fields, m, items) && Terminates(tail, rest) && !Shares(fields)
    ensures DecodeLoop(fields, PutItems(fields, m, items, tail), Start(fields, dest, at)).Read? <==> NamesRequired(fields, items)
  {
    ItemsRestore(fields, m, items, dest, at, tail, rest);
    forall i | 0 <= i < |fields| && fields[i].htype.Required? ensures Marks(items, i % 32) <==> Known(i) in items {
      OwnBit(fields, m, items, i);
    }
  }

  lemma OwnBit(fields: seq<Field>, m: seq<Slot>, items: seq<Item>, i: nat)
    requires |m| == |fields| && i < |fields| && fields[i].htype.Required? && ValidItems(fields, m, items) && !Shares(fields)
    ensures Marks(items, i % 32) <==> Known(i) in items
  {
    if Marks(items, i % 32) {
      var k :| 0 <= k < |items| && items[k].Known? && items[k].index % 32 == i % 32;
      assert ValidItem(fields, m, items[k]);
      var j := items[k].index;
      assert fields[j] == fields[j] && fields[i].htype.Required?;
      assert items[k] == Known(i);
    }
    if Known(i) in items {
      var k :| 0 <= k < |items| && items[k] == Known(i);
    }
  }

  /** A value that every field of the kind can hold. */
  function Empty(f: Field): Value { if f.Numeric() then Number(0) else Data([]) }

  /** And where a required field shares its bit, a message is accepted that lacks only this one: the
      field keeps its default, or whatever its memory held. */
  lemma MissingAccepted(fields: seq<Field>, i: nat, j: nat) returns (m: seq<Slot>, items: seq<Item>)
    requires ValidFields(fields) && i < |fields| && j < |fields| && i != j && i % 32 == j % 32 && fields[i].htype.Required?
    ensures ValidMessage(fields, m) && ValidItems(fields, m, items)
    ensures forall k: nat :: k < |fields| ==> (Known(k) in items <==> k != i)
    ensures forall dest: seq<Slot> :: |dest| == |fields| ==>
      var r := DecodeLoop(fields, PutItems(fields, m, items, End), Start(fields, dest, 0));
      r.Read? && |r.value| == |fields| && r.value[i] == DefaultSlot(fields[i], dest[i])
  {
    m := seq(|fields|, k requires 0 <= k < |fields| => Slot(true, Empty(fields[k])));
    items := seq(|fields| - 1, k requires 0 <= k < |fields| - 1 => Known(if k < i then k else k + 1));
    EmptyMessage(fields, m);
    forall k: nat | k < |fields| ensures Known(k) in items <==> k != i {
      if k < i { assert items[k] == Known(k); }
      if k > i { assert items[k - 1] == Known(k); }
    }
    forall k | 0 <= k < |fields| ensures Marks(items, k % 32) {
      var other := if k == i then j else k;
      assert items[if other < i then other else other - 1].index % 32 == k % 32;
    }
    forall dest: seq<Slot> | |dest| == |fields|
      ensures var r := DecodeLoop(fields, PutItems(fields, m, items, End), Start(fields, dest, 0));
              r.Read? && |r.value| == |fields| && r.value[i] == DefaultSlot(fields[i], dest[i])
    {
      ItemsRestore(fields, m, items, dest, 0, End, End);
      assert Outcome(fields, m, items, dest, i) == DefaultSlot(fields[i], dest[i]);
    }
  }

  lemma EmptyMessage(fields: seq<Field>, m: seq<Slot>)
    requires ValidFields(fields) && |m| == |fields| && forall k :: 0 <= k < |m| ==> m[k].value == Empty(fields[k])
    ensures ValidMessage(fields, m)
  {
  }

  /** Anything that the decoder may be given: fields of a message in any order, from any start of the
      iterator, for any memory. */
  predicate OnWire(fields: seq<Field>, m: seq<Slot>, items: seq<Item>, dest: seq<Slot>, at: nat, tail: ByteList, rest: ByteList) {
    && ValidMessage(fields, m) && |dest| == |fields| && at < |fields|
    && ValidItems(fields, m, items) && Terminates(tail, rest)
  }

  ghost predicate RefusesIncomplete(fields: seq<Field>)
    requires ValidFields(fields)
  {
    forall m, items, dest, at, tail, rest :: OnWire(fields, m, items, dest, at, tail, rest) ==>
      DecodeLoop(fields, PutItems(fields, m, items, tail), Start(fields, dest, at)).Read? ==> NamesRequired(fields, items)
  }

  /** Which descriptors are safe: the decoder refuses every message that lacks a required field exactly
      when no required field shares its bit. */
  lemma RefusedExactly(fields: seq<Field>)
    requires ValidFields(fields)
    ensures RefusesIncomplete(fields) <==> !Shares(fields)
  {
    if Shares(fields) {
      var i, j :| 0 <= i < |fields| && 0 <= j < |fields| && i != j && i % 32 == j % 32 && fields[i].htype.Required?;
      var m, items := MissingAccepted(fields, i, j);
      assert OnWire(fields, m, items, m, 0, End, End);
      assert !NamesRequired(fields, items);
    } else {
      forall m, items, dest, at: nat, tail, rest | OnWire(fields, m, items, dest, at, tail, rest)
        ensures DecodeLoop(fields, PutItems(fields, m, items, tail), Start(fields, dest, at)).Read? ==> NamesRequired(fields, items)
      {
        MissingRefused(fields, m, items, dest, at, tail, rest);
      }
    }
  }

  // ----- pb_encode writes its fields in order -----

  function ItemsFrom(fields: seq<Field>, m: seq<Slot>, i: nat): seq<Item>
    requires |m| == |fields| && i <= |fields|
    decreases |fields| - i
  {
    if i == |fields| then []
    else if Present(fields[i], m[i]) then [Known(i)] + ItemsFrom(fields, m, i + 1)
    else ItemsFrom(fields, m, i + 1)
  }

  lemma {:induction false} ItemsFromPresent(fields: seq<Field>, m: seq<Slot>, i: nat)
    requires |m| == |fields| && i <= |fields|
    ensures ValidItems(fields, m, ItemsFrom(fields, m, i))
    ensures forall k :: i <= k < |fields| && Present(fields[k], m[k]) ==> Known(k) in ItemsFrom(fields, m, i)
    decreases |fields| - i
  {
    if i < |fields| { ItemsFromPresent(fields, m, i + 1); }
  }

  lemma {:induction false} EncodedItems(fields: seq<Field>, m: seq<Slot>, i: nat, tail: ByteList)
    requires EncodableMessage(fields, m) && i <= |fields| && ValidItems(fields, m, ItemsFrom(fields, m, i))
    ensures Put(EncodeFrom(fields, m, i), tail) == PutItems(fields, m, ItemsFrom(fields, m, i), tail)
    decreases |fields| - i
  {
    if i < |fields| {
      ItemsFromPresent(fields, m, i + 1);
      EncodedItems(fields, m, i + 1, tail);
      PutBoth(EncodeSlot(fields[i], m[i]), EncodeFrom(fields, m, i + 1), tail);
      if Present(fields[i], m[i]) {
        assert ItemsFrom(fields, m, i)[1..] == ItemsFrom(fields, m, i + 1);
      }
    }
  }

  /** Decoding what was encoded restores the message, whatever the memory held before. */
  lemma MessageRoundTrip(fields: seq<Field>, m: seq<Slot>, dest: seq<Slot>, tail: ByteList, rest: ByteList)
    requires ValidFields(fields) && ValidMessage(fields, m) && |dest| == |fields| && Terminates(tail, rest)
    ensures var r := Decode(fields, Put(EncodeFrom(fields, m, 0), tail), dest);
            r.Read? && r.rest == rest && Restored(fields, m, r.value)
  {
    ItemsFromPresent(fields, m, 0);
    EncodedItems(fields, m, 0, tail);
    AnyOrderRestores(fields, m, ItemsFrom(fields, m, 0), dest, 0, tail, rest);
  }

  // ----- whatever the bytes -----

  /** The value stays in its field's memory. */
  predicate Stored(f: Field, v: Value) {
    match v
    case Number(n) => f.Numeric() && n < Pow2(8 * f.dataSize)
    case Data(bytes) => !f.Numeric() && |bytes| <= if f.ltype.StringType? then f.dataSize - 1 else f.dataSize
  }

  predicate AllStored(fields: seq<Field>, m: seq<Slot>) {
    |m| == |fields| && forall i :: 0 <= i < |fields| ==> Stored(fields[i], m[i].value)
  }

  lemma ValueStored(f: Field, bytes: ByteList)
    requires f.Valid()
    ensures DecodeValue(f, bytes).Read? ==> Stored(f, DecodeValue(f, bytes).value)
  {
    match f.ltype
    case VarintType =>
      if GetVarint(bytes).Read? { LowBitsBound(GetVarint(bytes).value, 8 * f.dataSize); }
    case SvarintType =>
      if GetVarint(bytes).Read? { LowBitsBound(UnZigZag(GetVarint(bytes).value), 8 * f.dataSize); }
    case Fixed32Type => FixedStored(bytes, f.dataSize);
    case Fixed64Type => FixedStored(bytes, f.dataSize);
    case BytesType =>
    case StringType =>
  }

  lemma FixedStored(bytes: ByteList, n: nat)
    ensures DecodeFixed(bytes, n).Read? ==> DecodeFixed(bytes, n).value.n < Pow2(8 * n)
  {
    var r := ReadBytes(bytes, n);
    if r.Read? { GetFixedBound(r.value); }
  }

  lemma {:induction false} LoopStored(fields: seq<Field>, bytes: ByteList, s: State)
    requires ValidFields(fields) && ValidState(fields, s) && AllStored(fields, s.message)
    ensures DecodeLoop(fields, bytes, s).Read? ==> AllStored(fields, DecodeLoop(fields, bytes, s).value)
    decreases Count(bytes)
  {
    if bytes.More? {
      var t := DecodeNext(fields, bytes, s);
      if t.Again? {
        TurnStored(fields, bytes, s);
        LoopStored(fields, t.rest, t.state);
      }
    }
  }

  lemma TurnStored(fields: seq<Field>, bytes: ByteList, s: State)
    requires ValidFields(fields) && ValidState(fields, s) && AllStored(fields, s.message)
    requires DecodeNext(fields, bytes, s).Again?
    ensures AllStored(fields, DecodeNext(fields, bytes, s).state.message)
  {
    var key := GetVarint32(bytes);
    var found := Find(fields, s.index, s.index, key.value / 8);
    if found.At? { ValueStored(fields[found.index], key.rest); }
  }

  predicate DefaultsStored(fields: seq<Field>) {
    forall i :: 0 <= i < |fields| && fields[i].ptr.Default? ==> Stored(fields[i], fields[i].ptr.value)
  }

  /** No string has a zero in it. */
  predicate NoZeros(fields: seq<Field>, m: seq<Slot>)
    requires AllStored(fields, m)
  {
    forall i :: 0 <= i < |fields| && fields[i].ltype.StringType? ==> 0 !in m[i].value.bytes
  }

  /** Whatever bytes are accepted, every field stays within its memory, and unless a string holds a
      zero the message survives being encoded and decoded again. */
  lemma AcceptedStays(fields: seq<Field>, bytes: ByteList, dest: seq<Slot>, dest': seq<Slot>)
    requires ValidFields(fields) && AllStored(fields, dest) && DefaultsStored(fields) && |dest'| == |fields|
    requires Decode(fields, bytes, dest).Read?
    ensures var m := Decode(fields, bytes, dest).value;
            && AllStored(fields, m)
            && (NoZeros(fields, m) ==>
                  && EncodableMessage(fields, m)
                  && var r := Decode(fields, Put(EncodeFrom(fields, m, 0), End), dest'); r.Read? && Restored(fields, m, r.value))
  {
    LoopStored(fields, bytes, State(Defaults(fields, dest), {}, 0));
    var m := Decode(fields, bytes, dest).value;
    if NoZeros(fields, m) {
      StoredValid(fields, m);
      MessageRoundTrip(fields, m, dest', End, End);
    }
  }

  lemma StoredValid(fields: seq<Field>, m: seq<Slot>)
    requires ValidFields(fields) && AllStored(fields, m) && NoZeros(fields, m)
    ensures ValidMessage(fields, m)
  {
  }
}
