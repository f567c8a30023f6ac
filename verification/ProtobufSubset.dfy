/** Receivers that know only some of the sender's fields: what pb_encode writes says how to skip it,
    so the fields that both know arrive. */
module ProtobufSubset {
  import opened Bits
  import opened ProtobufWire
  import opened Protobuf
  import opened ProtobufRoundTrip

  lemma {:induction false} VarintIsShaped(v: nat)
    ensures VarintShaped(Varint(v))
  {
    if v >= 128 {
      VarintIsShaped(v / 128);
      var rest := Varint(v / 128);
      assert Varint(v) == [v % 128 + 128] + rest;
      forall i | 0 <= i < |Varint(v)| - 1 ensures Varint(v)[i] >= 128 {
        if i > 0 { assert Varint(v)[i] == rest[i - 1]; }
      }
    }
  }

  lemma {:induction false} CStringNoLonger(s: seq<Byte>)
    ensures |CString(s)| <= |s|
  {
    if s != [] && s[0] != 0 { CStringNoLonger(s[1..]); }
  }

  /** A string ends at its first zero, whatever stands behind it. */
  lemma {:induction false} CStringEnds(s: seq<Byte>, behind: seq<Byte>)
    requires 0 !in s
    ensures CString(s + [0] + behind) == s
  {
    var all := s + [0] + behind;
    if s != [] {
      assert all[1..] == s[1..] + [0] + behind;
      CStringEnds(s[1..], behind);
    } else {
      assert all[0] == 0;
    }
  }

  /** The wire types of Protocol Buffers. */
  lemma KeyParts(f: Field)
    ensures Key(f) / 8 == f.tag
    ensures Key(f) % 8 == match f.ltype
                          case VarintType | SvarintType => 0
                          case Fixed64Type => 1
                          case BytesType | StringType => 2
                          case Fixed32Type => 5
  {
  }

  predicate Sized(v: Value) { v.Data? ==> |v.bytes| < TWO32 }

  /** What an encoded value looks like to who does not know its field. */
  function AsBody(f: Field, v: Value): Body
    requires Encodable(f, v)
  {
    match f.ltype
    case VarintType => VarintBody(Varint(v.n))
    case SvarintType => VarintBody(Varint(ZigZag(v.n, 8 * f.dataSize)))
    case Fixed32Type => Word32(Fixed(v.n, f.dataSize))
    case Fixed64Type => Word64(Fixed(v.n, f.dataSize))
    case BytesType => Chunk(v.bytes)
    case StringType => Chunk(CString(v.bytes))
  }

  lemma BodyIsValue(f: Field, v: Value)
    requires Encodable(f, v) && Sized(v)
    ensures ValidBody(AsBody(f, v)) && BodyBytes(AsBody(f, v)) == EncodeValue(f, v) && UnknownKey(f.tag, AsBody(f, v)) == Key(f)
  {
    match f.ltype
    case VarintType => VarintIsShaped(v.n);
    case SvarintType => VarintIsShaped(ZigZag(v.n, 8 * f.dataSize));
    case StringType => CStringNoLonger(v.bytes);
    case _ =>
  }

  /** An encoded value can be skipped by the wire type of its key. */
  lemma EncodedSkips(f: Field, v: Value, tail: ByteList)
    requires Encodable(f, v) && Sized(v)
    ensures Skip(Put(EncodeValue(f, v), tail), Key(f) % 8) == Read((), tail)
  {
    var b := AsBody(f, v);
    BodyIsValue(f, v);
    BodySkipped(b, tail);
    WireOfKey(f.tag, WireNumber(BodyWire(b)), Key(f));
  }

  lemma WireOfKey(tag: nat, wire: nat, key: nat)
    requires key == 8 * tag + wire && wire < 8
    ensures key % 8 == wire
  {
  }

  // ----- some of the fields -----

  /** The fields that the receiver knows, in its own order. */
  predicate Picks(pick: seq<nat>, n: nat) {
    && pick != [] && (forall j :: 0 <= j < |pick| ==> pick[j] < n)
    && (forall i, j :: 0 <= i < j < |pick| ==> pick[i] != pick[j])
  }

  function Picked<X>(xs: seq<X>, pick: seq<nat>): (ys: seq<X>)
    requires forall j :: 0 <= j < |pick| ==> pick[j] < |xs|
    ensures |ys| == |pick|
  {
    seq(|pick|, j requires 0 <= j < |pick| => xs[pick[j]])
  }

  /** Where the receiver has field i, or behind its last field. */
  function PlaceOf(pick: seq<nat>, i: nat): (j: nat)
    ensures j <= |pick| && (j < |pick| ==> pick[j] == i) && (forall k :: 0 <= k < j ==> pick[k] != i)
  {
    if pick == [] || pick[0] == i then 0 else 1 + PlaceOf(pick[1..], i)
  }

  lemma PickedValid(fields: seq<Field>, m: seq<Slot>, pick: seq<nat>)
    requires ValidFields(fields) && ValidMessage(fields, m) && Picks(pick, |fields|)
    ensures ValidFields(Picked(fields, pick)) && ValidMessage(Picked(fields, pick), Picked(m, pick))
  {
    var mine := Picked(fields, pick);
    forall i, j | 0 <= i < j < |mine| ensures mine[i].tag != mine[j].tag {
      assert pick[i] != pick[j];
    }
  }

  /** The fields from i on as the receiver sees them. */
  function Seen(fields: seq<Field>, m: seq<Slot>, pick: seq<nat>, i: nat): seq<Item>
    requires EncodableMessage(fields, m) && i <= |fields|
    decreases |fields| - i
  {
    if i == |fields| then []
    else if !Present(fields[i], m[i]) then Seen(fields, m, pick, i + 1)
    else
      var j := PlaceOf(pick, i);
      [if j < |pick| then Known(j) else Unknown(fields[i].tag, AsBody(fields[i], m[i].value))] + Seen(fields, m, pick, i + 1)
  }

  lemma ValueSized(f: Field, v: Value)
    requires f.Valid() && f.Holds(v)
    ensures Sized(v)
  {
  }

  lemma SeenItem(fields: seq<Field>, m: seq<Slot>, pick: seq<nat>, i: nat)
    requires ValidFields(fields) && ValidMessage(fields, m) && Picks(pick, |fields|) && i < |fields| && Present(fields[i], m[i])
    ensures var mine, view, j := Picked(fields, pick), Picked(m, pick), PlaceOf(pick, i);
            var item := if j < |pick| then Known(j) else Unknown(fields[i].tag, AsBody(fields[i], m[i].value));
            && EncodableMessage(mine, view) && ValidItem(mine, view, item)
            && ItemBytes(mine, view, item) == EncodeField(fields[i], m[i].value)
  {
    PickedValid(fields, m, pick);
    ValueSized(fields[i], m[i].value);
    BodyIsValue(fields[i], m[i].value);
    var mine := Picked(fields, pick);
    if PlaceOf(pick, i) == |pick| {
      forall k | 0 <= k < |mine| ensures mine[k].tag != fields[i].tag {
        assert pick[k] != i;
      }
    }
  }

  /** The sender's bytes are those items, each valid for the receiver; every field that both know is
      among them if it is present. */
  lemma {:induction false} SeenEncoded(fields: seq<Field>, m: seq<Slot>, pick: seq<nat>, i: nat, tail: ByteList)
    requires ValidFields(fields) && ValidMessage(fields, m) && Picks(pick, |fields|) && i <= |fields|
    ensures var mine, view, items := Picked(fields, pick), Picked(m, pick), Seen(fields, m, pick, i);
            && EncodableMessage(mine, view) && ValidItems(mine, view, items)
            && Put(EncodeFrom(fields, m, i), tail) == PutItems(mine, view, items, tail)
            && forall j :: 0 <= j < |pick| && pick[j] >= i && Present(mine[j], view[j]) ==> Known(j) in items
    decreases |fields| - i
  {
    PickedValid(fields, m, pick);
    if i < |fields| {
      SeenEncoded(fields, m, pick, i + 1, tail);
      PutBoth(EncodeSlot(fields[i], m[i]), EncodeFrom(fields, m, i + 1), tail);
      SeenOne(fields, m, pick, i, tail);
    }
  }

  lemma SeenOne(fields: seq<Field>, m: seq<Slot>, pick: seq<nat>, i: nat, tail: ByteList)
    requires ValidFields(fields) && ValidMessage(fields, m) && Picks(pick, |fields|) && i < |fields|
    requires var mine, view, items := Picked(fields, pick), Picked(m, pick), Seen(fields, m, pick, i + 1);
             && EncodableMessage(mine, view) && ValidItems(mine, view, items)
             && forall j :: 0 <= j < |pick| && pick[j] >= i + 1 && Present(mine[j], view[j]) ==> Known(j) in items
    ensures var mine, view, items, rest := Picked(fields, pick), Picked(m, pick), Seen(fields, m, pick, i), Seen(fields, m, pick, i + 1);
            && ValidItems(mine, view, items)
            && PutItems(mine, view, items, tail) == Put(EncodeSlot(fields[i], m[i]), PutItems(mine, view, rest, tail))
            && forall j :: 0 <= j < |pick| && pick[j] >= i && Present(mine[j], view[j]) ==> Known(j) in items
  {
    if Present(fields[i], m[i]) {
      SeenItem(fields, m, pick, i);
      var items, rest := Seen(fields, m, pick, i), Seen(fields, m, pick, i + 1);
      assert items[1..] == rest;
      forall j | 0 <= j < |pick| && pick[j] == i ensures Known(j) in items {
        assert PlaceOf(pick, i) == j;
        assert items[0] == Known(j);
      }
    }
  }

  /** A receiver that knows some of the sender's fields, in any order, restores these, and the others
      do it no harm. */
  lemma SubsetRoundTrip(fields: seq<Field>, m: seq<Slot>, pick: seq<nat>, dest: seq<Slot>, tail: ByteList, rest: ByteList)
    requires ValidFields(fields) && ValidMessage(fields, m) && Picks(pick, |fields|) && |dest| == |pick| && Terminates(tail, rest)
    ensures var mine := Picked(fields, pick);
            var r := Decode(mine, Put(EncodeFrom(fields, m, 0), tail), dest);
            r.Read? && r.rest == rest && Restored(mine, Picked(m, pick), r.value)
  {
    PickedValid(fields, m, pick);
    SeenEncoded(fields, m, pick, 0, tail);
    AnyOrderRestores(Picked(fields, pick), Picked(m, pick), Seen(fields, m, pick, 0), dest, 0, tail, rest);
  }
}
