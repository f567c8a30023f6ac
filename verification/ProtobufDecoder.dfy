/** The field iterator and the loop of libs/libcommon/pb_decode.c, against the functions of Protobuf. */
module ProtobufDecoder {
  import opened ProtobufWire
  import opened Protobuf
  import opened ProtobufInput

  /** Where field i lies in the structure: behind its predecessor, by its data_offset. */
  function Address(fields: seq<Field>, i: nat): nat
    requires i < |fields|
  {
    (if i == 0 then 0 else Address(fields, i - 1) + fields[i - 1].dataSize) + fields[i].dataOffset
  }

  /** The sum of the first n numbers. */
  function Sum(xs: seq<nat>, n: nat): nat
    requires n <= |xs|
  {
    if n == 0 then 0 else Sum(xs, n - 1) + xs[n - 1]
  }

  function Offsets(fields: seq<Field>): seq<nat> { seq(|fields|, i requires 0 <= i < |fields| => fields[i].dataOffset) }

  function Sizes(fields: seq<Field>): seq<nat> { seq(|fields|, i requires 0 <= i < |fields| => fields[i].dataSize) }

  /** A field lies behind the gaps up to it and the fields before it. */
  lemma {:induction false} AddressSums(fields: seq<Field>, i: nat)
    requires i < |fields|
    ensures Address(fields, i) == Sum(Offsets(fields), i + 1) + Sum(Sizes(fields), i)
  {
    if i > 0 { AddressSums(fields, i - 1); }
  }

  /** No field overlaps another. */
  lemma {:induction false} FieldsApart(fields: seq<Field>, i: nat, j: nat)
    requires i < j < |fields|
    ensures Address(fields, i) + fields[i].dataSize <= Address(fields, j)
    decreases j
  {
    if i < j - 1 { FieldsApart(fields, i, j - 1); }
  }

  /** pb_field_iterator_t */
  class FieldIterator {
    const fields: seq<Field>
    var current: nat
    var fieldIndex: nat
    var pData: int
    var pSize: int

    /** The iterator stands at a field, and points at its memory and at its flag. */
    ghost predicate Valid()
      reads this
    {
      && current == fieldIndex < |fields|
      && pData == Address(fields, current)
      && pSize == pData + fields[current].sizeOffset
    }

    /** pb_field_init */
    constructor (fields: seq<Field>)
      requires |fields| >= 1
      ensures Valid() && this.fields == fields && fieldIndex == 0
    {
      this.fields, current, fieldIndex := fields, 0, 0;
      pData := fields[0].dataOffset;
      pSize := fields[0].dataOffset + fields[0].sizeOffset;
    }

    /** pb_field_next */
    method Next() returns (notwrapped: bool)
      requires Valid()
      modifies this
      ensures Valid() && fieldIndex == Protobuf.Next(fields, old(fieldIndex))
      ensures notwrapped <==> fieldIndex != 0
    {
      notwrapped := true;
      var prevSize := fields[current].dataSize;
      current := current + 1;
      fieldIndex := fieldIndex + 1;
      if current == |fields| {
        current, fieldIndex, pData, prevSize := 0, 0, 0, 0;
        notwrapped := false;
      }
      pData := pData + prevSize + fields[current].dataOffset;
      pSize := pData + fields[current].sizeOffset;
    }

    /** pb_field_find: goes round once, and stands where it stood if it finds none. */
    method Find(tag: nat) returns (found: bool)
      requires Valid()
      modifies this
      ensures Valid()
      ensures Protobuf.Find(fields, old(fieldIndex), old(fieldIndex), tag) == if found then At(fieldIndex) else Nowhere
      ensures !found ==> fieldIndex == old(fieldIndex)
    {
      var start := fieldIndex;
      var more := true;
      while more
        invariant Valid()
        invariant Protobuf.Find(fields, start, start, tag) == if more then Protobuf.Find(fields, fieldIndex, start, tag) else Nowhere
        invariant !more ==> fieldIndex == start
        decreases more, if fieldIndex < start then start - fieldIndex else start + |fields| - fieldIndex
      {
        if fields[current].tag == tag { return true; }
        var notwrapped := Next();
        more := fieldIndex != start;
      }
      found := false;
    }
  }

  /** pb_message_set_to_defaults */
  method SetToDefaults(fields: seq<Field>, dest: array<Slot>)
    requires dest.Length == |fields| >= 1
    modifies dest
    ensures dest[..] == Defaults(fields, old(dest[..]))
  {
    var iter := new FieldIterator(fields);
    var more := true;
    while more
      invariant iter.Valid() && iter.fields == fields && (!more ==> iter.fieldIndex == 0)
      invariant forall i :: 0 <= i < |fields| ==>
        dest[i] == if !more || i < iter.fieldIndex then DefaultSlot(fields[i], old(dest[i])) else old(dest[i])
      decreases more, |fields| - iter.fieldIndex
    {
      var i := iter.fieldIndex;
      var slot := dest[i];
      if fields[i].htype.Optional? { slot := slot.(has := false); }
      if fields[i].ptr.Default? { slot := slot.(value := fields[i].ptr.value); }
      dest[i] := slot;
      more := iter.Next();
    }
  }

  /** decode_field for required and optional fields. */
  method DecodeField(stream: IStream, iter: FieldIterator, dest: array<Slot>) returns (ok: bool)
    requires stream.Valid() && iter.Valid() && dest.Length == |iter.fields|
    modifies stream, dest
    ensures stream.Valid() && (ok <==> DecodeValue(iter.fields[iter.fieldIndex], old(stream.Rest())).Read?)
    ensures ok ==> var i := iter.fieldIndex; var r := DecodeValue(iter.fields[i], old(stream.Rest()));
              stream.Rest() == r.rest && dest[..] == old(dest[..])[i := Store(iter.fields[i], old(dest[i]), r.value)]
  {
    var i := iter.fieldIndex;
    var f := iter.fields[iter.current];
    var v;
    match f.htype {
      case Required =>
      case Optional => dest[i] := dest[i].(has := true);
    }
    ok, v := stream.DecodeValue(f);
    if ok { dest[i] := dest[i].(value := v); }
  }

  /** The body of the loop of pb_decode behind the key. */
  method DecodeKeyed(stream: IStream, iter: FieldIterator, dest: array<Slot>, seen: set<nat>, key: nat) returns (ok: bool, seen': set<nat>)
    requires stream.Valid() && iter.Valid() && dest.Length == |iter.fields|
    modifies stream, iter, dest
    ensures stream.Valid() && iter.Valid()
    ensures Protobuf.DecodeKeyed(iter.fields, key, old(stream.Rest()), State(old(dest[..]), seen, old(iter.fieldIndex)))
         == if ok then Again(State(dest[..], seen', iter.fieldIndex), stream.Rest()) else Broken
  {
    seen' := seen;
    var found := iter.Find(key / 8);
    if !found {
      ok := stream.Skip(key % 8);
    } else {
      seen' := seen + {iter.fieldIndex % 32};
      ok := DecodeField(stream, iter, dest);
    }
  }

  datatype Progress = Going | Stopped | Failing

  /** The body of the loop of pb_decode. */
  method DecodeTurn(stream: IStream, iter: FieldIterator, dest: array<Slot>, seen: set<nat>) returns (p: Progress, seen': set<nat>)
    requires stream.Valid() && iter.Valid() && dest.Length == |iter.fields|
    modifies stream, iter, dest
    ensures stream.Valid() && iter.Valid()
    ensures var t := DecodeNext(iter.fields, old(stream.Rest()), State(old(dest[..]), seen, old(iter.fieldIndex)));
            match p
            case Failing => t == Broken
            case Stopped => t == Stop(stream.Rest()) && dest[..] == old(dest[..]) && seen' == seen
            case Going => t == Again(State(dest[..], seen', iter.fieldIndex), stream.Rest())
  {
    seen' := seen;
    var ok, temp := stream.DecodeVarint32();
    if !ok {
      UnreadCount(stream.source, stream.state, stream.bytesLeft);
      p := if stream.bytesLeft == 0 then Stopped else Failing;
    } else if temp == 0 {
      p := Stopped;
    } else {
      ok, seen' := DecodeKeyed(stream, iter, dest, seen, temp);
      p := if ok then Going else Failing;
    }
  }

  /** The loop of pb_decode. */
  method DecodeFields(stream: IStream, iter: FieldIterator, dest: array<Slot>) returns (ok: bool, seen: set<nat>)
    requires stream.Valid() && iter.Valid() && dest.Length == |iter.fields|
    modifies stream, iter, dest
    ensures stream.Valid()
    ensures var result := DecodeLoop(iter.fields, old(stream.Rest()), State(old(dest[..]), {}, old(iter.fieldIndex)));
            if ok then result == Finish(iter.fields, dest[..], seen, stream.Rest()) else result.Failed?
  {
    ghost var result := DecodeLoop(iter.fields, stream.Rest(), State(dest[..], {}, iter.fieldIndex));
    seen := {};
    var going := true;
    while going && stream.bytesLeft > 0
      invariant stream.Valid() && iter.Valid()
      invariant result == if going then DecodeLoop(iter.fields, stream.Rest(), State(dest[..], seen, iter.fieldIndex))
                          else Finish(iter.fields, dest[..], seen, stream.Rest())
      decreases going, Count(stream.Rest())
    {
      var p;
      p, seen := DecodeTurn(stream, iter, dest, seen);
      if p.Failing? { return false, seen; }
      going := p.Going?;
    }
    ok := true;
  }

  /** The check of pb_decode that all required fields were seen. */
  method CheckRequired(fields: seq<Field>, seen: set<nat>) returns (ok: bool)
    ensures ok <==> AllSeen(fields, seen)
  {
    for i := 0 to |fields|
      invariant forall k :: 0 <= k < i && fields[k].htype.Required? ==> k % 32 in seen
    {
      if fields[i].htype.Required? && i % 32 !in seen { return false; }
    }
    ok := true;
  }

  /** pb_decode */
  method PbDecode(stream: IStream, fields: seq<Field>, dest: array<Slot>) returns (ok: bool)
    requires stream.Valid() && dest.Length == |fields| >= 1
    modifies stream, dest
    ensures stream.Valid() && (ok <==> Decode(fields, old(stream.Rest()), old(dest[..])).Read?)
    ensures ok ==> Decode(fields, old(stream.Rest()), old(dest[..])) == Read(dest[..], stream.Rest())
  {
    SetToDefaults(fields, dest);
    var iter := new FieldIterator(fields);
    var seen;
    ok, seen := DecodeFields(stream, iter, dest);
    if ok { ok := CheckRequired(fields, seen); }
  }
}
