/** Segmentation of a DST frame: how each channel is cut into segments
    (ReadTableSegmentData of libs/libdstdec/unpack_dst.c). */
module DstSegments {
  import opened Arithmetic
  import opened Bits
  import opened DstRice

  /** The limits of one kind of segmentation: the frame length in bytes a channel, the largest
      number of explicit segments, the least segment length in bits, and how many segments a row of
      the arrays has room for. */
  datatype Limits = Limits(frameLen: nat, maxSegs: nat, minLen: nat, slots: nat) {
    ghost predicate Valid() { minLen % 8 == 0 && minLen >= 8 && 8 * frameLen >= minLen && 1 <= maxSegs <= slots }

    function Room(): int { frameLen - minLen / 8 }
  }

  function FilterLimits(frameLen: nat): Limits { Limits(frameLen, 4, 1024, 8) }

  function PtableLimits(frameLen: nat): Limits { Limits(frameLen, 8, 32, 8) }

  /** The limits with rows that have room for whatever the tests of the reader let through. */
  function Roomy(l: Limits): Limits { l.(slots := l.maxSegs + 1) }

  /** `lens` has the explicit segment lengths of each channel, in units of `resolution` bytes; one
      more segment, sent as the end of the channel, takes what is left. */
  datatype Segments = Segments(same: bool, resolution: nat, lens: seq<seq<nat>>)

  datatype Row = Row(lens: seq<nat>, resolution: nat)
  datatype Rows = Rows(rows: seq<seq<nat>>, resolution: nat)
  datatype Piece = Piece(resolution: nat, len: nat)

  /** The bytes of a channel that its explicit segments take. */
  function Used(lens: seq<nat>, res: nat): nat {
    if lens == [] then 0 else Times(res, lens[0]) + Used(lens[1..], res)
  }

  function Nat(x: int): nat { if x < 0 then 0 else x }

  /** The width of a length field when `used` bytes are already taken. */
  function LenWidth(l: Limits, used: nat, res: nat): nat
    requires res > 0
  {
    Log2Up(Quotient(l.Room() - used, res))
  }

  /** A segment of `taken` bytes behind `used` is long enough and leaves room for a last one. */
  predicate LenOk(l: Limits, used: nat, taken: nat) {
    l.minLen <= 8 * taken <= l.frameLen * 8 - 8 * used - l.minLen
  }

  // ----- the reader -----

  /** The resolution is sent once, in front of the first explicit length of the frame; 0: not yet. */
  function ReadResolution(bits: BitList, l: Limits, resolution: nat): (r: Parsed<nat>)
    ensures r.Ok? ==> r.value > 0
  {
    if resolution != 0 then Ok(resolution, bits)
    else
      match ReadU(bits, Log2Up(Nat(l.Room())))
      case Err(e) => Err(e)
      case Ok(res, rest) => if res == 0 || res > l.Room() then Err(InvalidSegmentResolution) else Ok(res, rest)
  }

  function ReadLength(bits: BitList, l: Limits, used: nat, res: nat): (r: Parsed<nat>)
    requires res > 0
  {
    match ReadU(bits, LenWidth(l, used, res))
    case Err(e) => Err(e)
    case Ok(len, rest) => if LenOk(l, used, Times(res, len)) then Ok(len, rest) else Err(InvalidSegmentLength)
  }

  function ReadSegment(bits: BitList, l: Limits, resolution: nat, used: nat): (r: Parsed<Piece>)
  {
    match ReadResolution(bits, l, resolution)
    case Err(e) => Err(e)
    case Ok(res, rest) =>
      match ReadLength(rest, l, used, res)
      case Err(e) => Err(e)
      case Ok(len, after) => Ok(Piece(res, len), after)
  }

  /** The rest of a channel, from the end-of-channel bit in front of segment n; `used` bytes are
      taken.  Without sharing the number of segments is tested before that bit, with sharing
      behind it: a row can then be longer than its array. */
  function ReadChannel(bits: BitList, l: Limits, shared: bool, n: nat, resolution: nat, used: nat): (r: Parsed<Row>)
    decreases l.maxSegs - n
  {
    if !shared && n >= l.maxSegs then Err(TooManySegments)
    else if bits.Nil? then Err(NegativeBitAllocation)
    else if bits.bit == 1 then if n < l.slots then Ok(Row([], resolution), bits.tail) else Err(RowOverrun)
    else if n >= l.maxSegs then Err(TooManySegments)
    else
      match ReadSegment(bits.tail, l, resolution, used)
      case Err(e) => Err(e)
      case Ok(s, rest) => InFront(s.len, ReadChannel(rest, l, shared, n + 1, s.resolution, used + Times(s.resolution, s.len)))
  }

  function InFront(len: nat, r: Parsed<Row>): Parsed<Row> {
    match r
    case Err(e) => Err(e)
    case Ok(row, rest) => Ok(Row([len] + row.lens, row.resolution), rest)
  }

  function ReadChannels(bits: BitList, l: Limits, channels: nat, resolution: nat): (r: Parsed<Rows>)
    ensures r.Ok? ==> |r.value.rows| == channels
    decreases channels
  {
    if channels == 0 then Ok(Rows([], resolution), bits)
    else
      match ReadChannel(bits, l, false, 0, resolution, 0)
      case Err(e) => Err(e)
      case Ok(row, rest) =>
        match ReadChannels(rest, l, channels - 1, row.resolution)
        case Err(e) => Err(e)
        case Ok(rows, after) => Ok(Rows([row.lens] + rows.rows, rows.resolution), after)
  }

  function Copies<T>(x: T, n: nat): (xs: seq<T>)
    ensures |xs| == n && forall i :: 0 <= i < n ==> xs[i] == x
  {
    if n == 0 then [] else [x] + Copies(x, n - 1)
  }

  /** What ends up as the resolution when none was sent. */
  function OrOne(res: nat): nat { if res == 0 then 1 else res }

  /** ReadTableSegmentData */
  function ReadSegments(bits: BitList, l: Limits, channels: nat): (r: Parsed<Segments>)
    ensures r.Ok? ==> |r.value.lens| == channels
  {
    if bits.Nil? then Err(NegativeBitAllocation)
    else if bits.bit == 1 then
      match ReadChannel(bits.tail, l, true, 0, 0, 0)
      case Err(e) => Err(e)
      case Ok(row, rest) => Ok(Segments(true, OrOne(row.resolution), Copies(row.lens, channels)), rest)
    else
      match ReadChannels(bits.tail, l, channels, 0)
      case Err(e) => Err(e)
      case Ok(rows, rest) => Ok(Segments(false, OrOne(rows.resolution), rows.rows), rest)
  }

  // ----- which segmentations exist -----

  /** Each segment, placed behind `used` bytes, is at least minLen bits long and leaves at least
      minLen bits behind it. */
  predicate LegalLens(lens: seq<nat>, l: Limits, res: nat, used: nat) {
    lens == [] || (LenOk(l, used, Times(res, lens[0])) && LegalLens(lens[1..], l, res, used + Times(res, lens[0])))
  }

  predicate LegalRow(row: seq<nat>, l: Limits, shared: bool, res: nat) {
    |row| <= l.maxSegs && |row| < l.slots && (!shared ==> |row| < l.maxSegs) && LegalLens(row, l, res, 0)
  }

  /** No channel has an explicit segment. */
  predicate AllImplicit(rows: seq<seq<nat>>) { forall i :: 0 <= i < |rows| ==> rows[i] == [] }

  predicate Legal(s: Segments, l: Limits, channels: nat) {
    && |s.lens| == channels
    && (forall i :: 0 <= i < channels ==> LegalRow(s.lens[i], l, s.same, s.resolution))
    && (s.same ==> forall i :: 0 <= i < channels ==> s.lens[i] == s.lens[0])
    && (if AllImplicit(s.lens) then s.resolution == 1 else 0 < s.resolution <= l.Room())
  }

  // ----- the encoder -----

  function WriteResolution(l: Limits, known: bool, res: nat, tail: BitList): BitList {
    if known then tail else WriteU(res, Log2Up(Nat(l.Room())), tail)
  }

  function WriteSegment(l: Limits, known: bool, res: nat, used: nat, len: nat, tail: BitList): BitList
    requires res > 0
  {
    WriteResolution(l, known, res, WriteU(len, LenWidth(l, used, res), tail))
  }

  /** The rest of a channel's row, behind `used` bytes. */
  function WriteChannel(lens: seq<nat>, l: Limits, known: bool, res: nat, used: nat, tail: BitList): BitList
    requires res > 0
  {
    if lens == [] then Cons(1, tail)
    else Cons(0, WriteSegment(l, known, res, used, lens[0], WriteChannel(lens[1..], l, true, res, used + Times(res, lens[0]), tail)))
  }

  function WriteChannels(rows: seq<seq<nat>>, l: Limits, known: bool, res: nat, tail: BitList): BitList
    requires res > 0
  {
    if rows == [] then tail
    else WriteChannel(rows[0], l, known, res, 0, WriteChannels(rows[1..], l, known || rows[0] != [], res, tail))
  }

  function WriteSegments(s: Segments, l: Limits, tail: BitList): BitList
    requires s.lens != [] && s.resolution > 0
  {
    if s.same then Cons(1, WriteChannel(s.lens[0], l, false, s.resolution, 0, tail))
    else Cons(0, WriteChannels(s.lens, l, false, s.resolution, tail))
  }

  // ----- arithmetic -----

  /** Every legal length fits the field width the reader computes for it. */
  lemma LengthFits(l: Limits, used: nat, res: nat, len: nat)
    requires l.Valid() && res > 0 && LenOk(l, used, Times(res, len))
    ensures used <= l.Room() && len < Pow2(LenWidth(l, used, res))
  {
    QuotientBound(len, l.Room() - used, res);
    FitsWidth(len, Quotient(l.Room() - used, res));
  }

  // ----- the reader inverts the encoder -----

  /** The resolution as the reader knows it. */
  predicate Agrees(l: Limits, r0: nat, res: nat) { res > 0 && (r0 == res || (r0 == 0 && res <= l.Room())) }

  lemma ResolutionWritten(l: Limits, r0: nat, res: nat, tail: BitList)
    requires Agrees(l, r0, res)
    ensures ReadResolution(WriteResolution(l, r0 != 0, res, tail), l, r0) == Ok(res, tail)
  {
    if r0 == 0 {
      FitsWidth(res, Nat(l.Room()));
      ReadUWritten(res, Log2Up(Nat(l.Room())), tail);
    }
  }

  lemma LengthWritten(l: Limits, used: nat, res: nat, len: nat, tail: BitList)
    requires l.Valid() && res > 0 && LenOk(l, used, Times(res, len))
    ensures ReadLength(WriteU(len, LenWidth(l, used, res), tail), l, used, res) == Ok(len, tail)
  {
    LengthFits(l, used, res, len);
    ReadUWritten(len, LenWidth(l, used, res), tail);
  }

  lemma SegmentWritten(l: Limits, r0: nat, res: nat, used: nat, len: nat, tail: BitList)
    requires l.Valid() && Agrees(l, r0, res) && LenOk(l, used, Times(res, len))
    ensures ReadSegment(WriteSegment(l, r0 != 0, res, used, len, tail), l, r0, used) == Ok(Piece(res, len), tail)
  {
    ResolutionWritten(l, r0, res, WriteU(len, LenWidth(l, used, res), tail));
    LengthWritten(l, used, res, len, tail);
  }

  lemma ResolutionExact(bits: BitList, l: Limits, r0: nat)
    requires ReadResolution(bits, l, r0).Ok?
    ensures var r := ReadResolution(bits, l, r0); Agrees(l, r0, r.value) && bits == WriteResolution(l, r0 != 0, r.value, r.rest)
  {
    if r0 == 0 { ReadUExact(bits, Log2Up(Nat(l.Room()))); }
  }

  lemma SegmentExact(bits: BitList, l: Limits, r0: nat, used: nat)
    requires ReadSegment(bits, l, r0, used).Ok?
    ensures var r := ReadSegment(bits, l, r0, used);
            && Agrees(l, r0, r.value.resolution) && LenOk(l, used, Times(r.value.resolution, r.value.len))
            && bits == WriteSegment(l, r0 != 0, r.value.resolution, used, r.value.len, r.rest)
  {
    ResolutionExact(bits, l, r0);
    var r := ReadResolution(bits, l, r0);
    ReadUExact(r.rest, LenWidth(l, used, r.value));
  }

  lemma ChannelGoesOn(bits: BitList, rest: BitList, l: Limits, shared: bool, n: nat, r0: nat, used: nat, res: nat, len: nat)
    requires n < l.maxSegs && ReadSegment(bits, l, r0, used) == Ok(Piece(res, len), rest)
    ensures ReadChannel(Cons(0, bits), l, shared, n, r0, used) == InFront(len, ReadChannel(rest, l, shared, n + 1, res, used + Times(res, len)))
  {
  }

  lemma {:induction false} ChannelWritten(lens: seq<nat>, l: Limits, shared: bool, n: nat, r0: nat, res: nat, used: nat, tail: BitList)
    requires l.Valid() && LegalLens(lens, l, res, used) && n + |lens| <= l.maxSegs && (!shared ==> n + |lens| < l.maxSegs)
    requires n + |lens| < l.slots && res > 0 && (r0 == 0 || r0 == res) && (lens != [] ==> Agrees(l, r0, res))
    ensures ReadChannel(WriteChannel(lens, l, r0 != 0, res, used, tail), l, shared, n, r0, used)
         == Ok(Row(lens, if lens == [] then r0 else res), tail)
    decreases |lens|
  {
    if lens != [] {
      var len, rest, later := lens[0], lens[1..], used + Times(res, lens[0]);
      var more := WriteChannel(rest, l, true, res, later, tail);
      assert lens == [len] + rest;
      RowExtended(len, rest, l, r0 != 0, res, used, tail);
      SegmentWritten(l, r0, res, used, len, more);
      ChannelGoesOn(WriteSegment(l, r0 != 0, res, used, len, more), more, l, shared, n, r0, used, res, len);
      ChannelWritten(rest, l, shared, n + 1, res, res, later, tail);
    }
  }

  /** One step of the converse: a channel that goes on starts with a written segment. */
  lemma ChannelStepExact(bits: BitList, l: Limits, shared: bool, n: nat, r0: nat, used: nat)
    returns (res: nat, len: nat, rest: BitList)
    requires ReadChannel(bits, l, shared, n, r0, used).Ok? && bits.bit == 0
    ensures n < l.maxSegs && Agrees(l, r0, res) && LenOk(l, used, Times(res, len))
    ensures bits == Cons(0, WriteSegment(l, r0 != 0, res, used, len, rest))
    ensures ReadChannel(bits, l, shared, n, r0, used) == InFront(len, ReadChannel(rest, l, shared, n + 1, res, used + Times(res, len)))
  {
    SegmentExact(bits.tail, l, r0, used);
    var s := ReadSegment(bits.tail, l, r0, used);
    res, len, rest := s.value.resolution, s.value.len, s.rest;
    ChannelGoesOn(bits.tail, rest, l, shared, n, r0, used, res, len);
  }

  /** What a longer row means for the reader, the rules and the encoder. */
  lemma RowExtended(len: nat, lens: seq<nat>, l: Limits, known: bool, res: nat, used: nat, tail: BitList)
    requires res > 0 && LenOk(l, used, Times(res, len)) && LegalLens(lens, l, res, used + Times(res, len))
    ensures LegalLens([len] + lens, l, res, used)
    ensures WriteChannel([len] + lens, l, known, res, used, tail)
         == Cons(0, WriteSegment(l, known, res, used, len, WriteChannel(lens, l, true, res, used + Times(res, len), tail)))
  {
    assert ([len] + lens)[1..] == lens;
  }

  lemma {:induction false} ChannelExact(bits: BitList, l: Limits, shared: bool, n: nat, r0: nat, used: nat)
    returns (lens: seq<nat>, res: nat, rest: BitList)
    requires ReadChannel(bits, l, shared, n, r0, used).Ok? && n <= l.maxSegs
    ensures ReadChannel(bits, l, shared, n, r0, used) == Ok(Row(lens, res), rest)
    ensures n + |lens| <= l.maxSegs && n + |lens| < l.slots && (!shared ==> n + |lens| < l.maxSegs)
    ensures LegalLens(lens, l, OrOne(res), used) && bits == WriteChannel(lens, l, r0 != 0, OrOne(res), used, rest)
    ensures if lens == [] then res == r0 else Agrees(l, r0, res)
    decreases l.maxSegs - n
  {
    if bits.bit == 1 {
      lens, res, rest := [], r0, bits.tail;
    } else {
      var res0, len, rest0 := ChannelStepExact(bits, l, shared, n, r0, used);
      var later, lens0 := used + Times(res0, len), [];
      lens0, res, rest := ChannelExact(rest0, l, shared, n + 1, res0, later);
      assert res == res0 && OrOne(res) == res;
      lens := [len] + lens0;
      RowExtended(len, lens0, l, r0 != 0, res, used, rest);
    }
  }

  // ----- all channels -----

  lemma AllImplicitCons(row: seq<nat>, rows: seq<seq<nat>>)
    ensures AllImplicit([row] + rows) <==> row == [] && AllImplicit(rows)
  {
    var all := [row] + rows;
    assert all[0] == row;
    assert forall i :: 0 <= i < |rows| ==> all[i + 1] == rows[i];
  }

  lemma {:induction false} ChannelsWritten(rows: seq<seq<nat>>, l: Limits, r0: nat, res: nat, tail: BitList)
    requires l.Valid() && forall i :: 0 <= i < |rows| ==> LegalRow(rows[i], l, false, res)
    requires res > 0 && (r0 == 0 || r0 == res) && (!AllImplicit(rows) ==> Agrees(l, r0, res))
    ensures ReadChannels(WriteChannels(rows, l, r0 != 0, res, tail), l, |rows|, r0)
         == Ok(Rows(rows, if AllImplicit(rows) then r0 else res), tail)
    decreases |rows|
  {
    if rows != [] {
      var row, rest := rows[0], rows[1..];
      var r1 := if row == [] then r0 else res;
      assert rows == [row] + rest;
      AllImplicitCons(row, rest);
      ChannelWritten(row, l, false, 0, r0, res, 0, WriteChannels(rest, l, r1 != 0, res, tail));
      ChannelsWritten(rest, l, r1, res, tail);
    }
  }

  lemma {:induction false} ChannelsExact(bits: BitList, l: Limits, channels: nat, r0: nat)
    returns (rows: seq<seq<nat>>, res: nat, rest: BitList)
    requires ReadChannels(bits, l, channels, r0).Ok?
    ensures ReadChannels(bits, l, channels, r0) == Ok(Rows(rows, res), rest) && |rows| == channels
    ensures if AllImplicit(rows) then res == r0 else Agrees(l, r0, res)
    ensures forall i :: 0 <= i < channels ==> LegalRow(rows[i], l, false, OrOne(res))
    ensures bits == WriteChannels(rows, l, r0 != 0, OrOne(res), rest)
    decreases channels
  {
    if channels == 0 {
      rows, res, rest := [], r0, bits;
    } else {
      var row, r1, mid := ChannelExact(bits, l, false, 0, r0, 0);
      var more;
      more, res, rest := ChannelsExact(mid, l, channels - 1, r1);
      rows := [row] + more;
      assert rows[1..] == more;
      AllImplicitCons(row, more);
      assert row != [] ==> res == r1;
      assert row == [] ==> LegalRow(row, l, false, OrOne(res));
    }
  }

  /** Decoding a legal segmentation's code gives it back and stops behind it. */
  lemma SegmentsWritten(s: Segments, l: Limits, channels: nat, tail: BitList)
    requires l.Valid() && channels >= 1 && Legal(s, l, channels)
    ensures ReadSegments(WriteSegments(s, l, tail), l, channels) == Ok(s, tail)
  {
    if s.same {
      assert AllImplicit(s.lens) <==> s.lens[0] == [];
      assert LegalRow(s.lens[0], l, true, s.resolution);
      ChannelWritten(s.lens[0], l, true, 0, 0, s.resolution, 0, tail);
      assert Copies(s.lens[0], channels) == s.lens;
    } else {
      ChannelsWritten(s.lens, l, 0, s.resolution, tail);
    }
  }

  /** Whatever decodes is legal, and is the code of the segmentation it decodes to. */
  lemma SegmentsExact(bits: BitList, l: Limits, channels: nat)
    requires channels >= 1 && ReadSegments(bits, l, channels).Ok?
    ensures var r := ReadSegments(bits, l, channels);
            Legal(r.value, l, channels) && bits == WriteSegments(r.value, l, r.rest)
  {
    if bits.bit == 1 {
      var row, res, rest := ChannelExact(bits.tail, l, true, 0, 0, 0);
      var s := Segments(true, OrOne(res), Copies(row, channels));
      assert s.lens[0] == row;
      assert AllImplicit(s.lens) <==> row == [];
    } else {
      var rows, res, rest := ChannelsExact(bits.tail, l, channels, 0);
    }
  }

  // ----- partition -----

  lemma {:induction false} LegalLensLeave(lens: seq<nat>, l: Limits, res: nat, used: nat)
    requires LegalLens(lens, l, res, used)
    ensures lens != [] ==> 8 * (used + Used(lens, res)) <= 8 * l.frameLen - l.minLen
    ensures forall i :: 0 <= i < |lens| ==> 8 * Times(res, lens[i]) >= l.minLen
  {
    if lens != [] {
      LegalLensLeave(lens[1..], l, res, used + Times(res, lens[0]));
      forall i | 0 <= i < |lens| ensures 8 * Times(res, lens[i]) >= l.minLen {
        if i > 0 { assert lens[i] == lens[1..][i - 1]; }
      }
    }
  }

  /** The bits of each segment of a channel, the last one included. */
  function SegmentBits(row: seq<nat>, l: Limits, res: nat): seq<int> {
    seq(|row| + 1, i requires 0 <= i <= |row| => if i < |row| then 8 * Times(res, row[i]) else 8 * l.frameLen - 8 * Used(row, res))
  }

  function Total(s: seq<int>): int {
    if s == [] then 0 else s[0] + Total(s[1..])
  }

  lemma {:induction false} TotalBits(row: seq<nat>, l: Limits, res: nat)
    ensures Total(SegmentBits(row, l, res)) == 8 * l.frameLen
    decreases |row|
  {
    var bits := SegmentBits(row, l, res);
    if row == [] {
      assert |bits| == 1 && bits[0] == 8 * l.frameLen - 8 * Used(row, res);
      assert bits[1..] == [];
    } else {
      TailTotal(row, l, res);
      TotalBits(row[1..], l, res);
    }
  }

  lemma TailTotal(row: seq<nat>, l: Limits, res: nat)
    requires row != []
    ensures Total(SegmentBits(row, l, res)) == Total(SegmentBits(row[1..], l, res))
  {
    var bits, rest := SegmentBits(row, l, res), SegmentBits(row[1..], l, res);
    var first := 8 * Times(res, row[0]);
    var n := |rest| - 1;
    assert |bits| == n + 2 && Used(row, res) == Times(res, row[0]) + Used(row[1..], res);
    assert rest[n] - first == bits[n + 1];
    assert forall i :: 0 <= i < n ==> bits[i + 1] == rest[i];
    assert bits[1..] == rest[..n] + [rest[n] - first];
    assert rest == rest[..|rest| - 1] + [rest[|rest| - 1]];
    TotalLast(rest[..|rest| - 1], rest[|rest| - 1] - first);
    TotalLast(rest[..|rest| - 1], rest[|rest| - 1]);
  }

  lemma {:induction false} TotalLast(s: seq<int>, x: int)
    ensures Total(s + [x]) == Total(s) + x
  {
    if s != [] {
      TotalLast(s[1..], x);
      assert (s + [x])[1..] == s[1..] + [x];
    }
  }

  /** A segmentation that was read cuts every channel into segments that together are the whole
      frame, each at least minLen bits long, the last one too.  There are at most maxSegs + 1 of them,
      and at most maxSegs exactly when it is not a shared one with maxSegs explicit segments. */
  lemma ReadPartitions(bits: BitList, l: Limits, channels: nat, ch: nat)
    requires l.Valid() && ch < channels && ReadSegments(bits, l, channels).Ok?
    ensures var s := ReadSegments(bits, l, channels).value;
            var segs := SegmentBits(s.lens[ch], l, s.resolution);
            && 1 <= |segs| <= l.maxSegs + 1 && |segs| <= l.slots
            && (|segs| <= l.maxSegs <==> !(s.same && |s.lens[0]| == l.maxSegs))
            && Total(segs) == 8 * l.frameLen
            && forall i :: 0 <= i < |segs| ==> segs[i] >= l.minLen
  {
    SegmentsExact(bits, l, channels);
    var s := ReadSegments(bits, l, channels).value;
    assert LegalRow(s.lens[ch], l, s.same, s.resolution);
    LegalLensLeave(s.lens[ch], l, s.resolution, 0);
    TotalBits(s.lens[ch], l, s.resolution);
  }

  // ----- rows that are too long for their arrays -----

  lemma {:induction false} ChannelOverruns(bits: BitList, l: Limits, shared: bool, n: nat, resolution: nat, used: nat)
    requires n <= l.maxSegs <= l.slots
    ensures var r := ReadChannel(bits, Roomy(l), shared, n, resolution, used);
            ReadChannel(bits, l, shared, n, resolution, used) == if r.Ok? && n + |r.value.lens| >= l.slots then Err(RowOverrun) else r
    ensures var r := ReadChannel(bits, Roomy(l), shared, n, resolution, used);
            r.Ok? ==> n + |r.value.lens| <= l.maxSegs && (!shared ==> n + |r.value.lens| < l.maxSegs)
    decreases l.maxSegs - n
  {
    if n < l.maxSegs && bits.Cons? && bits.bit == 0 {
      var s := ReadSegment(bits.tail, l, resolution, used);
      assert ReadSegment(bits.tail, Roomy(l), resolution, used) == s;
      if s.Ok? { ChannelOverruns(s.rest, l, shared, n + 1, s.value.resolution, used + Times(s.value.resolution, s.value.len)); }
    }
  }

  lemma {:induction false} ChannelsFit(bits: BitList, l: Limits, channels: nat, resolution: nat)
    requires l.maxSegs <= l.slots
    ensures ReadChannels(bits, l, channels, resolution) == ReadChannels(bits, Roomy(l), channels, resolution)
    decreases channels
  {
    if channels > 0 {
      ChannelOverruns(bits, l, false, 0, resolution, 0);
      var r := ReadChannel(bits, l, false, 0, resolution, 0);
      if r.Ok? { ChannelsFit(r.rest, l, channels - 1, r.value.resolution); }
    }
  }

  /** The one thing the reader's tests let through and the arrays do not hold: maxSegs explicit
      segments, shared by all channels, when maxSegs is all the room there is. */
  predicate Overruns(s: Segments, l: Limits) { s.same && s.lens != [] && |s.lens[0]| == l.maxSegs == l.slots }

  /** What is read is what the tests let through, unless it overruns the arrays. */
  lemma OverrunsExactly(bits: BitList, l: Limits, channels: nat)
    requires channels >= 1 && l.maxSegs <= l.slots
    ensures var r := ReadSegments(bits, Roomy(l), channels);
            ReadSegments(bits, l, channels) == if r.Ok? && Overruns(r.value, l) then Err(RowOverrun) else r
  {
    if bits.Cons? {
      if bits.bit == 1 {
        ChannelOverruns(bits.tail, l, true, 0, 0, 0);
      } else {
        ChannelsFit(bits.tail, l, channels, 0);
      }
    }
  }

  lemma SegmentNoOverrun(bits: BitList, l: Limits, resolution: nat, used: nat)
    ensures ReadSegment(bits, l, resolution, used) != Err(RowOverrun)
  {
    TakeFails(bits, Log2Up(Nat(l.Room())), 0);
    var r := ReadResolution(bits, l, resolution);
    if r.Ok? { TakeFails(r.rest, LenWidth(l, used, r.value), 0); }
  }

  lemma {:induction false} ChannelNoOverrun(bits: BitList, l: Limits, shared: bool, n: nat, resolution: nat, used: nat)
    requires n <= l.maxSegs < l.slots
    ensures ReadChannel(bits, l, shared, n, resolution, used) != Err(RowOverrun)
    decreases l.maxSegs - n
  {
    if n < l.maxSegs && bits.Cons? && bits.bit == 0 {
      SegmentNoOverrun(bits.tail, l, resolution, used);
      var s := ReadSegment(bits.tail, l, resolution, used);
      if s.Ok? { ChannelNoOverrun(s.rest, l, shared, n + 1, s.value.resolution, used + Times(s.value.resolution, s.value.len)); }
    }
  }

  lemma {:induction false} ChannelsNoOverrun(bits: BitList, l: Limits, channels: nat, resolution: nat)
    requires l.maxSegs < l.slots
    ensures ReadChannels(bits, l, channels, resolution) != Err(RowOverrun)
    decreases channels
  {
    if channels > 0 {
      ChannelNoOverrun(bits, l, false, 0, resolution, 0);
      var r := ReadChannel(bits, l, false, 0, resolution, 0);
      if r.Ok? { ChannelsNoOverrun(r.rest, l, channels - 1, r.value.resolution); }
    }
  }

  /** With room to spare nothing overruns. */
  lemma NoOverrun(bits: BitList, l: Limits, channels: nat)
    requires l.maxSegs < l.slots
    ensures ReadSegments(bits, l, channels) != Err(RowOverrun)
  {
    if bits.Cons? {
      if bits.bit == 1 { ChannelNoOverrun(bits.tail, l, true, 0, 0, 0); } else { ChannelsNoOverrun(bits.tail, l, channels, 0); }
    }
  }

  /** The probability tables have such a segmentation: eight explicit segments of 32 bits in each of two
      channels, which the tests let through and which take a ninth place in rows of eight. */
  lemma NineSegments(frameLen: nat, tail: BitList) returns (s: Segments, bits: BitList)
    requires frameLen >= 36
    ensures s == Segments(true, 4, [[1, 1, 1, 1, 1, 1, 1, 1], [1, 1, 1, 1, 1, 1, 1, 1]])
    ensures ReadSegments(bits, Roomy(PtableLimits(frameLen)), 2) == Ok(s, tail)
    ensures ReadSegments(bits, PtableLimits(frameLen), 2) == Err(RowOverrun)
  {
    var l := PtableLimits(frameLen);
    s := Segments(true, 4, [[1, 1, 1, 1, 1, 1, 1, 1], [1, 1, 1, 1, 1, 1, 1, 1]]);
    OnesLegal(s.lens[0], Roomy(l), 0);
    bits := WriteSegments(s, Roomy(l), tail);
    SegmentsWritten(s, Roomy(l), 2, tail);
    OverrunsExactly(bits, l, 2);
  }

  lemma {:induction false} OnesLegal(lens: seq<nat>, l: Limits, used: nat)
    requires l.minLen == 32 && used + 4 * |lens| + 4 <= l.frameLen && forall i :: 0 <= i < |lens| ==> lens[i] == 1
    ensures LegalLens(lens, l, 4, used)
    decreases |lens|
  {
    if lens != [] {
      assert Times(4, 1) == 4;
      OnesLegal(lens[1..], l, used + 4);
    }
  }
}
