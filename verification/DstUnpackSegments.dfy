/** ReadTableSegmentData and CopySegmentData of libs/libdstdec/unpack_dst.c on the arrays they fill,
    against the functions of DstSegments and DstFrame. */
module DstUnpackSegments {
  import opened Arithmetic
  import opened Bits
  import opened DstData
  import opened DstRice
  import opened DstSegments
  import opened DstFrame
  import opened DstUnpackCodes

  /** The segmentation and mapping of one kind of table; `slots` entries a channel. */
  class Segment {
    var resolution: nat
    const segmentLen: array2<nat>
    const nrOfSegments: array<nat>
    const table4Segment: array2<nat>

    constructor (channels: nat, slots: nat)
      ensures Sized(channels, slots) && fresh(segmentLen) && fresh(nrOfSegments) && fresh(table4Segment)
    {
      resolution := 1;
      segmentLen := new nat[channels, slots];
      nrOfSegments := new nat[channels];
      table4Segment := new nat[channels, slots];
    }

    ghost predicate Sized(channels: nat, slots: nat) {
      && segmentLen.Length0 == nrOfSegments.Length == table4Segment.Length0 == channels
      && segmentLen.Length1 == table4Segment.Length1 == slots
      && segmentLen != table4Segment
    }

    /** Channel ch has the explicit lengths of `row`, and a 0 for the last segment. */
    ghost predicate ShowsRow(ch: nat, row: seq<nat>)
      requires ch < segmentLen.Length0 && ch < nrOfSegments.Length
      reads segmentLen, nrOfSegments
    {
      && nrOfSegments[ch] == |row| + 1 <= segmentLen.Length1
      && segmentLen[ch, |row|] == 0
      && forall i :: 0 <= i < |row| ==> segmentLen[ch, i] == row[i]
    }

    /** The segmentation `s` is in the arrays. */
    ghost predicate Holds(s: Segments)
      reads this`resolution, segmentLen, nrOfSegments
    {
      |s.lens| == segmentLen.Length0 == nrOfSegments.Length && resolution == s.resolution && Shows(s.lens)
    }

    ghost predicate Shows(rows: seq<seq<nat>>)
      requires |rows| <= segmentLen.Length0 && |rows| <= nrOfSegments.Length
      reads segmentLen, nrOfSegments
    {
      forall ch :: 0 <= ch < |rows| ==> ShowsRow(ch, rows[ch])
    }
  }

  lemma WidthSmall(x: nat)
    requires x < 0x8000_0000
    ensures Log2Up(x) < 32
  {
    Log2UpBound(x);
    Pow2Values();
    if Log2Up(x) >= 32 { Pow2Monotone(31, Log2Up(x) - 1); }
  }

  /** `row` in front of what is read of a channel. */
  function RowBefore(row: seq<nat>, r: Parsed<Row>): Parsed<Row> {
    match r
    case Err(e) => Err(e)
    case Ok(more, rest) => Ok(Row(row + more.lens, more.resolution), rest)
  }

  lemma RowBeforeNothing(r: Parsed<Row>)
    ensures RowBefore([], r) == r
  {
    match r
    case Err(_) =>
    case Ok(more, _) => assert [] + more.lens == more.lens;
  }

  lemma RowBeforeStep(row: seq<nat>, len: nat, r: Parsed<Row>)
    ensures RowBefore(row, InFront(len, r)) == RowBefore(row + [len], r)
  {
    match r
    case Err(_) =>
    case Ok(more, _) => assert row + ([len] + more.lens) == row + [len] + more.lens;
  }

  /** The resolution as the functions of DstSegments take it. */
  function Known(resolRead: bool, resolution: nat): nat { if resolRead then resolution else 0 }

  /** The limits hold and numbers stay in 32 bits. */
  ghost predicate Small(l: Limits) { l.Valid() && l.frameLen < 0x1000_0000 }

  /** The resolution, unless it was read before. */
  method ReadResolutionOnce(sd: StrData, l: Limits, seg: Segment, resolRead: bool) returns (fault: Fault)
    requires InFrame(sd) && Small(l) && (resolRead ==> 0 < seg.resolution)
    modifies sd, seg`resolution
    ensures sd.data == old(sd.data) && sd.Valid()
    ensures match ReadResolution(old(sd.Rest()), l, Known(resolRead, old(seg.resolution)))
            case Err(e) => fault == Faulty(e)
            case Ok(res, rest) => fault == NoFault && seg.resolution == res && sd.Rest() == rest && InFrame(sd)
  {
    if !resolRead {
      var nrOfBits := Log2RoundUp(l.frameLen - l.minLen / 8);
      WidthSmall(Nat(l.Room()));
      var ok, value := ReadNumber(sd, nrOfBits);
      if !ok { return Faulty(NegativeBitAllocation); }
      seg.resolution := value;
      if value == 0 || value > l.frameLen - l.minLen / 8 {
        return Faulty(InvalidSegmentResolution);
      }
    }
    fault := NoFault;
  }

  lemma EightTimes(res: nat, len: nat)
    ensures res * 8 * len == 8 * Times(res, len) && res * len == Times(res, len)
  {
    TimesIsProduct(res, len);
    assert res * 8 * len == 8 * (res * len);
  }

  lemma DividedWidth(l: Limits, used: nat, size: nat, res: nat)
    requires Small(l) && res > 0 && size == l.Room() - used
    ensures Log2Up(size / res) == LenWidth(l, used, res) < 32
  {
    QuotientIsDivision(size, res);
    QuotientSmall(size, res);
    WidthSmall(Quotient(size, res));
  }

  /** A segment length behind `used` bytes. */
  method ReadOneLength(sd: StrData, l: Limits, resolution: nat, maxSegSize: nat, definedBits: nat, ghost used: nat)
    returns (fault: Fault, len: nat)
    requires InFrame(sd) && Small(l) && resolution > 0
    requires maxSegSize == l.Room() - used && definedBits == 8 * used
    modifies sd
    ensures sd.data == old(sd.data) && sd.Valid()
    ensures match ReadLength(old(sd.Rest()), l, used, resolution)
            case Err(e) => fault == Faulty(e)
            case Ok(n, rest) => fault == NoFault && len == n && sd.Rest() == rest && InFrame(sd)
    ensures fault == NoFault ==> LenOk(l, used, Times(resolution, len))
  {
    DividedWidth(l, used, maxSegSize, resolution);
    var nrOfBits := Log2RoundUp(maxSegSize / resolution);
    var ok, value := ReadNumber(sd, nrOfBits);
    if !ok { return Faulty(NegativeBitAllocation), 0; }
    len := value;
    EightTimes(resolution, len);
    if resolution * 8 * len < l.minLen || resolution * 8 * len > l.frameLen * 8 - definedBits - l.minLen {
      return Faulty(InvalidSegmentLength), len;
    }
    fault := NoFault;
  }

  /** One explicit segment. */
  method ReadOneSegment(sd: StrData, l: Limits, seg: Segment, resolRead: bool, maxSegSize: nat, definedBits: nat, ghost used: nat)
    returns (fault: Fault, len: nat)
    requires InFrame(sd) && Small(l) && (resolRead ==> 0 < seg.resolution)
    requires maxSegSize == l.Room() - used && definedBits == 8 * used
    modifies sd, seg`resolution
    ensures sd.data == old(sd.data) && sd.Valid()
    ensures match ReadSegment(old(sd.Rest()), l, Known(resolRead, old(seg.resolution)), used)
            case Err(e) => fault == Faulty(e)
            case Ok(p, rest) => fault == NoFault && p == Piece(seg.resolution, len) && sd.Rest() == rest && InFrame(sd)
    ensures fault == NoFault ==> seg.resolution > 0 && LenOk(l, used, Times(seg.resolution, len))
  {
    len := 0;
    fault := ReadResolutionOnce(sd, l, seg, resolRead);
    if fault == NoFault {
      fault, len := ReadOneLength(sd, l, seg.resolution, maxSegSize, definedBits, used);
    }
  }

  /** The reader's state behind `row` in terms of its state in front of it. */
  ghost predicate InChannel(whole: Parsed<Row>, row: seq<nat>, bits: BitList, l: Limits, shared: bool, resolution: nat, used: nat) {
    whole == RowBefore(row, ReadChannel(bits, l, shared, |row|, resolution, used))
  }

  lemma InChannelStep(whole: Parsed<Row>, row: seq<nat>, bits: BitList, l: Limits, shared: bool, r0: nat, used: nat, res: nat, len: nat, rest: BitList)
    requires |row| < l.maxSegs && InChannel(whole, row, Cons(0, bits), l, shared, r0, used)
    requires ReadSegment(bits, l, r0, used) == Ok(Piece(res, len), rest)
    ensures InChannel(whole, row + [len], rest, l, shared, res, used + Times(res, len))
  {
    ChannelGoesOn(bits, rest, l, shared, |row|, r0, used, res, len);
    RowBeforeStep(row, len, ReadChannel(rest, l, shared, |row| + 1, res, used + Times(res, len)));
  }

  /** Nothing but channel ch has changed. */
  twostate predicate OnlyChannel(seg: Segment, ch: nat)
    reads seg.segmentLen, seg.nrOfSegments
  {
    && (forall c, i :: 0 <= c < seg.segmentLen.Length0 && c != ch && 0 <= i < seg.segmentLen.Length1 ==> seg.segmentLen[c, i] == old(seg.segmentLen[c, i]))
    && (forall c :: 0 <= c < seg.nrOfSegments.Length && c != ch ==> seg.nrOfSegments[c] == old(seg.nrOfSegments[c]))
  }

  /** The loop over the segments of channel ch.  With sharing the number of segments is tested
      behind the end-of-channel bit, without it in front. */
  method ReadChannelData(sd: StrData, l: Limits, shared: bool, seg: Segment, ch: nat, resolRead: bool)
    returns (fault: Fault, resolRead': bool, ghost row: seq<nat>)
    requires InFrame(sd) && Small(l) && (resolRead ==> 0 < seg.resolution)
    requires seg.Sized(seg.nrOfSegments.Length, l.slots) && ch < seg.nrOfSegments.Length
    modifies sd, seg`resolution, seg.segmentLen, seg.nrOfSegments
    ensures sd.data == old(sd.data) && sd.Valid()
    ensures match ReadChannel(old(sd.Rest()), l, shared, 0, Known(resolRead, old(seg.resolution)), 0)
            case Err(e) => fault == Faulty(e)
            case Ok(r, rest) => fault == NoFault && r == Row(row, Known(resolRead', seg.resolution)) && sd.Rest() == rest
    ensures fault == NoFault ==> InFrame(sd) && (resolRead' ==> 0 < seg.resolution) && seg.ShowsRow(ch, row)
    ensures OnlyChannel(seg, ch)
  {
    row, resolRead' := [], resolRead;
    var segNr, maxSegSize, definedBits := 0, l.frameLen - l.minLen / 8, 0;
    ghost var used := 0;
    ghost var whole := ReadChannel(sd.Rest(), l, shared, 0, Known(resolRead, seg.resolution), 0);
    RowBeforeNothing(whole);
    while true
      invariant InFrame(sd) && sd.data == old(sd.data) && (resolRead' ==> 0 < seg.resolution)
      invariant segNr == |row| <= l.maxSegs && 0 <= maxSegSize == l.Room() - used && 0 <= used && definedBits == 8 * used
      invariant InChannel(whole, row, sd.Rest(), l, shared, Known(resolRead', seg.resolution), used)
      invariant forall i :: 0 <= i < segNr ==> seg.segmentLen[ch, i] == row[i]
      invariant OnlyChannel(seg, ch)
      decreases l.maxSegs - segNr
    {
      if !shared && segNr >= l.maxSegs { fault := Faulty(TooManySegments); return; }
      ghost var before := sd.Rest();
      var ok, endOfChannel := ReadFlag(sd);
      if !ok { fault := Faulty(NegativeBitAllocation); return; }
      if endOfChannel == 1 {
        if segNr >= l.slots { fault := Faulty(RowOverrun); return; }   // segmentLen[ch, segNr] is not there
        seg.nrOfSegments[ch] := segNr + 1;
        seg.segmentLen[ch, segNr] := 0;
        fault := NoFault;
        return;
      }
      if segNr >= l.maxSegs { fault := Faulty(TooManySegments); return; }
      ghost var bits, r0 := sd.Rest(), Known(resolRead', seg.resolution);
      assert before == Cons(0, bits);
      var len;
      fault, len := ReadOneSegment(sd, l, seg, resolRead', maxSegSize, definedBits, used);
      if fault != NoFault { return; }
      resolRead' := true;
      EightTimes(seg.resolution, len);
      InChannelStep(whole, row, bits, l, shared, r0, used, seg.resolution, len, sd.Rest());
      row, used := row + [len], used + Times(seg.resolution, len);
      seg.segmentLen[ch, segNr] := len;
      definedBits := definedBits + seg.resolution * 8 * len;
      maxSegSize := maxSegSize - seg.resolution * len;
      segNr := segNr + 1;
    }
  }

  /** Gives channel ch the segments of channel 0. */
  method CopyChannel(seg: Segment, ch: nat, ghost row: seq<nat>)
    requires 0 < ch < seg.segmentLen.Length0 == seg.nrOfSegments.Length && seg.ShowsRow(0, row)
    modifies seg.segmentLen, seg.nrOfSegments
    ensures seg.ShowsRow(ch, row) && OnlyChannel(seg, ch)
  {
    seg.nrOfSegments[ch] := seg.nrOfSegments[0];
    for segNr := 0 to seg.nrOfSegments[0]
      invariant seg.ShowsRow(0, row) && seg.nrOfSegments[ch] == seg.nrOfSegments[0] && OnlyChannel(seg, ch)
      invariant forall i :: 0 <= i < segNr ==> seg.segmentLen[ch, i] == seg.segmentLen[0, i]
    {
      seg.segmentLen[ch, segNr] := seg.segmentLen[0, segNr];
    }
  }

  /** The sharing branch. */
  method ReadSharedSegments(sd: StrData, channels: nat, l: Limits, seg: Segment) returns (fault: Fault, ghost row: seq<nat>)
    requires InFrame(sd) && Small(l) && channels >= 1 && seg.Sized(channels, l.slots)
    modifies sd, seg`resolution, seg.segmentLen, seg.nrOfSegments
    ensures sd.data == old(sd.data) && sd.Valid()
    ensures match ReadChannel(old(sd.Rest()), l, true, 0, 0, 0)
            case Err(e) => fault == Faulty(e)
            case Ok(r, rest) => fault == NoFault && row == r.lens && seg.resolution == OrOne(r.resolution) && sd.Rest() == rest
    ensures fault == NoFault ==> InFrame(sd) && seg.Shows(Copies(row, channels))
  {
    var resolRead;
    fault, resolRead, row := ReadChannelData(sd, l, true, seg, 0, false);
    if fault != NoFault { return; }
    if !resolRead { seg.resolution := 1; }
    for chNr := 1 to channels
      modifies seg.segmentLen, seg.nrOfSegments
      invariant forall ch :: 0 <= ch < chNr ==> seg.ShowsRow(ch, row)
    {
      label Before:
      CopyChannel(seg, chNr, row);
      forall ch | 0 <= ch < chNr ensures seg.ShowsRow(ch, row) {
        assert old@Before(seg.ShowsRow(ch, row));
      }
    }
  }

  /** `rows` in front of what is read of the other channels. */
  function RowsBefore(rows: seq<seq<nat>>, r: Parsed<Rows>): Parsed<Rows> {
    match r
    case Err(e) => Err(e)
    case Ok(more, rest) => Ok(Rows(rows + more.rows, more.resolution), rest)
  }

  ghost predicate InChannels(whole: Parsed<Rows>, rows: seq<seq<nat>>, bits: BitList, l: Limits, left: nat, resolution: nat) {
    whole == RowsBefore(rows, ReadChannels(bits, l, left, resolution))
  }

  lemma InChannelsStart(bits: BitList, l: Limits, channels: nat)
    ensures InChannels(ReadChannels(bits, l, channels, 0), [], bits, l, channels, 0)
  {
    var r := ReadChannels(bits, l, channels, 0);
    if r.Ok? { assert [] + r.value.rows == r.value.rows; }
  }

  lemma InChannelsStep(whole: Parsed<Rows>, rows: seq<seq<nat>>, bits: BitList, l: Limits, left: nat, r0: nat, row: seq<nat>, res: nat, rest: BitList)
    requires left > 0 && InChannels(whole, rows, bits, l, left, r0)
    requires ReadChannel(bits, l, false, 0, r0, 0) == Ok(Row(row, res), rest)
    ensures InChannels(whole, rows + [row], rest, l, left - 1, res)
  {
    var r := ReadChannels(rest, l, left - 1, res);
    if r.Ok? { assert rows + ([row] + r.value.rows) == rows + [row] + r.value.rows; }
  }

  lemma InChannelsFails(whole: Parsed<Rows>, rows: seq<seq<nat>>, bits: BitList, l: Limits, left: nat, r0: nat)
    requires left > 0 && InChannels(whole, rows, bits, l, left, r0) && ReadChannel(bits, l, false, 0, r0, 0).Err?
    ensures whole == Err(ReadChannel(bits, l, false, 0, r0, 0).error)
  {
  }

  lemma InChannelsEnd(whole: Parsed<Rows>, rows: seq<seq<nat>>, bits: BitList, l: Limits, res: nat)
    requires InChannels(whole, rows, bits, l, 0, res)
    ensures whole == Ok(Rows(rows, res), bits)
  {
    assert rows + [] == rows;
  }

  /** The branch without sharing. */
  method ReadOwnSegments(sd: StrData, channels: nat, l: Limits, seg: Segment) returns (fault: Fault, ghost rows: seq<seq<nat>>)
    requires InFrame(sd) && Small(l) && seg.Sized(channels, l.slots)
    modifies sd, seg`resolution, seg.segmentLen, seg.nrOfSegments
    ensures sd.data == old(sd.data) && sd.Valid()
    ensures match ReadChannels(old(sd.Rest()), l, channels, 0)
            case Err(e) => fault == Faulty(e)
            case Ok(r, rest) => fault == NoFault && rows == r.rows && seg.resolution == OrOne(r.resolution) && sd.Rest() == rest
    ensures fault == NoFault ==> InFrame(sd) && |rows| == channels && seg.Shows(rows)
  {
    ghost var whole := ReadChannels(sd.Rest(), l, channels, 0);
    InChannelsStart(sd.Rest(), l, channels);
    var chNr, resolRead := 0, false;
    rows, fault := [], NoFault;
    while chNr < channels
      invariant InFrame(sd) && sd.data == old(sd.data) && (resolRead ==> 0 < seg.resolution)
      invariant fault == NoFault && chNr == |rows| <= channels && seg.Shows(rows)
      invariant InChannels(whole, rows, sd.Rest(), l, channels - chNr, Known(resolRead, seg.resolution))
    {
      ghost var bits, r0, row := sd.Rest(), Known(resolRead, seg.resolution), [];
      fault, resolRead, row := ReadChannelData(sd, l, false, seg, chNr, resolRead);
      if fault != NoFault {
        InChannelsFails(whole, rows, bits, l, channels - chNr, r0);
        return;
      }
      InChannelsStep(whole, rows, bits, l, channels - chNr, r0, row, Known(resolRead, seg.resolution), sd.Rest());
      rows := rows + [row];
      chNr := chNr + 1;
    }
    InChannelsEnd(whole, rows, sd.Rest(), l, Known(resolRead, seg.resolution));
    if !resolRead { seg.resolution := 1; }
  }

  /** ReadTableSegmentData */
  method ReadTableSegmentData(sd: StrData, channels: nat, l: Limits, seg: Segment) returns (fault: Fault, same: Bit, ghost s: Segments)
    requires InFrame(sd) && Small(l) && channels >= 1 && seg.Sized(channels, l.slots)
    modifies sd, seg`resolution, seg.segmentLen, seg.nrOfSegments
    ensures sd.data == old(sd.data) && sd.Valid()
    ensures match ReadSegments(old(sd.Rest()), l, channels)
            case Err(e) => fault == Faulty(e)
            case Ok(v, rest) => fault == NoFault && s == v && sd.Rest() == rest && same == FlagBit(s.same)
    ensures fault == NoFault ==> InFrame(sd) && seg.Holds(s)
  {
    var ok;
    s := Segments(false, 1, []);
    ok, same := ReadFlag(sd);
    if !ok { return Faulty(NegativeBitAllocation), 0, s; }
    if same == 1 {
      ghost var row;
      fault, row := ReadSharedSegments(sd, channels, l, seg);
      s := Segments(true, seg.resolution, Copies(row, channels));
    } else {
      ghost var rows;
      fault, rows := ReadOwnSegments(sd, channels, l, seg);
      s := Segments(false, seg.resolution, rows);
    }
  }

  lemma {:induction false} CopyFaultAt(rows: seq<seq<nat>>, res: nat, ch: nat)
    requires ch < |rows|
    requires forall c :: 0 <= c < ch ==> |rows[c]| + 1 <= 8 && forall i :: 0 <= i < |rows[c]| ==> !TooShort(res, rows[c][i])
    ensures |rows[ch]| + 1 > 8 ==> CopyFault(rows, res) == Faulty(TooManySegments)
    ensures |rows[ch]| + 1 <= 8 && (exists i :: 0 <= i < |rows[ch]| && TooShort(res, rows[ch][i])) ==> CopyFault(rows, res) == Faulty(InvalidSegmentLength)
  {
    if ch > 0 {
      assert forall i :: 0 <= i < |rows[0]| ==> !TooShort(res, rows[0][i]);
      CopyFaultAt(rows[1..], res, ch - 1);
    }
  }

  lemma {:induction false} CopyFaultFree(rows: seq<seq<nat>>, res: nat)
    requires forall c :: 0 <= c < |rows| ==> |rows[c]| + 1 <= 8 && forall i :: 0 <= i < |rows[c]| ==> !TooShort(res, rows[c][i])
    ensures CopyFault(rows, res) == NoFault
  {
    if rows != [] {
      assert forall i :: 0 <= i < |rows[0]| ==> !TooShort(res, rows[0][i]);
      CopyFaultFree(rows[1..], res);
    }
  }

  /** The inner loop of CopySegmentData: copies channel ch and compares it with channel 0. */
  method CopyRow(from: Segment, to: Segment, ch: nat, same: Bit, ghost row: seq<nat>, ghost first: seq<nat>) returns (fault: Fault, same': Bit)
    requires ch < from.nrOfSegments.Length == from.segmentLen.Length0 && from.ShowsRow(ch, row)
    requires to.Sized(to.nrOfSegments.Length, 8) && ch < to.nrOfSegments.Length && to.segmentLen != from.segmentLen
    requires to.nrOfSegments[ch] == |row| + 1 <= 8 && (same == 1 ==> |row| == |first|)
    requires if ch == 0 then row == first else to.ShowsRow(0, first)
    modifies to.segmentLen
    ensures OnlyChannel(to, ch)
    ensures fault != NoFault ==> fault == Faulty(InvalidSegmentLength) && exists i :: 0 <= i < |row| && TooShort(to.resolution, row[i])
    ensures fault == NoFault ==> to.ShowsRow(ch, row) && forall i :: 0 <= i < |row| ==> !TooShort(to.resolution, row[i])
    ensures fault == NoFault ==> same' == FlagBit(same == 1 && row == first)
  {
    same' := same;
    for segNr := 0 to to.nrOfSegments[ch]
      invariant OnlyChannel(to, ch)
      invariant forall i :: 0 <= i < segNr ==> to.segmentLen[ch, i] == from.segmentLen[ch, i]
      invariant forall i :: 0 <= i < segNr && i < |row| ==> !TooShort(to.resolution, row[i])
      invariant same' == FlagBit(same == 1 && forall i :: 0 <= i < segNr ==> to.segmentLen[ch, i] == to.segmentLen[0, i])
    {
      var len := from.segmentLen[ch, segNr];
      to.segmentLen[ch, segNr] := len;
      EightTimes(to.resolution, len);
      if len != 0 && to.resolution * 8 * len < 32 {
        return Faulty(InvalidSegmentLength), same';
      }
      if len != to.segmentLen[0, segNr] { same' := 0; }
    }
    fault := NoFault;
  }

  /** CopySegmentData */
  method CopySegmentData(from: Segment, to: Segment, channels: nat, ghost s: Segments) returns (fault: Fault, same: Bit)
    requires from.nrOfSegments.Length == channels && from.Holds(s)
    requires to.Sized(channels, 8) && to.segmentLen != from.segmentLen && to.nrOfSegments != from.nrOfSegments
    modifies to`resolution, to.segmentLen, to.nrOfSegments
    ensures fault == CopyFault(s.lens, s.resolution)
    ensures fault == NoFault ==> to.Holds(CopiedSegments(s)) && same == FlagBit(CopiedSegments(s).same)
  {
    to.resolution := from.resolution;
    same := 1;
    for chNr := 0 to channels
      modifies to.segmentLen, to.nrOfSegments
      invariant forall c :: 0 <= c < chNr ==> to.ShowsRow(c, s.lens[c])
      invariant forall c :: 0 <= c < chNr ==> |s.lens[c]| + 1 <= 8 && forall i :: 0 <= i < |s.lens[c]| ==> !TooShort(s.resolution, s.lens[c][i])
      invariant same == FlagBit(forall c :: 0 <= c < chNr ==> s.lens[c] == s.lens[0])
    {
      assert from.ShowsRow(chNr, s.lens[chNr]);
      CopyFaultAt(s.lens, s.resolution, chNr);
      to.nrOfSegments[chNr] := from.nrOfSegments[chNr];
      if to.nrOfSegments[chNr] > 8 {
        return Faulty(TooManySegments), same;
      }
      if to.nrOfSegments[chNr] != to.nrOfSegments[0] { same := 0; }
      fault, same := CopyRow(from, to, chNr, same, s.lens[chNr], s.lens[0]);
      if fault != NoFault { return; }
    }
    CopyFaultFree(s.lens, s.resolution);
    fault := NoFault;
  }
}
