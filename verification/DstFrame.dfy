/** A whole DST frame: what UnpackDSTframe of libs/libdstdec/unpack_dst.c makes of its bits, and the
    encoder it inverts. */
module DstFrame {
  import opened Arithmetic
  import opened Bits
  import opened DstRice
  import opened DstSegments
  import opened DstMapping
  import opened DstTables

  /** What the decoder knows of a stream before it sees a frame.  A byte has 8 bits, the stuffing of
      an uncoded frame 6, and the two kinds of tables are Coef() and Prob() (see DstConfigValid);
      nothing else depends on these numbers, only on how they fit together. */
  datatype Config = Config(channels: nat, frameLen: nat, maxFilters: nat, maxPtables: nat, byteBits: nat, stuffBits: nat,
                           filterKind: Kind, ptableKind: Kind, filterMethods: seq<Method>, ptableMethods: seq<Method>)
  {
    /** MaxFrameLen * NrOfChannels */
    function ByteStreamLen(): nat { Times(frameLen, channels) }

    ghost predicate Valid() {
      && channels >= 1 && 8 * frameLen >= 1024 && Pow2(byteBits) == 256 && stuffBits + 2 == byteBits
      && filterKind.Valid() && filterKind.signed && ptableKind.Valid() && !ptableKind.signed
      && ValidMethods(filterMethods) && ValidMethods(ptableMethods)
    }
  }

  /** The configuration of the decoder itself. */
  lemma DstConfigValid(channels: nat, frameLen: nat, maxFilters: nat, maxPtables: nat, filterMethods: seq<Method>, ptableMethods: seq<Method>)
    requires channels >= 1 && 8 * frameLen >= 1024 && ValidMethods(filterMethods) && ValidMethods(ptableMethods)
    ensures Config(channels, frameLen, maxFilters, maxPtables, 8, 6, Coef(), Prob(), filterMethods, ptableMethods).Valid()
  {
    KindsValid();
    Pow2Values();
  }

  /** Something the probability tables share with the filters, or have for themselves. */
  datatype Shared<+T> = AsFilter | Own(value: T)

  datatype Segmentation = Segmentation(filters: Segments, ptables: Shared<Segments>)

  datatype Maps = Maps(filters: Mapping, ptables: Shared<Mapping>)

  datatype Header = Header(segs: Segmentation, maps: Maps, half: seq<Bit>)

  datatype Frame =
    | Plain(spare: Bit, dsd: seq<Byte>)
    | Coded(header: Header, filters: seq<Table>, ptables: seq<Table>, code: BitList)

  // ----- segmentation of the probability tables, copied from the filters -----

  datatype Fault = NoFault | Faulty(error: DstError)

  /** A length that is too short for the probability tables. */
  predicate TooShort(res: nat, len: nat) { len != 0 && 8 * Times(res, len) < 32 }

  /** What CopySegmentData finds wrong in the channels from the first of `rows` on. */
  function CopyFault(rows: seq<seq<nat>>, res: nat): Fault {
    if rows == [] then NoFault
    else if |rows[0]| + 1 > 8 then Faulty(TooManySegments)
    else if exists i :: 0 <= i < |rows[0]| && TooShort(res, rows[0][i]) then Faulty(InvalidSegmentLength)
    else CopyFault(rows[1..], res)
  }

  predicate AllAgree(rows: seq<seq<nat>>) { forall i :: 0 <= i < |rows| ==> rows[i] == rows[0] }

  /** The copy: only the flag is computed anew. */
  function CopiedSegments(s: Segments): Segments { Segments(AllAgree(s.lens), s.resolution, s.lens) }

  /** The segmentation in effect for the probability tables. */
  function PtableSegments(s: Segmentation): Segments {
    match s.ptables
    case AsFilter => CopiedSegments(s.filters)
    case Own(own) => own
  }

  function ReadPtableSegments(bits: BitList, c: Config, same: Bit, filters: Segments): Parsed<Shared<Segments>> {
    if same == 1 then
      match CopyFault(filters.lens, filters.resolution)
      case NoFault => Ok(AsFilter, bits)
      case Faulty(e) => Err(e)
    else
      match ReadSegments(bits, PtableLimits(c.frameLen), c.channels)
      case Err(e) => Err(e)
      case Ok(s, rest) => Ok(Own(s), rest)
  }

  /** ReadSegmentData */
  function ReadSegmentation(bits: BitList, c: Config): Parsed<Segmentation> {
    match bits
    case Nil => Err(NegativeBitAllocation)
    case Cons(same, afterBit) =>
      match ReadSegments(afterBit, FilterLimits(c.frameLen), c.channels)
      case Err(e) => Err(e)
      case Ok(filters, rest) =>
        match ReadPtableSegments(rest, c, same, filters)
        case Err(e) => Err(e)
        case Ok(ptables, after) => Ok(Segmentation(filters, ptables), after)
  }

  // ----- mapping -----

  /** The number of segments of each channel, the last one included. */
  function Counts(s: Segments): seq<nat> {
    seq(|s.lens|, i requires 0 <= i < |s.lens| => |s.lens[i]| + 1)
  }

  /** The number of tables a mapping uses. */
  function TableCount(m: Mapping): nat { CountAfter(Sent(m), 0) }

  function PtableMap(m: Maps): seq<seq<nat>> {
    match m.ptables
    case AsFilter => m.filters.tables
    case Own(own) => own.tables
  }

  function PtableCount(m: Maps): nat {
    match m.ptables
    case AsFilter => TableCount(m.filters)
    case Own(own) => TableCount(own)
  }

  function ReadPtableMap(bits: BitList, c: Config, s: Segmentation, same: Bit, filters: Mapping): Parsed<Shared<Mapping>>
    requires Counts(PtableSegments(s)) != []
  {
    if same == 1 then
      if Counts(PtableSegments(s)) != Counts(s.filters) then Err(SegmentNumberMismatch)
      else if TableCount(filters) > c.maxPtables then Err(TooManyTables)
      else Ok(AsFilter, bits)
    else
      match ReadMapping(bits, Counts(PtableSegments(s)), c.maxPtables)
      case Err(e) => Err(e)
      case Ok(m, rest) => Ok(Own(m), rest)
  }

  /** The mapping part of ReadMappingData. */
  function ReadMaps(bits: BitList, c: Config, s: Segmentation): Parsed<Maps>
    requires Counts(s.filters) != [] && Counts(PtableSegments(s)) != []
  {
    match bits
    case Nil => Err(NegativeBitAllocation)
    case Cons(same, afterBit) =>
      match ReadMapping(afterBit, Counts(s.filters), c.maxFilters)
      case Err(e) => Err(e)
      case Ok(filters, rest) =>
        match ReadPtableMap(rest, c, s, same, filters)
        case Err(e) => Err(e)
        case Ok(ptables, after) => Ok(Maps(filters, ptables), after)
  }

  function ReadMapsAndHalf(bits: BitList, c: Config, s: Segmentation): Parsed<Header>
    requires Counts(s.filters) != [] && Counts(PtableSegments(s)) != []
  {
    match ReadMaps(bits, c, s)
    case Err(e) => Err(e)
    case Ok(maps, rest) =>
      match ReadEach(rest, c.channels, [])
      case Err(e) => Err(e)
      case Ok(half, after) => Ok(Header(s, maps, half), after)
  }

  function ReadHeader(bits: BitList, c: Config): Parsed<Header>
    requires c.Valid()
  {
    match ReadSegmentation(bits, c)
    case Err(e) => Err(e)
    case Ok(s, rest) => ReadMapsAndHalf(rest, c, s)
  }

  // ----- the frame -----

  /** The arithmetic code is all that is left; its first bit is 0. */
  function ReadCode(bits: BitList): Parsed<BitList> {
    if bits.Cons? && bits.bit != 0 then Err(InvalidArithmeticCode) else Ok(bits, Nil)
  }

  function ReadPtablesAndCode(bits: BitList, c: Config, h: Header, filters: seq<Table>): Parsed<Frame>
    requires c.Valid()
  {
    match ReadTables(bits, c.ptableKind, c.ptableMethods, PtableCount(h.maps), [])
    case Err(e) => Err(e)
    case Ok(ptables, rest) =>
      match ReadCode(rest)
      case Err(e) => Err(e)
      case Ok(code, end) => Ok(Coded(h, filters, ptables, code), end)
  }

  function ReadBody(bits: BitList, c: Config, h: Header): Parsed<Frame>
    requires c.Valid()
  {
    match ReadTables(bits, c.filterKind, c.filterMethods, TableCount(h.maps.filters), [])
    case Err(e) => Err(e)
    case Ok(filters, rest) => ReadPtablesAndCode(rest, c, h, filters)
  }

  function ReadCodedFrame(bits: BitList, c: Config): Parsed<Frame>
    requires c.Valid()
  {
    match ReadHeader(bits, c)
    case Err(e) => Err(e)
    case Ok(h, rest) => ReadBody(rest, c, h)
  }

  /** n bytes of w bits; past the end of the frame they are 0. */
  function ReadBytes(bits: BitList, w: nat, n: nat): Parsed<seq<Byte>>
    decreases n
  {
    if n == 0 then Ok([], bits)
    else
      match ReadByte(bits, w)
      case Err(e) => Err(e)
      case Ok(b, rest) =>
        match ReadBytes(rest, w, n - 1)
        case Err(e) => Err(e)
        case Ok(more, after) => Ok([b] + more, after)
  }

  function ReadByte(bits: BitList, w: nat): Parsed<Byte> {
    match ReadU(bits, w)
    case Err(_) => Ok(0, Nil)
    case Ok(v, rest) => Ok(v % 256, rest)
  }

  function ReadPlainFrame(bits: BitList, c: Config): Parsed<Frame> {
    match bits
    case Nil => Err(NegativeBitAllocation)
    case Cons(spare, rest) =>
      match ReadU(rest, c.stuffBits)
      case Err(e) => Err(e)
      case Ok(stuffing, after) =>
        if stuffing != 0 then Err(InvalidStuffingPattern)
        else
          match ReadBytes(after, c.byteBits, c.ByteStreamLen())
          case Err(e) => Err(e)
          case Ok(dsd, end) => Ok(Plain(spare, dsd), end)
  }

  /** UnpackDSTframe */
  function ReadFrame(bits: BitList, c: Config): Parsed<Frame>
    requires c.Valid()
  {
    match bits
    case Nil => Err(NegativeBitAllocation)
    case Cons(coded, rest) => if coded == 0 then ReadPlainFrame(rest, c) else ReadCodedFrame(rest, c)
  }

  // ----- which frames exist -----

  ghost predicate LegalSegmentation(s: Segmentation, c: Config) {
    && Legal(s.filters, FilterLimits(c.frameLen), c.channels)
    && (s.ptables.Own? ==> Legal(s.ptables.value, PtableLimits(c.frameLen), c.channels))
  }

  ghost predicate LegalMaps(m: Maps, s: Segmentation, c: Config) {
    && LegalMapping(m.filters, Counts(s.filters), c.maxFilters)
    && match m.ptables {
         case AsFilter => Counts(PtableSegments(s)) == Counts(s.filters) && TableCount(m.filters) <= c.maxPtables
         case Own(own) => LegalMapping(own, Counts(PtableSegments(s)), c.maxPtables)
       }
  }

  ghost predicate LegalHeader(h: Header, c: Config) {
    LegalSegmentation(h.segs, c) && LegalMaps(h.maps, h.segs, c) && |h.half| == c.channels
  }

  ghost predicate LegalFrame(f: Frame, c: Config)
    requires c.Valid()
  {
    match f
    case Plain(_, dsd) => |dsd| == c.ByteStreamLen()
    case Coded(h, filters, ptables, code) =>
      && LegalHeader(h, c)
      && |filters| == TableCount(h.maps.filters) && LegalTables(filters, c.filterKind, c.filterMethods)
      && |ptables| == PtableCount(h.maps) && LegalTables(ptables, c.ptableKind, c.ptableMethods)
      && (code.Cons? ==> code.bit == 0)
  }

  // ----- the encoder -----

  function FlagBit(b: bool): Bit { if b then 1 else 0 }

  ghost function WriteSegmentation(s: Segmentation, c: Config, tail: BitList): BitList
    requires c.Valid() && LegalSegmentation(s, c)
  {
    match s.ptables
    case AsFilter => Cons(1, WriteFilterSegments(s.filters, c, tail))
    case Own(own) => Cons(0, WriteFilterSegments(s.filters, c, WritePtableSegments(own, c, tail)))
  }

  ghost function WriteFilterSegments(s: Segments, c: Config, tail: BitList): BitList
    requires c.Valid() && Legal(s, FilterLimits(c.frameLen), c.channels)
  {
    WriteSegments(s, FilterLimits(c.frameLen), tail)
  }

  ghost function WritePtableSegments(s: Segments, c: Config, tail: BitList): BitList
    requires c.Valid() && Legal(s, PtableLimits(c.frameLen), c.channels)
  {
    WriteSegments(s, PtableLimits(c.frameLen), tail)
  }

  ghost predicate Sendable(m: Mapping) { Sent(m) != [] }

  ghost function WriteMaps(m: Maps, tail: BitList): BitList
    requires Sendable(m.filters) && (m.ptables.Own? ==> Sendable(m.ptables.value))
  {
    match m.ptables
    case AsFilter => Cons(1, WriteMapping(m.filters, tail))
    case Own(own) => Cons(0, WriteMapping(m.filters, WriteMapping(own, tail)))
  }

  lemma LegalSendable(m: Mapping, segs: seq<nat>, maxTables: nat)
    requires segs != [] && segs[0] >= 1 && LegalMapping(m, segs, maxTables)
    ensures Sendable(m)
  {
    MappingWritten(m, segs, maxTables, Nil);
  }

  lemma CountsFit(s: Segments, channels: nat)
    requires |s.lens| == channels >= 1
    ensures Counts(s) != [] && Counts(s)[0] >= 1
  {
  }

  lemma MapsSendable(m: Maps, s: Segmentation, c: Config)
    requires c.Valid() && LegalSegmentation(s, c) && LegalMaps(m, s, c)
    ensures Sendable(m.filters) && (m.ptables.Own? ==> Sendable(m.ptables.value))
  {
    CountsFit(s.filters, c.channels);
    CountsFit(PtableSegments(s), c.channels);
    LegalSendable(m.filters, Counts(s.filters), c.maxFilters);
    if m.ptables.Own? { LegalSendable(m.ptables.value, Counts(PtableSegments(s)), c.maxPtables); }
  }

  ghost function WriteHeader(h: Header, c: Config, tail: BitList): BitList
    requires c.Valid() && LegalHeader(h, c)
  {
    MapsSendable(h.maps, h.segs, c);
    WriteSegmentation(h.segs, c, WriteMaps(h.maps, WriteEach(h.half, 0, tail)))
  }

  function WriteBytes(bytes: seq<Byte>, w: nat, tail: BitList): BitList {
    if bytes == [] then tail else WriteU(bytes[0], w, WriteBytes(bytes[1..], w, tail))
  }

  /** The bits of a frame. */
  ghost function WriteFrame(f: Frame, c: Config): BitList
    requires c.Valid() && LegalFrame(f, c)
  {
    match f
    case Plain(spare, dsd) => Cons(0, Cons(spare, WriteU(0, c.stuffBits, WriteBytes(dsd, c.byteBits, Nil))))
    case Coded(h, filters, ptables, code) =>
      Cons(1, WriteHeader(h, c, WriteTables(filters, 0, c.filterKind, c.filterMethods, WriteTables(ptables, 0, c.ptableKind, c.ptableMethods, code))))
  }

  // ----- segmentation -----

  /** After the filter limits, copying never fails. */
  lemma {:induction false} CopyNeverFails(rows: seq<seq<nat>>, c: Config, shared: bool, res: nat)
    requires c.Valid() && forall i :: 0 <= i < |rows| ==> LegalRow(rows[i], FilterLimits(c.frameLen), shared, res)
    ensures CopyFault(rows, res) == NoFault
  {
    if rows != [] {
      LegalLensLeave(rows[0], FilterLimits(c.frameLen), res, 0);
      CopyNeverFails(rows[1..], c, shared, res);
    }
  }

  /** Filter segmentation that was read can always be copied, and the copy says that all channels
      are the same exactly when they are; also when the filters' own flag did not say so. */
  lemma FilterSegmentsCopy(bits: BitList, c: Config)
    requires c.Valid() && ReadSegments(bits, FilterLimits(c.frameLen), c.channels).Ok?
    ensures var s := ReadSegments(bits, FilterLimits(c.frameLen), c.channels).value;
            && CopyFault(s.lens, s.resolution) == NoFault
            && (CopiedSegments(s).same <==> forall i, j :: 0 <= i < c.channels && 0 <= j < c.channels ==> s.lens[i] == s.lens[j])
            && (s.same ==> CopiedSegments(s).same)
            && CopiedSegments(s).lens == s.lens && CopiedSegments(s).resolution == s.resolution
  {
    SegmentsExact(bits, FilterLimits(c.frameLen), c.channels);
    var s := ReadSegments(bits, FilterLimits(c.frameLen), c.channels).value;
    CopyNeverFails(s.lens, c, s.same, s.resolution);
  }

  lemma SegmentationWritten(s: Segmentation, c: Config, tail: BitList)
    requires c.Valid() && LegalSegmentation(s, c)
    ensures ReadSegmentation(WriteSegmentation(s, c, tail), c) == Ok(s, tail)
  {
    var fl, pl := FilterLimits(c.frameLen), PtableLimits(c.frameLen);
    match s.ptables
    case AsFilter =>
      SegmentsWritten(s.filters, fl, c.channels, tail);
      CopyNeverFails(s.filters.lens, c, s.filters.same, s.filters.resolution);
    case Own(own) =>
      SegmentsWritten(s.filters, fl, c.channels, WriteSegments(own, pl, tail));
      SegmentsWritten(own, pl, c.channels, tail);
  }

  lemma SegmentationExact(bits: BitList, c: Config)
    requires c.Valid() && ReadSegmentation(bits, c).Ok?
    ensures var r := ReadSegmentation(bits, c); LegalSegmentation(r.value, c) && bits == WriteSegmentation(r.value, c, r.rest)
  {
    var fl, pl := FilterLimits(c.frameLen), PtableLimits(c.frameLen);
    SegmentsExact(bits.tail, fl, c.channels);
    var f := ReadSegments(bits.tail, fl, c.channels);
    if bits.bit == 0 { SegmentsExact(f.rest, pl, c.channels); }
  }

  /** Of the segmentations, only one that the probability tables have for themselves can overrun its
      arrays; the one of the filters, copied or not, always fits. */
  lemma SegmentationOverruns(bits: BitList, c: Config)
    requires c.Valid()
    ensures ReadSegmentation(bits, c) == Err(RowOverrun)
       <==> && bits.Cons? && bits.bit == 0
            && var f := ReadSegments(bits.tail, FilterLimits(c.frameLen), c.channels);
               && f.Ok?
               && var p := ReadSegments(f.rest, Roomy(PtableLimits(c.frameLen)), c.channels);
                  p.Ok? && Overruns(p.value, PtableLimits(c.frameLen))
  {
    if bits.Cons? {
      var fl, pl := FilterLimits(c.frameLen), PtableLimits(c.frameLen);
      NoOverrun(bits.tail, fl, c.channels);
      var f := ReadSegments(bits.tail, fl, c.channels);
      if f.Ok? {
        OverrunsExactly(f.rest, pl, c.channels);
        NoOverrun(f.rest, Roomy(pl), c.channels);
        FilterSegmentsCopy(bits.tail, c);
      }
    }
  }

  // ----- mapping -----

  lemma MapsWritten(m: Maps, s: Segmentation, c: Config, tail: BitList)
    requires c.Valid() && LegalSegmentation(s, c) && LegalMaps(m, s, c)
    ensures Sendable(m.filters) && (m.ptables.Own? ==> Sendable(m.ptables.value))
    ensures Counts(s.filters) != [] && Counts(PtableSegments(s)) != []
    ensures ReadMaps(WriteMaps(m, tail), c, s) == Ok(m, tail)
  {
    CountsFit(s.filters, c.channels);
    CountsFit(PtableSegments(s), c.channels);
    MapsSendable(m, s, c);
    var fc, pc := Counts(s.filters), Counts(PtableSegments(s));
    match m.ptables
    case AsFilter =>
      MappingWritten(m.filters, fc, c.maxFilters, tail);
    case Own(own) =>
      MappingWritten(m.filters, fc, c.maxFilters, WriteMapping(own, tail));
      MappingWritten(own, pc, c.maxPtables, tail);
  }

  lemma MapsExact(bits: BitList, s: Segmentation, c: Config)
    requires c.Valid() && LegalSegmentation(s, c)
    requires Counts(s.filters) != [] && Counts(PtableSegments(s)) != [] && ReadMaps(bits, c, s).Ok?
    ensures var r := ReadMaps(bits, c, s);
            && LegalMaps(r.value, s, c) && Sendable(r.value.filters) && (r.value.ptables.Own? ==> Sendable(r.value.ptables.value))
            && bits == WriteMaps(r.value, r.rest)
  {
    var fc, pc := Counts(s.filters), Counts(PtableSegments(s));
    MappingExact(bits.tail, fc, c.maxFilters);
    var f := ReadMapping(bits.tail, fc, c.maxFilters);
    if bits.bit == 0 { MappingExact(f.rest, pc, c.maxPtables); }
  }

  lemma HeaderWritten(h: Header, c: Config, tail: BitList)
    requires c.Valid() && LegalHeader(h, c)
    ensures ReadHeader(WriteHeader(h, c, tail), c) == Ok(h, tail)
  {
    var afterMaps := WriteEach(h.half, 0, tail);
    MapsWritten(h.maps, h.segs, c, afterMaps);
    SegmentationWritten(h.segs, c, WriteMaps(h.maps, afterMaps));
    EachWritten(h.half, 0, tail);
    assert h.half[..0] == [];
  }

  lemma HeaderExact(bits: BitList, c: Config)
    requires c.Valid() && ReadHeader(bits, c).Ok?
    ensures var r := ReadHeader(bits, c); LegalHeader(r.value, c) && bits == WriteHeader(r.value, c, r.rest)
  {
    SegmentationExact(bits, c);
    var s := ReadSegmentation(bits, c);
    CountsFit(s.value.filters, c.channels);
    CountsFit(PtableSegments(s.value), c.channels);
    MapsExact(s.rest, s.value, c);
    EachExact(ReadMaps(s.rest, c, s.value).rest, c.channels, []);
  }

  // ----- frames -----

  lemma {:induction false} BytesWritten(bytes: seq<Byte>, w: nat, tail: BitList)
    requires Pow2(w) >= 256
    ensures ReadBytes(WriteBytes(bytes, w, tail), w, |bytes|) == Ok(bytes, tail)
  {
    if bytes != [] {
      ReadUWritten(bytes[0], w, WriteBytes(bytes[1..], w, tail));
      BytesWritten(bytes[1..], w, tail);
      assert bytes == [bytes[0]] + bytes[1..];
    }
  }

  lemma BodyWritten(h: Header, c: Config, filters: seq<Table>, ptables: seq<Table>, code: BitList)
    requires c.Valid() && LegalFrame(Coded(h, filters, ptables, code), c)
    ensures ReadBody(WriteTables(filters, 0, c.filterKind, c.filterMethods, WriteTables(ptables, 0, c.ptableKind, c.ptableMethods, code)), c, h)
         == Ok(Coded(h, filters, ptables, code), Nil)
  {
    var afterFilters := WriteTables(ptables, 0, c.ptableKind, c.ptableMethods, code);
    TablesWritten(filters, 0, c.filterKind, c.filterMethods, afterFilters);
    TablesWritten(ptables, 0, c.ptableKind, c.ptableMethods, code);
    assert filters[..0] == [] && ptables[..0] == [];
  }

  lemma PlainWritten(spare: Bit, dsd: seq<Byte>, c: Config)
    requires Pow2(c.byteBits) == 256 && |dsd| == c.ByteStreamLen()
    ensures ReadPlainFrame(Cons(spare, WriteU(0, c.stuffBits, WriteBytes(dsd, c.byteBits, Nil))), c) == Ok(Plain(spare, dsd), Nil)
  {
    BytesWritten(dsd, c.byteBits, Nil);
    ReadUWritten(0, c.stuffBits, WriteBytes(dsd, c.byteBits, Nil));
  }

  /** Unpacking the bits of any frame gives the frame back. */
  lemma FrameWritten(f: Frame, c: Config)
    requires c.Valid() && LegalFrame(f, c)
    ensures ReadFrame(WriteFrame(f, c), c) == Ok(f, Nil)
  {
    match f
    case Plain(spare, dsd) => PlainWritten(spare, dsd, c);
    case Coded(h, filters, ptables, code) =>
      var body := WriteTables(filters, 0, c.filterKind, c.filterMethods, WriteTables(ptables, 0, c.ptableKind, c.ptableMethods, code));
      HeaderWritten(h, c, body);
      BodyWritten(h, c, filters, ptables, code);
  }

  lemma BodyExact(bits: BitList, c: Config, h: Header) returns (filters: seq<Table>, ptables: seq<Table>, code: BitList)
    requires c.Valid() && ReadBody(bits, c, h).Ok?
    ensures ReadBody(bits, c, h) == Ok(Coded(h, filters, ptables, code), Nil) && (code.Cons? ==> code.bit == 0)
    ensures |filters| == TableCount(h.maps.filters) && LegalTables(filters, c.filterKind, c.filterMethods)
    ensures |ptables| == PtableCount(h.maps) && LegalTables(ptables, c.ptableKind, c.ptableMethods)
    ensures bits == WriteTables(filters, 0, c.filterKind, c.filterMethods, WriteTables(ptables, 0, c.ptableKind, c.ptableMethods, code))
  {
    var mid;
    filters, mid := TablesExact(bits, c.filterKind, c.filterMethods, TableCount(h.maps.filters), []);
    ptables, code := TablesExact(mid, c.ptableKind, c.ptableMethods, PtableCount(h.maps), []);
  }

  /** A coded frame that unpacks is legal, no bit of it is left over, and it is the code of the
      frame it unpacks to: no two bit strings unpack to the same coded frame. */
  lemma CodedFrameExact(bits: BitList, c: Config)
    requires c.Valid() && ReadFrame(bits, c).Ok? && ReadFrame(bits, c).value.Coded?
    ensures var r := ReadFrame(bits, c); r.rest == Nil && LegalFrame(r.value, c) && bits == WriteFrame(r.value, c)
  {
    assert bits.bit == 1;
    HeaderExact(bits.tail, c);
    var h := ReadHeader(bits.tail, c);
    var filters, ptables, code := BodyExact(h.rest, c, h.value);
  }

  // ----- table numbers -----

  lemma {:induction false} FlatHas(rows: seq<seq<nat>>, ch: nat, i: nat)
    requires ch < |rows| && i < |rows[ch]|
    ensures rows[ch][i] in Flat(rows)
  {
    if ch > 0 { FlatHas(rows[1..], ch - 1, i); }
  }

  /** Every number of a legal mapping is the number of a table. */
  lemma NumbersInRange(m: Mapping, segs: seq<nat>, maxTables: nat)
    requires LegalMapping(m, segs, maxTables)
    ensures forall ch, i :: 0 <= ch < |segs| && 0 <= i < segs[ch] ==> m.tables[ch][i] < TableCount(m)
  {
    GrowsUsesAll(Sent(m), 0);
    forall ch, i | 0 <= ch < |segs| && 0 <= i < segs[ch] ensures m.tables[ch][i] < TableCount(m) {
      if m.same {
        assert m.tables[ch] == m.tables[0] == Sent(m);
      } else {
        FlatHas(m.tables, ch, i);
      }
      assert m.tables[ch][i] in Sent(m);
    }
  }
}
