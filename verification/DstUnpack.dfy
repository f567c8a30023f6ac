/** UnpackDSTframe of libs/libdstdec/unpack_dst.c: one frame into the arrays of a decoder, against
    the function ReadFrame of DstFrame. */
module DstUnpack {
  import opened Arithmetic
  import opened Bits
  import opened DstData
  import opened DstRice
  import opened DstSegments
  import opened DstMapping
  import opened DstTables
  import opened DstFrame
  import opened DstUnpackCodes
  import opened DstUnpackSegments
  import opened DstUnpackMapping
  import opened DstUnpackTables
  import opened DstUnpackBits

  lemma ByteWidth(w: nat)
    requires Pow2(w) == 256
    ensures w == 8
  {
    Pow2Values();
    if w < 8 { Pow2Monotone(w, 7); }
    if w > 8 { Pow2Monotone(9, w); }
  }

  /** Behind the header of an uncoded frame (two single bits and the stuffing) whole bytes are left. */
  lemma BehindStuffing(data: seq<Byte>, n: nat, w: nat)
    requires data != [] && n + 2 == w && Pow2(w) == 256
    ensures var bits := AllBits(data);
            && bits.Cons? && bits.tail.Cons? && ReadU(bits.tail.tail, n).Ok? && ReadU(bits.tail.tail, n).rest == Unread(data, 1, 0)
            && Bytewise(Unread(data, 1, 0), w, |data| - 1)
  {
    ByteWidth(w);
    assert AllBits(data) == Unread(data, 1, w);
    assert Unread(data, 1, w).tail == Unread(data, 1, n + 1) && Unread(data, 1, n + 1).tail == Unread(data, 1, n);
    ChunkTaken(data, 1, n, n, 0);
    UnreadLength(data, 1, 0);
    TimesIsProduct(w, |data| - 1);
    LengthBytewise(Unread(data, 1, 0), w, |data| - 1);
  }

  /** The flags of a segmentation: PSameSegAsF, FSameSegAllCh and PSameSegAllCh. */
  datatype SegFlags = SegFlags(pSameSegAsF: Bit, fSameSegAllCh: Bit, pSameSegAllCh: Bit)

  /** The flags and counts of a mapping. */
  datatype MapFlags = MapFlags(pSameMapAsF: Bit, fSameMapAllCh: Bit, pSameMapAllCh: Bit, nrOfFilters: nat, nrOfPtables: nat)

  /** The scalars of a frame: DSTCoded, the flags and counts, and ADataLen. */
  datatype FrameHdr = FrameHdr(dstCoded: Bit, segFlags: SegFlags, mapFlags: MapFlags, aDataLen: nat)

  /** The part of the decoder's state that one frame fills. */
  class Ebunch {
    const c: Config
    const fSeg: Segment
    const pSeg: Segment
    const filters: Tables
    const ptables: Tables
    const halfProb: array<Bit>
    const nrOfHalfBits: array<nat>
    const aData: array<Byte>

    ghost predicate Valid() {
      && c.Valid() && c.channels <= 6 && c.frameLen < 0x1000_0000 && c.byteBits < 32
      && fSeg.Sized(c.channels, 8) && pSeg.Sized(c.channels, 8) && fSeg != pSeg
      && filters.Sized(c.maxFilters, Pow2(c.filterKind.lenBits)) && ptables.Sized(c.maxPtables, Pow2(c.ptableKind.lenBits))
      && halfProb.Length == nrOfHalfBits.Length == c.channels
      && fSeg.segmentLen != pSeg.segmentLen && fSeg.segmentLen != pSeg.table4Segment
      && fSeg.table4Segment != pSeg.segmentLen && fSeg.table4Segment != pSeg.table4Segment
      && fSeg.nrOfSegments != pSeg.nrOfSegments
      && fSeg.nrOfSegments != nrOfHalfBits && pSeg.nrOfSegments != nrOfHalfBits
      && filters.entries != ptables.entries && filters.infos != ptables.infos
    }

    /** DST_InitDecoder, for frames of at most `maxBits` bits of arithmetic code. */
    constructor (c: Config, maxBits: nat)
      requires c.Valid() && c.channels <= 6 && c.frameLen < 0x1000_0000 && c.byteBits < 32
      ensures Valid() && this.c == c && aData.Length == maxBits
    {
      this.c := c;
      var f := new Segment(c.channels, 8);
      var p := new Segment(c.channels, 8);
      fSeg, pSeg := f, p;
      var ft := new Tables(c.maxFilters, Pow2(c.filterKind.lenBits));
      var pt := new Tables(c.maxPtables, Pow2(c.ptableKind.lenBits));
      filters, ptables := ft, pt;
      halfProb := new Bit[c.channels];
      nrOfHalfBits := new nat[c.channels];
      aData := new Byte[maxBits];
    }

    /** The segmentation of both kinds of tables is in the arrays. */
    ghost predicate ShowsSegmentation(s: Segmentation, flags: SegFlags)
      reads fSeg, pSeg, fSeg.segmentLen, fSeg.nrOfSegments, pSeg.segmentLen, pSeg.nrOfSegments
    {
      && fSeg.Holds(s.filters) && pSeg.Holds(PtableSegments(s))
      && flags == SegFlags(FlagBit(s.ptables.AsFilter?), FlagBit(s.filters.same), FlagBit(PtableSegments(s).same))
    }

    /** The second half of ReadSegmentData. */
    method ReadPtableSegmentData(sd: StrData, asF: Bit, ghost f: Segments) returns (fault: Fault, pSame: Bit, ghost p: Shared<Segments>)
      requires Valid() && InFrame(sd) && fSeg.Holds(f)
      modifies sd, pSeg`resolution, pSeg.segmentLen, pSeg.nrOfSegments
      ensures sd.data == old(sd.data) && sd.Valid()
      ensures match ReadPtableSegments(old(sd.Rest()), c, asF, f)
              case Err(e) => fault == Faulty(e)
              case Ok(v, rest) => fault == NoFault && p == v && sd.Rest() == rest && InFrame(sd)
      ensures fault == NoFault ==> var s := PtableSegments(Segmentation(f, p)); pSeg.Holds(s) && pSame == FlagBit(s.same) && asF == FlagBit(p.AsFilter?)
    {
      if asF == 1 {
        p := AsFilter;
        fault, pSame := CopySegmentData(fSeg, pSeg, c.channels, f);
      } else {
        ghost var own;
        fault, pSame, own := ReadTableSegmentData(sd, c.channels, PtableLimits(c.frameLen), pSeg);
        p := Own(own);
      }
    }

    /** ReadSegmentData */
    method ReadSegmentData(sd: StrData) returns (fault: Fault, flags: SegFlags, ghost s: Segmentation)
      requires Valid() && InFrame(sd)
      modifies sd, fSeg`resolution, fSeg.segmentLen, fSeg.nrOfSegments, pSeg`resolution, pSeg.segmentLen, pSeg.nrOfSegments
      ensures sd.data == old(sd.data) && sd.Valid()
      ensures match ReadSegmentation(old(sd.Rest()), c)
              case Err(e) => fault == Faulty(e)
              case Ok(v, rest) => fault == NoFault && s == v && sd.Rest() == rest && InFrame(sd)
      ensures fault == NoFault ==> ShowsSegmentation(s, flags)
    {
      ghost var f, p;
      s, flags := Segmentation(Segments(false, 1, []), AsFilter), SegFlags(0, 0, 0);
      var ok, asF := ReadFlag(sd);
      if !ok { fault := Faulty(NegativeBitAllocation); return; }
      var fSame, pSame;
      fault, fSame, f := ReadTableSegmentData(sd, c.channels, FilterLimits(c.frameLen), fSeg);
      if fault != NoFault { return; }
      fault, pSame, p := ReadPtableSegmentData(sd, asF, f);
      s, flags := Segmentation(f, p), SegFlags(asF, fSame, pSame);
    }

    /** The table numbers of both kinds are in the arrays; the flag of a copied mapping is what
        CopyMappingData says. */
    ghost predicate ShowsMaps(m: Maps, segs: seq<nat>, flags: MapFlags)
      requires Valid() && |segs| == c.channels && forall ch :: 0 <= ch < |segs| ==> segs[ch] <= 8
      reads fSeg.table4Segment, pSeg.table4Segment
    {
      && |m.filters.tables| == |PtableMap(m)| == c.channels
      && ShowsMapping(fSeg, m.filters.tables) && ShowsMapping(pSeg, PtableMap(m))
      && flags.pSameMapAsF == FlagBit(m.ptables.AsFilter?) && flags.fSameMapAllCh == FlagBit(m.filters.same)
      && flags.pSameMapAllCh == FlagBit(if m.ptables.Own? then m.ptables.value.same else LikeFirst(pSeg, segs, |segs|))
      && flags.nrOfFilters == TableCount(m.filters) && flags.nrOfPtables == PtableCount(m)
    }

    /** The second half of ReadMappingData's maps. */
    method ReadPtableMappingData(sd: StrData, asF: Bit, nrOfFilters: nat, ghost s: Segmentation, ghost f: Mapping)
      returns (fault: Fault, count: nat, pSame: Bit, ghost p: Shared<Mapping>)
      requires Valid() && InFrame(sd) && Mappable(fSeg, Counts(s.filters)) && Mappable(pSeg, Counts(PtableSegments(s)))
      requires Shaped(f.tables, Counts(s.filters)) && ShowsMapping(fSeg, f.tables) && nrOfFilters == TableCount(f)
      modifies sd, pSeg.table4Segment
      ensures sd.data == old(sd.data) && sd.Valid()
      ensures match ReadPtableMap(old(sd.Rest()), c, s, asF, f)
              case Err(e) => fault == Faulty(e)
              case Ok(v, rest) => fault == NoFault && p == v && sd.Rest() == rest && InFrame(sd)
      ensures fault == NoFault ==> var m := Maps(f, p);
        && |PtableMap(m)| == c.channels && ShowsMapping(pSeg, PtableMap(m)) && count == PtableCount(m) && asF == FlagBit(p.AsFilter?)
        && pSame == FlagBit(if p.Own? then p.value.same else LikeFirst(pSeg, Counts(s.filters), |Counts(s.filters)|))
    {
      if asF == 1 {
        p := AsFilter;
        fault, count, pSame := CopyMappingData(fSeg, pSeg, nrOfFilters, c.maxPtables, f, Counts(s.filters), Counts(PtableSegments(s)));
      } else {
        ghost var own;
        fault, count, pSame, own := ReadTableMappingData(sd, pSeg, c.maxPtables, Counts(PtableSegments(s)));
        p := Own(own);
      }
    }

    /** The maps of ReadMappingData. */
    method ReadBothMaps(sd: StrData, ghost s: Segmentation) returns (fault: Fault, flags: MapFlags, ghost m: Maps)
      requires Valid() && InFrame(sd) && Mappable(fSeg, Counts(s.filters)) && Mappable(pSeg, Counts(PtableSegments(s)))
      modifies sd, fSeg.table4Segment, pSeg.table4Segment
      ensures sd.data == old(sd.data) && sd.Valid()
      ensures match ReadMaps(old(sd.Rest()), c, s)
              case Err(e) => fault == Faulty(e)
              case Ok(v, rest) => fault == NoFault && m == v && sd.Rest() == rest && InFrame(sd)
      ensures fault == NoFault ==> ShowsMaps(m, Counts(s.filters), flags)
    {
      ghost var f, p;
      m, flags := Maps(Mapping(false, []), AsFilter), MapFlags(0, 0, 0, 0, 0);
      var ok, asF := ReadFlag(sd);
      if !ok { fault := Faulty(NegativeBitAllocation); return; }
      var nrOfFilters, fSame, nrOfPtables, pSame;
      fault, nrOfFilters, fSame, f := ReadTableMappingData(sd, fSeg, c.maxFilters, Counts(s.filters));
      if fault != NoFault { return; }
      fault, nrOfPtables, pSame, p := ReadPtableMappingData(sd, asF, nrOfFilters, s, f);
      m, flags := Maps(f, p), MapFlags(asF, fSame, pSame, nrOfFilters, nrOfPtables);
    }

    /** The loop over HalfProb. */
    method ReadHalfProb(sd: StrData) returns (fault: Fault)
      requires Valid() && InFrame(sd)
      modifies sd, halfProb
      ensures sd.data == old(sd.data) && sd.Valid()
      ensures match ReadEach(old(sd.Rest()), c.channels, [])
              case Err(e) => fault == Faulty(e)
              case Ok(half, rest) => fault == NoFault && halfProb[..] == half && sd.Rest() == rest && InFrame(sd)
    {
      ghost var whole := ReadEach(sd.Rest(), c.channels, []);
      for j := 0 to c.channels
        invariant InFrame(sd) && sd.data == old(sd.data)
        invariant whole == ReadEach(sd.Rest(), c.channels - j, halfProb[..j])
      {
        ghost var done := halfProb[..j];
        var ok, b := ReadFlag(sd);
        if !ok { return Faulty(NegativeBitAllocation); }
        halfProb[j] := b;
        assert halfProb[..j + 1] == done + [b];
      }
      assert halfProb[..c.channels] == halfProb[..];
      fault := NoFault;
    }

    /** ReadMappingData */
    method ReadMappingData(sd: StrData, ghost s: Segmentation) returns (fault: Fault, flags: MapFlags, ghost h: Header)
      requires Valid() && InFrame(sd) && Mappable(fSeg, Counts(s.filters)) && Mappable(pSeg, Counts(PtableSegments(s)))
      modifies sd, fSeg.table4Segment, pSeg.table4Segment, halfProb
      ensures sd.data == old(sd.data) && sd.Valid()
      ensures match ReadMapsAndHalf(old(sd.Rest()), c, s)
              case Err(e) => fault == Faulty(e)
              case Ok(v, rest) => fault == NoFault && h == v && sd.Rest() == rest && InFrame(sd)
      ensures fault == NoFault ==> ShowsMaps(h.maps, Counts(s.filters), flags) && halfProb[..] == h.half
    {
      ghost var m;
      h := Header(s, Maps(Mapping(false, []), AsFilter), []);
      fault, flags, m := ReadBothMaps(sd, s);
      if fault != NoFault { return; }
      fault := ReadHalfProb(sd);
      h := Header(s, m, halfProb[..]);
    }

    /** The header of a coded frame is in the arrays. */
    ghost predicate ShowsHeader(h: Header, sf: SegFlags, mf: MapFlags)
      requires Valid()
      reads fSeg, pSeg, fSeg.segmentLen, fSeg.nrOfSegments, pSeg.segmentLen, pSeg.nrOfSegments
      reads fSeg.table4Segment, pSeg.table4Segment, halfProb
    {
      && ShowsSegmentation(h.segs, sf)
      && |Counts(h.segs.filters)| == c.channels && (forall ch :: 0 <= ch < c.channels ==> Counts(h.segs.filters)[ch] <= 8)
      && ShowsMaps(h.maps, Counts(h.segs.filters), mf) && halfProb[..] == h.half
    }

    /** ReadMappingData behind ReadSegmentData: completes the header. */
    method CompleteHeader(sd: StrData, sf: SegFlags, ghost s: Segmentation) returns (fault: Fault, mf: MapFlags, ghost h: Header)
      requires Valid() && InFrame(sd) && ShowsSegmentation(s, sf) && Counts(s.filters) != [] && Counts(PtableSegments(s)) != []
      modifies sd, fSeg.table4Segment, pSeg.table4Segment, halfProb
      ensures sd.data == old(sd.data) && sd.Valid()
      ensures match ReadMapsAndHalf(old(sd.Rest()), c, s)
              case Err(e) => fault == Faulty(e)
              case Ok(v, rest) => fault == NoFault && h == v && sd.Rest() == rest && InFrame(sd)
      ensures fault == NoFault ==> h.segs == s && ShowsHeader(h, sf, mf)
    {
      SegmentsMappable(fSeg, s.filters, 8);
      SegmentsMappable(pSeg, PtableSegments(s), 8);
      fault, mf, h := ReadMappingData(sd, s);
    }

    /** ReadSegmentData and ReadMappingData. */
    method ReadHeaderData(sd: StrData) returns (fault: Fault, sf: SegFlags, mf: MapFlags, ghost h: Header)
      requires Valid() && InFrame(sd)
      modifies sd, fSeg`resolution, fSeg.segmentLen, fSeg.nrOfSegments, pSeg`resolution, pSeg.segmentLen, pSeg.nrOfSegments
      modifies fSeg.table4Segment, pSeg.table4Segment, halfProb
      ensures sd.data == old(sd.data) && sd.Valid()
      ensures match ReadHeader(old(sd.Rest()), c)
              case Err(e) => fault == Faulty(e)
              case Ok(v, rest) => fault == NoFault && h == v && sd.Rest() == rest && InFrame(sd)
      ensures fault == NoFault ==> ShowsHeader(h, sf, mf)
    {
      ghost var s;
      mf := MapFlags(0, 0, 0, 0, 0);
      h := Header(Segmentation(Segments(false, 1, []), AsFilter), Maps(Mapping(false, []), AsFilter), []);
      fault, sf, s := ReadSegmentData(sd);
      if fault != NoFault { return; }
      CountsFit(s.filters, c.channels);
      CountsFit(PtableSegments(s), c.channels);
      fault, mf, h := CompleteHeader(sd, sf, s);
    }

    /** The first table of each channel is one of the filters. */
    ghost predicate FirstTables(rows: seq<seq<nat>>, n: nat)
      requires Valid()
      reads fSeg.table4Segment
    {
      |rows| == c.channels && forall ch :: 0 <= ch < c.channels ==> rows[ch] != [] && fSeg.table4Segment[ch, 0] == rows[ch][0] < n
    }

    lemma HeaderFirstTables(bits: BitList, h: Header, sf: SegFlags, mf: MapFlags)
      requires Valid() && ShowsHeader(h, sf, mf) && ReadHeader(bits, c).Ok? && ReadHeader(bits, c).value == h
      ensures FirstTables(h.maps.filters.tables, TableCount(h.maps.filters))
      ensures mf.nrOfFilters == TableCount(h.maps.filters) <= c.maxFilters && mf.nrOfPtables == PtableCount(h.maps) <= c.maxPtables
    {
      HeaderExact(bits, c);
      var m, counts := h.maps.filters, Counts(h.segs.filters);
      NumbersInRange(m, counts, c.maxFilters);
      forall ch | 0 <= ch < c.channels ensures m.tables[ch] != [] && fSeg.table4Segment[ch, 0] == m.tables[ch][0] {
        assert ShowsTables(fSeg, ch, m.tables[ch]);
      }
    }

    /** NrOfHalfBits of each channel is the order of its first filter. */
    ghost predicate ShowsHalfBits(rows: seq<seq<nat>>, fs: seq<Table>)
      reads nrOfHalfBits
    {
      && nrOfHalfBits.Length <= |rows|
      && forall ch :: 0 <= ch < nrOfHalfBits.Length ==> rows[ch] != [] && rows[ch][0] < |fs| && nrOfHalfBits[ch] == |fs[rows[ch][0]].entries|
    }

    /** The filters, once the header is read. */
    method ReadFilters(sd: StrData, n: nat, ghost rows: seq<seq<nat>>) returns (fault: Fault, ghost fs: seq<Table>)
      requires Valid() && InFrame(sd) && n <= c.maxFilters && FirstTables(rows, n)
      modifies sd, filters.entries, filters.infos, nrOfHalfBits
      ensures sd.data == old(sd.data) && sd.Valid()
      ensures match ReadTables(old(sd.Rest()), c.filterKind, c.filterMethods, n, [])
              case Err(e) => fault == Faulty(e)
              case Ok(v, rest) => fault == NoFault && fs == v && sd.Rest() == rest && InFrame(sd)
      ensures fault == NoFault ==> |fs| <= c.maxFilters && filters.Shows(fs, c.filterKind) && ShowsHalfBits(rows, fs)
    {
      fault, fs := ReadFilterCoefSets(sd, c.filterKind, c.filterMethods, filters, n, fSeg.table4Segment, nrOfHalfBits);
    }

    /** The arithmetic code: CalcNrOfBits less what was read so far, which is all that is left. */
    method ReadCodeData(sd: StrData) returns (fault: Fault, aDataLen: nat)
      requires Valid() && InFrame(sd) && 8 * |sd.data| <= aData.Length
      modifies sd, aData
      ensures sd.data == old(sd.data) && sd.Valid()
      ensures match ReadCode(old(sd.Rest()))
              case Err(e) => fault == Faulty(e)
              case Ok(code, rest) => fault == NoFault && sd.Rest() == rest && ShowsCode(code, aDataLen)
    {
      UnreadLength(sd.data, sd.byteCounter, sd.bitPosition);
      ghost var code := sd.Rest();
      aDataLen := 8 * |sd.data| - sd.BitCount();
      assert aDataLen == Length(code);
      ReadArithmeticCodedData(sd, aDataLen, aData);
      EachExact(code, aDataLen, []);
      EachEnough(code, aDataLen, []);
      assert Length(sd.Rest()) == 0;
      if aDataLen > 0 && aData[0] != 0 {
        assert code.bit == aData[..aDataLen][0];
        return Faulty(InvalidArithmeticCode), aDataLen;
      }
      assert aDataLen > 0 ==> code.bit == aData[..aDataLen][0];
      fault := NoFault;
    }

    /** Each bit of the code has its own place in the array. */
    ghost predicate ShowsCode(code: BitList, aDataLen: nat)
      reads aData
    {
      aDataLen == Length(code) <= aData.Length && ReadEach(code, aDataLen, []) == Ok(aData[..aDataLen], Nil)
    }

    /** The tables and the code of a frame are in the arrays. */
    ghost predicate ShowsBody(f: Frame, aDataLen: nat)
      requires Valid() && f.Coded?
      reads filters.entries, filters.infos, ptables.entries, ptables.infos, aData
    {
      && |f.filters| <= c.maxFilters && filters.Shows(f.filters, c.filterKind)
      && |f.ptables| <= c.maxPtables && ptables.Shows(f.ptables, c.ptableKind)
      && ShowsCode(f.code, aDataLen)
    }

    /** The probability tables and the code behind the filters `fs`. */
    method ReadPtablesAndCodeData(sd: StrData, n: nat, ghost h: Header, ghost fs: seq<Table>) returns (fault: Fault, aDataLen: nat, ghost f: Frame)
      requires Valid() && InFrame(sd) && n == PtableCount(h.maps) <= c.maxPtables && 8 * |sd.data| <= aData.Length
      requires |fs| <= c.maxFilters && filters.Shows(fs, c.filterKind)
      modifies sd, ptables.entries, ptables.infos, aData
      ensures sd.data == old(sd.data) && sd.Valid()
      ensures match ReadPtablesAndCode(old(sd.Rest()), c, h, fs)
              case Err(e) => fault == Faulty(e)
              case Ok(v, rest) => fault == NoFault && f == v && sd.Rest() == rest
      ensures fault == NoFault ==> f.Coded? && f.header == h && f.filters == fs && ShowsBody(f, aDataLen)
    {
      ghost var ps;
      f, aDataLen := Plain(0, []), 0;
      fault, ps := ReadProbabilityTables(sd, c.ptableKind, c.ptableMethods, ptables, n);
      if fault != NoFault { return; }
      f := Coded(h, fs, ps, sd.Rest());
      fault, aDataLen := ReadCodeData(sd);
    }

    /** Everything behind the header of a coded frame. */
    method ReadBodyData(sd: StrData, mf: MapFlags, ghost h: Header) returns (fault: Fault, aDataLen: nat, ghost f: Frame)
      requires Valid() && InFrame(sd) && FirstTables(h.maps.filters.tables, mf.nrOfFilters) && 8 * |sd.data| <= aData.Length
      requires mf.nrOfFilters == TableCount(h.maps.filters) <= c.maxFilters && mf.nrOfPtables == PtableCount(h.maps) <= c.maxPtables
      modifies sd, filters.entries, filters.infos, nrOfHalfBits
      modifies ptables.entries, ptables.infos, aData
      ensures sd.data == old(sd.data) && sd.Valid()
      ensures match ReadBody(old(sd.Rest()), c, h)
              case Err(e) => fault == Faulty(e)
              case Ok(v, rest) => fault == NoFault && f == v && sd.Rest() == rest
      ensures fault == NoFault ==> f.Coded? && f.header == h && ShowsBody(f, aDataLen) && ShowsHalfBits(h.maps.filters.tables, f.filters)
    {
      ghost var fs;
      f, aDataLen := Plain(0, []), 0;
      fault, fs := ReadFilters(sd, mf.nrOfFilters, h.maps.filters.tables);
      if fault != NoFault { return; }
      fault, aDataLen, f := ReadPtablesAndCodeData(sd, mf.nrOfPtables, h, fs);
    }

    /** Everything behind the header; the header stays as it is. */
    method CompleteFrame(sd: StrData, sf: SegFlags, mf: MapFlags, ghost h: Header) returns (fault: Fault, aDataLen: nat, ghost f: Frame)
      requires Valid() && InFrame(sd) && FirstTables(h.maps.filters.tables, mf.nrOfFilters) && 8 * |sd.data| <= aData.Length
      requires mf.nrOfFilters == TableCount(h.maps.filters) <= c.maxFilters && mf.nrOfPtables == PtableCount(h.maps) <= c.maxPtables
      requires ShowsHeader(h, sf, mf)
      modifies sd, filters.entries, filters.infos, nrOfHalfBits, ptables.entries, ptables.infos, aData
      ensures sd.data == old(sd.data) && sd.Valid()
      ensures match ReadBody(old(sd.Rest()), c, h)
              case Err(e) => fault == Faulty(e)
              case Ok(v, rest) => fault == NoFault && f == v && sd.Rest() == rest
      ensures fault == NoFault ==> f.Coded? && f.header == h && ShowsBody(f, aDataLen) && ShowsHalfBits(h.maps.filters.tables, f.filters)
      ensures ShowsHeader(h, sf, mf)
    {
      fault, aDataLen, f := ReadBodyData(sd, mf, h);
    }

    /** A coded frame, behind its first bit. */
    method UnpackCodedFrame(sd: StrData) returns (fault: Fault, sf: SegFlags, mf: MapFlags, aDataLen: nat, ghost f: Frame)
      requires Valid() && InFrame(sd) && 8 * |sd.data| <= aData.Length
      modifies sd, fSeg`resolution, fSeg.segmentLen, fSeg.nrOfSegments, pSeg`resolution, pSeg.segmentLen, pSeg.nrOfSegments
      modifies fSeg.table4Segment, pSeg.table4Segment, halfProb
      modifies filters.entries, filters.infos, nrOfHalfBits, ptables.entries, ptables.infos, aData
      ensures sd.data == old(sd.data) && sd.Valid()
      ensures match ReadCodedFrame(old(sd.Rest()), c)
              case Err(e) => fault == Faulty(e)
              case Ok(v, rest) => fault == NoFault && f == v && sd.Rest() == rest
      ensures fault == NoFault ==> f.Coded? && ShowsHeader(f.header, sf, mf) && ShowsBody(f, aDataLen)
      ensures fault == NoFault ==> ShowsHalfBits(f.header.maps.filters.tables, f.filters)
    {
      ghost var h;
      f, aDataLen := Plain(0, []), 0;
      ghost var bits := sd.Rest();
      fault, sf, mf, h := ReadHeaderData(sd);
      if fault != NoFault { return; }
      HeaderFirstTables(bits, h, sf, mf);
      fault, aDataLen, f := CompleteFrame(sd, sf, mf, h);
    }

    /** An uncoded frame, behind its first bit. */
    method UnpackPlainFrame(sd: StrData, max: nat, dsd: array<Byte>, ghost left: nat) returns (fault: Fault, ghost f: Frame)
      requires Valid() && InFrame(sd) && max == c.ByteStreamLen() <= dsd.Length
      requires sd.Rest().Cons? && ReadU(sd.Rest().tail, c.stuffBits).Ok? && Bytewise(ReadU(sd.Rest().tail, c.stuffBits).rest, c.byteBits, left)
      modifies sd, dsd
      ensures sd.data == old(sd.data) && sd.Valid()
      ensures match ReadPlainFrame(old(sd.Rest()), c)
              case Err(e) => fault == Faulty(e)
              case Ok(v, rest) => fault == NoFault && f == v && sd.Rest() == rest
      ensures fault == NoFault ==> f.Plain? && f.dsd == dsd[..max]
    {
      f := Plain(0, []);
      var ok, dummy := ReadFlag(sd);
      if !ok { fault := Faulty(NegativeBitAllocation); return; }
      ghost var spare := dummy;
      var stuffing;
      ok, stuffing := ReadNumber(sd, c.stuffBits);
      if !ok { fault := Faulty(NegativeBitAllocation); return; }
      if stuffing != 0 { fault := Faulty(InvalidStuffingPattern); return; }
      ReadDSDframe(sd, c.byteBits, max, dsd, left);
      f := Plain(spare, dsd[..max]);
      fault := NoFault;
    }

    /** UnpackDSTframe: fails exactly where ReadFrame fails and with its error; else the frame that
        ReadFrame makes of the bits is in the arrays, or the DSD bytes are in `dsd`. */
    method UnpackDSTframe(data: seq<Byte>, dsd: array<Byte>) returns (fault: Fault, hdr: FrameHdr, ghost f: Frame)
      requires Valid() && 8 * |data| <= aData.Length && c.ByteStreamLen() <= dsd.Length
      modifies fSeg`resolution, fSeg.segmentLen, fSeg.nrOfSegments, pSeg`resolution, pSeg.segmentLen, pSeg.nrOfSegments
      modifies fSeg.table4Segment, pSeg.table4Segment, halfProb
      modifies filters.entries, filters.infos, nrOfHalfBits, ptables.entries, ptables.infos, aData, dsd
      ensures match ReadFrame(AllBits(data), c)
              case Err(e) => fault == Faulty(e)
              case Ok(v, _) => fault == NoFault && f == v
      ensures fault == NoFault ==> hdr.dstCoded == FlagBit(f.Coded?)
      ensures fault == NoFault && f.Plain? ==> f.dsd == dsd[..c.ByteStreamLen()]
      ensures fault == NoFault && f.Coded? ==>
                ShowsHeader(f.header, hdr.segFlags, hdr.mapFlags) && ShowsBody(f, hdr.aDataLen) && ShowsHalfBits(f.header.maps.filters.tables, f.filters)
    {
      f, hdr := Plain(0, []), FrameHdr(0, SegFlags(0, 0, 0), MapFlags(0, 0, 0, 0, 0), 0);
      var sd := new StrData(data);
      if data != [] { BehindStuffing(data, c.stuffBits, c.byteBits); }
      var ok, coded := ReadFlag(sd);
      if !ok { fault := Faulty(NegativeBitAllocation); return; }
      if coded == 0 {
        TimesIsProduct(c.frameLen, c.channels);
        fault, f := UnpackPlainFrame(sd, c.frameLen * c.channels, dsd, |data| - 1);
      } else {
        var sf, mf, n;
        fault, sf, mf, n, f := UnpackCodedFrame(sd);
        hdr := FrameHdr(1, sf, mf, n);
      }
    }
  }

  /** The byte at place k, or 0 behind the end. */
  function ByteAt(data: seq<Byte>, k: nat): Byte { if k < |data| then data[k] else 0 }

  lemma {:induction false} AlignedBytes(data: seq<Byte>, k: nat, w: nat, n: nat)
    requires Pow2(w) == 256
    ensures ReadBytes(Unread(data, k, 0), w, n).Ok?
    ensures ReadBytes(Unread(data, k, 0), w, n).value == seq(n, i requires 0 <= i < n => ByteAt(data, k + i))
    decreases n
  {
    if n > 0 {
      AlignedByte(data, k, w);
      AlignedBytes(data, k + 1, w, n - 1);
      var more := seq(n - 1, i requires 0 <= i < n - 1 => ByteAt(data, k + 1 + i));
      assert [ByteAt(data, k)] + more == seq(n, i requires 0 <= i < n => ByteAt(data, k + i));
    }
  }

  lemma WholeByte(data: seq<Byte>, k: nat, w: nat)
    requires Pow2(w) == 256 && k < |data|
    ensures ReadU(Unread(data, k + 1, w), w) == Ok(data[k], Unread(data, k + 1, 0))
  {
    ChunkTaken(data, k + 1, w, w, 0);
    ShiftLeftZero(w);
    LowBitsSmall(data[k], w);
  }

  lemma AlignedByte(data: seq<Byte>, k: nat, w: nat)
    requires Pow2(w) == 256
    ensures ReadByte(Unread(data, k, 0), w) == Ok(ByteAt(data, k), Unread(data, k + 1, 0))
  {
    if k < |data| {
      ByteWidth(w);
      WholeByte(data, k, w);
      assert Unread(data, k, 0) == Unread(data, k + 1, w);
    } else {
      assert Unread(data, k, 0) == Nil && Unread(data, k + 1, 0) == Nil;
    }
  }

  lemma PlainBytes(data: seq<Byte>, c: Config, n: nat)
    requires c.Valid() && ReadFrame(AllBits(data), c).Ok? && ReadFrame(AllBits(data), c).value.Plain? && n == c.ByteStreamLen()
    ensures ReadFrame(AllBits(data), c).value.dsd == seq(n, i requires 0 <= i < n => ByteAt(data, 1 + i))
  {
    assert data != [];
    BehindStuffing(data, c.stuffBits, c.byteBits);
    AlignedBytes(data, 1, c.byteBits, c.ByteStreamLen());
  }

  /** An uncoded frame has as many bytes as its length times the channels: those behind the first one;
      bytes that are missing are 0. */
  lemma PlainFrameBytes(data: seq<Byte>, c: Config)
    requires c.Valid() && ReadFrame(AllBits(data), c).Ok? && ReadFrame(AllBits(data), c).value.Plain?
    ensures var n := c.frameLen * c.channels;
            ReadFrame(AllBits(data), c).value.dsd == seq(n, i requires 0 <= i < n => ByteAt(data, 1 + i))
  {
    TimesIsProduct(c.frameLen, c.channels);
    PlainBytes(data, c, c.frameLen * c.channels);
  }
}
