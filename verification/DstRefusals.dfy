/** What the unpacker refuses, and with which error: frames that end too early, and fields that break
    a rule (libs/libdstdec/unpack_dst.c). */
module DstRefusals {
  import opened Arithmetic
  import opened Bits
  import opened DstRice
  import opened DstSegments
  import opened DstMapping
  import opened DstTables
  import opened DstFrame

  // ----- frames that end too early -----

  /** p is b, or the beginning of it. */
  predicate Begins(p: BitList, b: BitList) {
    p.Nil? || (b.Cons? && p.bit == b.bit && Begins(p.tail, b.tail))
  }

  /** Where the whole is read, so is its beginning, unless it ends before: then that is the error. */
  ghost predicate Cut<T(!new)>(short: Parsed<T>, whole: Parsed<T>) { CutWith(short, whole, NegativeBitAllocation) }

  ghost predicate CutWith<T(!new)>(short: Parsed<T>, whole: Parsed<T>, e: DstError) {
    whole.Ok? ==> short == Err(e) || (short.Ok? && short.value == whole.value && Begins(short.rest, whole.rest))
  }

  /** The same where Rice codes are read, which do not test for the end. */
  ghost predicate CutInCode<T(!new)>(short: Parsed<T>, whole: Parsed<T>) {
    whole.Ok? ==> short == Err(OutOfData) || Cut(short, whole)
  }

  lemma {:induction false} TakeCut(p: BitList, b: BitList, n: nat, acc: nat)
    requires Begins(p, b)
    ensures Cut(Take(p, n, acc), Take(b, n, acc))
    decreases n
  {
    if n > 0 && p.Cons? { TakeCut(p.tail, b.tail, n - 1, 2 * acc + p.bit); }
  }

  lemma {:induction false} EachCut(p: BitList, b: BitList, n: nat, done: seq<Bit>)
    requires Begins(p, b)
    ensures Cut(ReadEach(p, n, done), ReadEach(b, n, done))
    decreases n
  {
    if n > 0 && p.Cons? { EachCut(p.tail, b.tail, n - 1, done + [p.bit]); }
  }

  lemma SegmentCut(p: BitList, b: BitList, l: Limits, r0: nat, used: nat)
    requires Begins(p, b)
    ensures Cut(ReadSegment(p, l, r0, used), ReadSegment(b, l, r0, used))
  {
    TakeCut(p, b, Log2Up(Nat(l.Room())), 0);
    var short, whole := ReadResolution(p, l, r0), ReadResolution(b, l, r0);
    if short.Ok? && whole.Ok? { TakeCut(short.rest, whole.rest, LenWidth(l, used, whole.value), 0); }
  }

  lemma {:induction false} ChannelCut(p: BitList, b: BitList, l: Limits, shared: bool, n: nat, r0: nat, used: nat)
    requires Begins(p, b)
    ensures Cut(ReadChannel(p, l, shared, n, r0, used), ReadChannel(b, l, shared, n, r0, used))
    decreases l.maxSegs - n
  {
    if n < l.maxSegs && p.Cons? && p.bit == 0 {
      SegmentCut(p.tail, b.tail, l, r0, used);
      var short, whole := ReadSegment(p.tail, l, r0, used), ReadSegment(b.tail, l, r0, used);
      if short.Ok? && whole.Ok? {
        var s := whole.value;
        ChannelCut(short.rest, whole.rest, l, shared, n + 1, s.resolution, used + Times(s.resolution, s.len));
      }
    }
  }

  lemma {:induction false} ChannelsCut(p: BitList, b: BitList, l: Limits, channels: nat, r0: nat)
    requires Begins(p, b)
    ensures Cut(ReadChannels(p, l, channels, r0), ReadChannels(b, l, channels, r0))
    decreases channels
  {
    if channels > 0 {
      ChannelCut(p, b, l, false, 0, r0, 0);
      var short, whole := ReadChannel(p, l, false, 0, r0, 0), ReadChannel(b, l, false, 0, r0, 0);
      if short.Ok? && whole.Ok? { ChannelsCut(short.rest, whole.rest, l, channels - 1, whole.value.resolution); }
    }
  }

  lemma SegmentsCut(p: BitList, b: BitList, l: Limits, channels: nat)
    requires Begins(p, b)
    ensures Cut(ReadSegments(p, l, channels), ReadSegments(b, l, channels))
  {
    if p.Cons? {
      ChannelCut(p.tail, b.tail, l, true, 0, 0, 0);
      ChannelsCut(p.tail, b.tail, l, channels, 0);
    }
  }

  lemma SegmentationCut(p: BitList, b: BitList, c: Config)
    requires Begins(p, b)
    ensures Cut(ReadSegmentation(p, c), ReadSegmentation(b, c))
  {
    if p.Cons? {
      var fl, pl := FilterLimits(c.frameLen), PtableLimits(c.frameLen);
      SegmentsCut(p.tail, b.tail, fl, c.channels);
      var short, whole := ReadSegments(p.tail, fl, c.channels), ReadSegments(b.tail, fl, c.channels);
      if short.Ok? && whole.Ok? { SegmentsCut(short.rest, whole.rest, pl, c.channels); }
    }
  }

  lemma {:induction false} NumbersCut(p: BitList, b: BitList, n: nat, count: nat)
    requires Begins(p, b)
    ensures Cut(ReadNumbers(p, n, count), ReadNumbers(b, n, count))
    decreases n
  {
    if n > 0 {
      TakeCut(p, b, Log2Up(count), 0);
      var short, whole := ReadU(p, Log2Up(count)), ReadU(b, Log2Up(count));
      if short.Ok? && whole.Ok? { NumbersCut(short.rest, whole.rest, n - 1, Grown(whole.value, count)); }
    }
  }

  lemma {:induction false} GridCut(p: BitList, b: BitList, segs: seq<nat>, first: bool, count: nat)
    requires Begins(p, b) && (first ==> segs != [] && segs[0] >= 1)
    ensures Cut(ReadGrid(p, segs, first, count), ReadGrid(b, segs, first, count))
    decreases |segs|
  {
    if segs != [] {
      var n := if first then segs[0] - 1 else segs[0];
      NumbersCut(p, b, n, count);
      var short, whole := ReadNumbers(p, n, count), ReadNumbers(b, n, count);
      if short.Ok? && whole.Ok? { GridCut(short.rest, whole.rest, segs[1..], false, whole.value.count); }
    }
  }

  lemma MappingCut(p: BitList, b: BitList, segs: seq<nat>, maxTables: nat)
    requires Begins(p, b) && segs != [] && segs[0] >= 1
    ensures Cut(ReadMapping(p, segs, maxTables), ReadMapping(b, segs, maxTables))
  {
    if p.Cons? {
      NumbersCut(p.tail, b.tail, segs[0] - 1, 1);
      GridCut(p.tail, b.tail, segs, true, 1);
    }
  }

  lemma MapsCut(p: BitList, b: BitList, c: Config, s: Segmentation)
    requires Begins(p, b) && Counts(s.filters) != [] && Counts(PtableSegments(s)) != []
    ensures Cut(ReadMaps(p, c, s), ReadMaps(b, c, s))
  {
    if p.Cons? {
      var fc, pc := Counts(s.filters), Counts(PtableSegments(s));
      MappingCut(p.tail, b.tail, fc, c.maxFilters);
      var short, whole := ReadMapping(p.tail, fc, c.maxFilters), ReadMapping(b.tail, fc, c.maxFilters);
      if short.Ok? && whole.Ok? { MappingCut(short.rest, whole.rest, pc, c.maxPtables); }
    }
  }

  lemma HeaderCut(p: BitList, b: BitList, c: Config)
    requires c.Valid() && Begins(p, b)
    ensures Cut(ReadHeader(p, c), ReadHeader(b, c))
  {
    SegmentationCut(p, b, c);
    var short, whole := ReadSegmentation(p, c), ReadSegmentation(b, c);
    if short.Ok? && whole.Ok? {
      var s := whole.value;
      MapsCut(short.rest, whole.rest, c, s);
      var short', whole' := ReadMaps(short.rest, c, s), ReadMaps(whole.rest, c, s);
      if short'.Ok? && whole'.Ok? { EachCut(short'.rest, whole'.rest, c.channels, []); }
    }
  }

  lemma {:induction false} RunCut(p: BitList, b: BitList)
    requires Begins(p, b)
    ensures CutWith(ReadRun(p), ReadRun(b), OutOfData)
  {
    if p.Cons? && p.bit == 0 { RunCut(p.tail, b.tail); }
  }

  /** A Rice code that is cut short is out of data. */
  lemma RiceCut(p: BitList, b: BitList, m: nat)
    requires Begins(p, b)
    ensures CutWith(ReadRice(p, m), ReadRice(b, m), OutOfData)
  {
    RunCut(p, b);
    if ReadRun(p).Ok? && ReadRun(b).Ok? { TakeCut(ReadRun(p).rest, ReadRun(b).rest, m, 0); }
  }

  lemma {:induction false} RawCut(p: BitList, b: BitList, k: Kind, n: nat, done: seq<int>)
    requires Begins(p, b)
    ensures Cut(ReadRaw(p, k, n, done), ReadRaw(b, k, n, done))
    decreases n
  {
    if n > 0 {
      TakeCut(p, b, k.entryBits, 0);
      var short, whole := ReadEntry(p, k), ReadEntry(b, k);
      if short.Ok? && whole.Ok? { RawCut(short.rest, whole.rest, k, n - 1, done + [whole.value]); }
    }
  }

  lemma {:induction false} CodedCut(p: BitList, b: BitList, k: Kind, pm: Method, m: nat, n: nat, done: seq<int>)
    requires Begins(p, b) && pm.Valid() && pm.order <= |done|
    ensures CutInCode(ReadCoded(p, k, pm, m, n, done), ReadCoded(b, k, pm, m, n, done))
    decreases n
  {
    if n > 0 {
      RiceCut(p, b, m);
      var short, whole := ReadPredicted(p, k, pm, m, done), ReadPredicted(b, k, pm, m, done);
      if short.Ok? && whole.Ok? { CodedCut(short.rest, whole.rest, k, pm, m, n - 1, done + [whole.value]); }
    }
  }

  lemma WithMethodCut(p: BitList, b: BitList, k: Kind, pm: Method, which: nat, len: nat)
    requires Begins(p, b) && pm.Valid()
    ensures CutInCode(ReadWithMethod(p, k, pm, which, len), ReadWithMethod(b, k, pm, which, len))
  {
    if pm.order < len {
      RawCut(p, b, k, pm.order, []);
      var short, whole := ReadRaw(p, k, pm.order, []), ReadRaw(b, k, pm.order, []);
      if short.Ok? && whole.Ok? {
        RawLength(b, k, pm.order, []);
        TakeCut(short.rest, whole.rest, k.mBits, 0);
        var short', whole' := ReadU(short.rest, k.mBits), ReadU(whole.rest, k.mBits);
        if short'.Ok? && whole'.Ok? { CodedCut(short'.rest, whole'.rest, k, pm, whole'.value, len - pm.order, whole.value); }
      }
    }
  }

  lemma EntriesCut(p: BitList, b: BitList, k: Kind, ms: seq<Method>, len: nat)
    requires Begins(p, b) && ValidMethods(ms)
    ensures CutInCode(ReadEntries(p, k, ms, len), ReadEntries(b, k, ms, len))
  {
    if p.Cons? {
      RawCut(p.tail, b.tail, k, len, []);
      TakeCut(p.tail, b.tail, k.methodBits, 0);
      var short, whole := ReadU(p.tail, k.methodBits), ReadU(b.tail, k.methodBits);
      if short.Ok? && whole.Ok? && whole.value < 3 { WithMethodCut(short.rest, whole.rest, k, ms[whole.value], whole.value, len); }
    }
  }

  lemma {:induction false} TablesCut(p: BitList, b: BitList, k: Kind, ms: seq<Method>, n: nat, done: seq<Table>)
    requires Begins(p, b) && ValidMethods(ms)
    ensures CutInCode(ReadTables(p, k, ms, n, done), ReadTables(b, k, ms, n, done))
    decreases n
  {
    if n > 0 {
      TakeCut(p, b, k.lenBits, 0);
      var len, len' := ReadU(p, k.lenBits), ReadU(b, k.lenBits);
      if len.Ok? && len'.Ok? { EntriesCut(len.rest, len'.rest, k, ms, len'.value + 1); }
      var short, whole := ReadTable(p, k, ms), ReadTable(b, k, ms);
      if short.Ok? && whole.Ok? { TablesCut(short.rest, whole.rest, k, ms, n - 1, done + [whole.value]); }
    }
  }

  /** A header that is cut short anywhere is refused, for being too short. */
  lemma HeaderTooShort(h: Header, c: Config, p: BitList)
    requires c.Valid() && LegalHeader(h, c) && Begins(p, WriteHeader(h, c, Nil)) && p != WriteHeader(h, c, Nil)
    ensures ReadHeader(p, c) == Err(NegativeBitAllocation)
  {
    HeaderWritten(h, c, Nil);
    HeaderCut(p, WriteHeader(h, c, Nil), c);
    if ReadHeader(p, c).Ok? { HeaderExact(p, c); }
  }

  /** A coded frame that is cut short in front of its arithmetic code is never taken for another one:
      it is refused, for being too short. */
  lemma CodedTooShort(h: Header, filters: seq<Table>, ptables: seq<Table>, c: Config, p: BitList)
    requires c.Valid() && LegalFrame(Coded(h, filters, ptables, Nil), c)
    requires var whole := WriteFrame(Coded(h, filters, ptables, Nil), c); Begins(p, whole) && p != whole
    ensures ReadFrame(p, c) in {Err(NegativeBitAllocation), Err(OutOfData)}
  {
    var whole := WriteFrame(Coded(h, filters, ptables, Nil), c);
    FrameWritten(Coded(h, filters, ptables, Nil), c);
    if p.Cons? {
      CodedFrameCut(p.tail, whole.tail, c);
      if ReadFrame(p, c).Ok? { CodedFrameExact(p, c); }
    }
  }

  /** With no code behind the tables, a beginning is the whole if it is read. */
  ghost predicate NoCode(r: Parsed<Frame>) { r.Ok? && r.value.Coded? && r.value.code.Nil? }

  lemma CodedFrameCut(p: BitList, b: BitList, c: Config)
    requires c.Valid() && Begins(p, b) && NoCode(ReadCodedFrame(b, c))
    ensures ReadCodedFrame(p, c) in {Err(NegativeBitAllocation), Err(OutOfData), ReadCodedFrame(b, c)}
  {
    HeaderCut(p, b, c);
    var short, whole := ReadHeader(p, c), ReadHeader(b, c);
    if short.Ok? { BodyCut(short.rest, whole.rest, c, whole.value); }
  }

  lemma BodyCut(p: BitList, b: BitList, c: Config, h: Header)
    requires c.Valid() && Begins(p, b) && NoCode(ReadBody(b, c, h))
    ensures ReadBody(p, c, h) in {Err(NegativeBitAllocation), Err(OutOfData), ReadBody(b, c, h)}
  {
    var n, n' := TableCount(h.maps.filters), PtableCount(h.maps);
    TablesCut(p, b, c.filterKind, c.filterMethods, n, []);
    var short, whole := ReadTables(p, c.filterKind, c.filterMethods, n, []), ReadTables(b, c.filterKind, c.filterMethods, n, []);
    if short.Ok? { TablesCut(short.rest, whole.rest, c.ptableKind, c.ptableMethods, n', []); }
  }

  // ----- fields that break a rule -----

  /** An uncoded frame has to have zeros for its stuffing, and has no other rule. */
  lemma StuffingRefused(spare: Bit, stuffing: nat, c: Config, tail: BitList)
    requires c.Valid() && stuffing < Pow2(c.stuffBits)
    ensures var r := ReadFrame(Cons(0, Cons(spare, WriteU(stuffing, c.stuffBits, tail))), c);
            if stuffing == 0 then r.Ok? else r == Err(InvalidStuffingPattern)
  {
    ReadUWritten(stuffing, c.stuffBits, tail);
    BytesRead(tail, c.byteBits, c.ByteStreamLen());
  }

  lemma {:induction false} BytesRead(bits: BitList, w: nat, n: nat)
    ensures ReadBytes(bits, w, n).Ok?
    decreases n
  {
    if n > 0 { BytesRead(ReadByte(bits, w).rest, w, n - 1); }
  }

  /** A resolution has to be at least 1, and to leave room for the shortest segment. */
  lemma ResolutionRefused(res: nat, l: Limits, tail: BitList)
    requires l.Valid() && res < Pow2(Log2Up(l.Room()))
    ensures ReadResolution(WriteU(res, Log2Up(l.Room()), tail), l, 0)
         == if 1 <= res <= l.frameLen - l.minLen / 8 then Ok(res, tail) else Err(InvalidSegmentResolution)
  {
    ReadUWritten(res, Log2Up(l.Room()), tail);
  }

  /** A segment has to have the least length, and to leave room for a last one. */
  lemma LengthRefused(len: nat, l: Limits, used: nat, res: nat, tail: BitList)
    requires l.Valid() && res > 0 && len < Pow2(LenWidth(l, used, res))
    ensures ReadLength(WriteU(len, LenWidth(l, used, res), tail), l, used, res)
         == if l.minLen <= 8 * Times(res, len) && 8 * used + 8 * Times(res, len) + l.minLen <= 8 * l.frameLen then Ok(len, tail)
            else Err(InvalidSegmentLength)
  {
    ReadUWritten(len, LenWidth(l, used, res), tail);
  }

  /** A channel with segments of legal lengths, but too many of them: without sharing one less is
      allowed, since the test is in front of the bit that ends the channel. */
  lemma {:induction false} ManyRefused(lens: seq<nat>, l: Limits, shared: bool, n: nat, r0: nat, res: nat, used: nat, tail: BitList)
    requires l.Valid() && LegalLens(lens, l, res, used) && n <= l.maxSegs
    requires res > 0 && (r0 == 0 || r0 == res) && (lens != [] ==> Agrees(l, r0, res))
    requires if shared then n + |lens| > l.maxSegs else n + |lens| >= l.maxSegs
    ensures ReadChannel(WriteChannel(lens, l, r0 != 0, res, used, tail), l, shared, n, r0, used) == Err(TooManySegments)
    decreases |lens|
  {
    if n < l.maxSegs {
      var len, later := lens[0], used + Times(res, lens[0]);
      var more := WriteChannel(lens[1..], l, true, res, later, tail);
      SegmentWritten(l, r0, res, used, len, more);
      ChannelGoesOn(WriteSegment(l, r0 != 0, res, used, len, more), more, l, shared, n, r0, used, res, len);
      ManyRefused(lens[1..], l, shared, n + 1, res, res, later, tail);
    }
  }

  /** A table number has to be one that is known, or the next new one. */
  lemma NumberRefused(t: nat, n: nat, count: nat, tail: BitList)
    requires n > 0 && t < Pow2(Log2Up(count))
    ensures t > count ==> ReadNumbers(WriteU(t, Log2Up(count), tail), n, count) == Err(InvalidTableNumber)
    ensures t <= count && n == 1 ==> ReadNumbers(WriteU(t, Log2Up(count), tail), n, count).Ok?
  {
    ReadUWritten(t, Log2Up(count), tail);
    assert ReadNumbers(tail, 0, Grown(t, count)).Ok?;
  }

  /** A mapping has to do with as many tables as are allowed. */
  lemma TablesRefused(m: Mapping, segs: seq<nat>, maxTables: nat, tail: BitList)
    requires segs != [] && segs[0] >= 1 && LegalMapping(m, segs, TableCount(m))
    ensures Sent(m) != []
    ensures ReadMapping(WriteMapping(m, tail), segs, maxTables) == if TableCount(m) <= maxTables then Ok(m, tail) else Err(TooManyTables)
  {
    MappingWritten(m, segs, TableCount(m), tail);
    if m.same {
      FirstZero(m.tables[0]);
      NumbersWritten(m.tables[0][1..], 1, tail);
      assert forall i :: 0 <= i < |segs| ==> |m.tables[i]| == segs[i];
    } else {
      FirstRowWritten(m.tables, segs, tail);
    }
  }

  /** Channels can share the numbers of the first one if they have as many segments. */
  lemma SharingRefused(row: seq<nat>, segs: seq<nat>, maxTables: nat, tail: BitList)
    requires row != [] && Grows(row, 0) && segs != [] && |row| == segs[0] && CountAfter(row, 0) <= maxTables
    ensures var r := ReadMapping(Cons(1, WriteNumbers(row[1..], 1, tail)), segs, maxTables);
            if forall i :: 0 <= i < |segs| ==> segs[i] == segs[0] then r.Ok? else r == Err(InvalidChannelMapping)
  {
    FirstZero(row);
    NumbersWritten(row[1..], 1, tail);
  }

  /** The probability tables can take over the mapping of the filters if they have as many segments
      in every channel, and may have as many tables. */
  lemma TakingOverRefused(m: Mapping, s: Segmentation, c: Config, tail: BitList)
    requires c.Valid() && LegalSegmentation(s, c) && LegalMapping(m, Counts(s.filters), c.maxFilters)
    ensures Sent(m) != [] && Counts(s.filters) != [] && Counts(PtableSegments(s)) != []
    ensures ReadMaps(Cons(1, WriteMapping(m, tail)), c, s)
         == if Counts(PtableSegments(s)) != Counts(s.filters) then Err(SegmentNumberMismatch)
            else if TableCount(m) > c.maxPtables then Err(TooManyTables)
            else Ok(Maps(m, AsFilter), tail)
  {
    CountsFit(s.filters, c.channels);
    CountsFit(PtableSegments(s), c.channels);
    MappingWritten(m, Counts(s.filters), c.maxFilters, tail);
  }

  /** A table that is coded has to be longer than what its method starts from; the fourth method does
      not exist. */
  lemma MethodRefused(which: nat, ms: seq<Method>, len: nat, tail: BitList)
    requires ValidMethods(ms) && which < 4 && (which < 3 ==> len <= ms[which].order)
    ensures ReadEntries(Cons(1, WriteU(which, 2, tail)), Coef(), ms, len)
         == Err(if which < 3 then InvalidCoefficientCoding else UnknownMethod)
    ensures len == 1 || ReadEntries(Cons(1, WriteU(which, 2, tail)), Prob(), ms, len)
                     == Err(if which < 3 then InvalidPtableCoding else UnknownMethod)
  {
    KindsValid();
    ReadUWritten(which, 2, tail);
  }

  /** A predicted entry has to be in range. */
  lemma EntryRefused(v: int, pm: Method, m: nat, done: seq<int>, tail: BitList)
    requires pm.Valid() && pm.order <= |done|
    ensures var code := WriteRice(Difference(pm, done, v), m, tail);
            && ReadPredicted(code, Coef(), pm, m, done) == (if -256 <= v <= 255 then Ok(v, tail) else Err(InvalidCoefficientRange))
            && ReadPredicted(code, Prob(), pm, m, done) == (if 1 <= v <= 128 then Ok(v, tail) else Err(InvalidPtableRange))
  {
    RiceWritten(Difference(pm, done, v), m, tail);
    CorrectionFloors(Predicted(pm.coefs, done, pm.order));
  }

  /** The arithmetic code has to start with 0. */
  lemma CodeRefused(h: Header, filters: seq<Table>, ptables: seq<Table>, c: Config, code: BitList)
    requires c.Valid() && LegalFrame(Coded(h, filters, ptables, Nil), c) && code.Cons? && code.bit == 1
    ensures ReadFrame(Cons(1, WriteHeader(h, c, TablesAndCode(filters, ptables, c, code))), c) == Err(InvalidArithmeticCode)
  {
    HeaderWritten(h, c, TablesAndCode(filters, ptables, c, code));
    BodyRefused(h, filters, ptables, c, code);
  }

  function TablesAndCode(filters: seq<Table>, ptables: seq<Table>, c: Config, code: BitList): BitList
    requires ValidMethods(c.filterMethods) && LegalTables(filters, c.filterKind, c.filterMethods)
    requires ValidMethods(c.ptableMethods) && LegalTables(ptables, c.ptableKind, c.ptableMethods)
  {
    WriteTables(filters, 0, c.filterKind, c.filterMethods, WriteTables(ptables, 0, c.ptableKind, c.ptableMethods, code))
  }

  lemma BodyRefused(h: Header, filters: seq<Table>, ptables: seq<Table>, c: Config, code: BitList)
    requires c.Valid() && LegalFrame(Coded(h, filters, ptables, Nil), c) && code.Cons? && code.bit == 1
    ensures ReadBody(TablesAndCode(filters, ptables, c, code), c, h) == Err(InvalidArithmeticCode)
  {
    TablesWritten(filters, 0, c.filterKind, c.filterMethods, WriteTables(ptables, 0, c.ptableKind, c.ptableMethods, code));
    TablesWritten(ptables, 0, c.ptableKind, c.ptableMethods, code);
    assert filters[..0] == [] && ptables[..0] == [];
  }
}
