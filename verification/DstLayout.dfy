/** What the parts of a DST frame have to do with one another: how wide their fields are, how the
    segments cut the frame, and which tables they use. */
module DstLayout {
  import opened Arithmetic
  import opened Bits
  import opened DstRice
  import opened DstSegments
  import opened DstMapping
  import opened DstTables
  import opened DstFrame

  // ----- field widths -----

  /** w bits hold every number up to x, and fewer do not. */
  predicate Least(w: nat, x: nat) { x < Pow2(w) && (w > 0 ==> Pow2(w - 1) <= x) }

  lemma LeastIsWidth(w: nat, x: nat)
    requires Least(w, x)
    ensures w == Log2Up(x)
  {
    Log2UpBound(x);
    if w < Log2Up(x) { Pow2Monotone(w, Log2Up(x) - 1); }
    if w > Log2Up(x) { Pow2Monotone(Log2Up(x), w - 1); }
  }

  /** The resolution takes the bits that its largest value needs. */
  lemma ResolutionField(bits: BitList, l: Limits, w: nat)
    requires l.Valid() && Least(w, l.frameLen - l.minLen / 8) && ReadResolution(bits, l, 0).Ok?
    ensures ReadU(bits, w) == ReadResolution(bits, l, 0)
  {
    LeastIsWidth(w, l.frameLen - l.minLen / 8);
  }

  /** A length takes the bits that the longest segment needs which leaves room for a last one. */
  lemma LengthField(bits: BitList, l: Limits, used: nat, res: nat, w: nat)
    requires l.Valid() && res > 0 && used <= l.frameLen - l.minLen / 8
    requires Least(w, (l.frameLen - l.minLen / 8 - used) / res) && ReadLength(bits, l, used, res).Ok?
    ensures ReadU(bits, w) == ReadLength(bits, l, used, res)
  {
    QuotientIsDivision(l.Room() - used, res);
    LeastIsWidth(w, (l.frameLen - l.minLen / 8 - used) / res);
  }

  /** A table number takes the bits that the next new number needs. */
  lemma NumberField(bits: BitList, n: nat, count: nat, w: nat)
    requires n > 0 && Least(w, count) && ReadNumbers(bits, n, count).Ok?
    ensures ReadU(bits, w).Ok? && ReadNumbers(bits, n, count).value.tables != []
    ensures ReadNumbers(bits, n, count).value.tables[0] == ReadU(bits, w).value
  {
    LeastIsWidth(w, count);
  }

  // ----- segments -----

  predicate LongEnough(segs: seq<int>, minLen: nat) { forall i :: 0 <= i < |segs| ==> segs[i] >= minLen }

  /** The rules for lengths, one by one behind what is taken, come to this: every segment is long
      enough, the last one, which takes the rest of the frame, too. */
  lemma LegalExactly(row: seq<nat>, l: Limits, res: nat)
    requires l.Valid()
    ensures LegalLens(row, l, res, 0) <==> LongEnough(SegmentBits(row, l, res), l.minLen)
  {
    LegalBehind(row, l, res, 0);
    var segs := SegmentBits(row, l, res);
    assert segs[|row|] == 8 * l.frameLen - 8 * Used(row, res);
    if LongEnough(segs, l.minLen) {
      forall i | 0 <= i < |row| ensures 8 * Times(res, row[i]) >= l.minLen { assert segs[i] >= l.minLen; }
    }
    if row == [] { assert |segs| == 1; }
  }

  lemma {:induction false} LegalBehind(row: seq<nat>, l: Limits, res: nat, used: nat)
    ensures LegalLens(row, l, res, used) <==>
      && (forall i :: 0 <= i < |row| ==> 8 * Times(res, row[i]) >= l.minLen)
      && (row != [] ==> 8 * (used + Used(row, res)) <= 8 * l.frameLen - l.minLen)
    decreases |row|
  {
    if row != [] {
      LegalBehind(row[1..], l, res, used + Times(res, row[0]));
      assert forall i :: 0 <= i < |row| - 1 ==> row[1..][i] == row[i + 1];
      if forall i :: 0 <= i < |row| ==> 8 * Times(res, row[i]) >= l.minLen {
        assert 8 * Times(res, row[0]) >= l.minLen;
      }
      if LegalLens(row, l, res, used) {
        forall i | 0 <= i < |row| ensures 8 * Times(res, row[i]) >= l.minLen {
          if i > 0 { assert row[i] == row[1..][i - 1]; }
        }
      }
    }
  }

  /** The bits of the segments of a channel, for the filters and for the probability tables. */
  function FilterSegs(s: Segmentation, c: Config, ch: nat): seq<int>
    requires ch < |s.filters.lens|
  {
    SegmentBits(s.filters.lens[ch], FilterLimits(c.frameLen), s.filters.resolution)
  }

  function PtableSegs(s: Segmentation, c: Config, ch: nat): seq<int>
    requires ch < |PtableSegments(s).lens|
  {
    SegmentBits(PtableSegments(s).lens[ch], PtableLimits(c.frameLen), PtableSegments(s).resolution)
  }

  /** What the segments of a frame are like: they fill it, those of the filters are at most five with
      1024 bits or more, those of the probability tables at most eight with 32 bits or more, and the
      same ones if they are not sent; the mapping has as many numbers as there are segments. */
  lemma SegmentsOfFrame(bits: BitList, c: Config, ch: nat)
    requires c.Valid() && ch < c.channels && ReadSegmentation(bits, c).Ok?
    ensures var s := ReadSegmentation(bits, c).value;
            && |s.filters.lens| == |PtableSegments(s).lens| == c.channels
            && var f, p := FilterSegs(s, c, ch), PtableSegs(s, c, ch);
               && 1 <= |f| <= 5 && LongEnough(f, 1024) && Total(f) == 8 * c.frameLen
               && 1 <= |p| <= 8 && LongEnough(p, 32) && Total(p) == 8 * c.frameLen
               && (s.ptables.AsFilter? ==> p == f)
               && Counts(s.filters)[ch] == |f| && Counts(PtableSegments(s))[ch] == |p|
  {
    var fl, pl := FilterLimits(c.frameLen), PtableLimits(c.frameLen);
    var f := ReadSegments(bits.tail, fl, c.channels);
    ReadPartitions(bits.tail, fl, c.channels, ch);
    if bits.bit == 0 {
      ReadPartitions(f.rest, pl, c.channels, ch);
    }
  }

  // ----- tables -----

  ghost predicate Has(rows: seq<seq<nat>>, t: nat) { exists ch, i :: 0 <= ch < |rows| && 0 <= i < |rows[ch]| && rows[ch][i] == t }

  /** Every segment has the number of a table, and every table is used. */
  ghost predicate UsesTables(rows: seq<seq<nat>>, n: nat) {
    && (forall ch, i :: 0 <= ch < |rows| && 0 <= i < |rows[ch]| ==> rows[ch][i] < n)
    && (forall t: nat :: t < n ==> Has(rows, t))
  }

  lemma {:induction false} FlatFrom(rows: seq<seq<nat>>, t: nat) returns (ch: nat, i: nat)
    requires t in Flat(rows)
    ensures ch < |rows| && i < |rows[ch]| && rows[ch][i] == t
  {
    if t in rows[0] {
      ch := 0;
      i :| 0 <= i < |rows[0]| && rows[0][i] == t;
    } else {
      ch, i := FlatFrom(rows[1..], t);
      ch := ch + 1;
    }
  }

  lemma MappingUses(m: Mapping, segs: seq<nat>, maxTables: nat)
    requires LegalMapping(m, segs, maxTables)
    ensures UsesTables(m.tables, TableCount(m))
  {
    NumbersInRange(m, segs, maxTables);
    GrowsUsesAll(Sent(m), 0);
    forall ch, i | 0 <= ch < |m.tables| && 0 <= i < |m.tables[ch]| ensures m.tables[ch][i] < TableCount(m) {
      assert ch < |segs| && i < segs[ch];
    }
    forall t: nat | t < TableCount(m) ensures Has(m.tables, t) {
      assert t in Sent(m);
      if m.same {
        var i :| 0 <= i < |m.tables[0]| && m.tables[0][i] == t;
      } else {
        var ch, i := FlatFrom(m.tables, t);
      }
    }
  }

  /** A coded frame brings the tables its segments use, and no others. */
  lemma TablesUsed(bits: BitList, c: Config)
    requires c.Valid() && ReadCodedFrame(bits, c).Ok?
    ensures var f := ReadCodedFrame(bits, c).value;
            && f.Coded?
            && UsesTables(f.header.maps.filters.tables, |f.filters|) && UsesTables(PtableMap(f.header.maps), |f.ptables|)
  {
    CodedLegal(bits, c);
    var h := ReadCodedFrame(bits, c).value.header;
    MappingUses(h.maps.filters, Counts(h.segs.filters), c.maxFilters);
    if h.maps.ptables.Own? { MappingUses(h.maps.ptables.value, Counts(PtableSegments(h.segs)), c.maxPtables); }
  }

  lemma CodedLegal(bits: BitList, c: Config)
    requires c.Valid() && ReadCodedFrame(bits, c).Ok?
    ensures ReadCodedFrame(bits, c).value.Coded? && LegalFrame(ReadCodedFrame(bits, c).value, c)
  {
    CodedFrameExact(Cons(1, bits), c);
  }

  /** Not to send something again for the probability tables means what sending it would. */
  lemma SharedAsSent(f: Segments, m: Mapping)
    ensures var shared, sent := PtableSegments(Segmentation(f, AsFilter)), PtableSegments(Segmentation(f, Own(f)));
            shared.lens == sent.lens && shared.resolution == sent.resolution
    ensures PtableMap(Maps(m, AsFilter)) == PtableMap(Maps(m, Own(m))) == m.tables
    ensures PtableCount(Maps(m, AsFilter)) == PtableCount(Maps(m, Own(m)))
  {
  }
}
