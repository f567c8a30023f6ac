/** ReadTableMappingData and CopyMappingData of libs/libdstdec/unpack_dst.c on the arrays they fill,
    against the functions of DstMapping and DstFrame. */
module DstUnpackMapping {
  import opened Bits
  import opened DstData
  import opened DstRice
  import opened DstSegments
  import opened DstMapping
  import opened DstFrame
  import opened DstUnpackCodes
  import opened DstUnpackSegments

  /** The segments of each channel fit the arrays, and the table numbers fit 32 bits. */
  ghost predicate Mappable(seg: Segment, segs: seq<nat>)
    reads seg.nrOfSegments
  {
    && seg.nrOfSegments[..] == segs && segs != [] && |segs| <= 6 && seg.table4Segment.Length0 == |segs|
    && 1 <= seg.table4Segment.Length1 <= 8 && forall ch :: 0 <= ch < |segs| ==> 1 <= segs[ch] <= seg.table4Segment.Length1
  }

  /** Segments that are in the arrays can be mapped. */
  lemma SegmentsMappable(seg: Segment, s: Segments, slots: nat)
    requires seg.Holds(s) && 1 <= |s.lens| <= 6 && seg.Sized(|s.lens|, slots) && 1 <= slots <= 8
    ensures Mappable(seg, Counts(s))
  {
    assert forall ch :: 0 <= ch < |s.lens| ==> seg.ShowsRow(ch, s.lens[ch]);
    assert seg.nrOfSegments[..] == Counts(s);
  }

  ghost predicate ShowsTables(seg: Segment, ch: nat, row: seq<nat>)
    requires ch < seg.table4Segment.Length0
    reads seg.table4Segment
  {
    |row| <= seg.table4Segment.Length1 && forall i :: 0 <= i < |row| ==> seg.table4Segment[ch, i] == row[i]
  }

  ghost predicate ShowsMapping(seg: Segment, rows: seq<seq<nat>>)
    requires |rows| <= seg.table4Segment.Length0
    reads seg.table4Segment
  {
    forall ch :: 0 <= ch < |rows| ==> ShowsTables(seg, ch, rows[ch])
  }

  /** Nothing but channel ch from entry `from` on has changed. */
  twostate predicate OnlyTables(seg: Segment, ch: nat, from: nat)
    reads seg.table4Segment
  {
    forall c, i :: 0 <= c < seg.table4Segment.Length0 && 0 <= i < seg.table4Segment.Length1 && (c != ch || i < from)
      ==> seg.table4Segment[c, i] == old(seg.table4Segment[c, i])
  }

  /** `ts` in front of the numbers still to be read. */
  ghost predicate InNumbers(whole: Parsed<Numbers>, ts: seq<nat>, bits: BitList, left: nat, count: nat) {
    whole == match ReadNumbers(bits, left, count)
             case Err(e) => Err(e)
             case Ok(ns, rest) => Ok(Numbers(ts + ns.tables, ns.count), rest)
  }

  lemma InNumbersStart(bits: BitList, left: nat, count: nat)
    ensures InNumbers(ReadNumbers(bits, left, count), [], bits, left, count)
  {
    var r := ReadNumbers(bits, left, count);
    if r.Ok? { assert [] + r.value.tables == r.value.tables; }
  }

  lemma InNumbersStep(whole: Parsed<Numbers>, ts: seq<nat>, bits: BitList, left: nat, count: nat, t: nat, rest: BitList)
    requires left > 0 && InNumbers(whole, ts, bits, left, count)
    requires ReadU(bits, Log2Up(count)) == Ok(t, rest) && t <= count
    ensures InNumbers(whole, ts + [t], rest, left - 1, Grown(t, count))
  {
    var r := ReadNumbers(rest, left - 1, Grown(t, count));
    if r.Ok? { assert ts + ([t] + r.value.tables) == ts + [t] + r.value.tables; }
  }

  lemma InNumbersEnd(whole: Parsed<Numbers>, ts: seq<nat>, bits: BitList, count: nat)
    requires InNumbers(whole, ts, bits, 0, count)
    ensures whole == Ok(Numbers(ts, count), bits)
  {
    assert ts + [] == ts;
  }

  lemma InNumbersFails(whole: Parsed<Numbers>, ts: seq<nat>, bits: BitList, left: nat, count: nat, e: DstError)
    requires left > 0 && InNumbers(whole, ts, bits, left, count)
    requires match ReadU(bits, Log2Up(count)) case Err(f) => e == f case Ok(t, _) => t > count && e == InvalidTableNumber
    ensures whole == Err(e)
  {
  }

  /** The numbers of the segments `from` to `to` of channel ch. */
  method ReadTableNumbers(sd: StrData, seg: Segment, ch: nat, from: nat, to: nat, count: nat)
    returns (fault: Fault, count': nat, ghost ts: seq<nat>)
    requires InFrame(sd) && ch < seg.table4Segment.Length0 && from <= to <= seg.table4Segment.Length1 && count + to < 0x8000_0000
    modifies sd, seg.table4Segment
    ensures sd.data == old(sd.data) && sd.Valid() && OnlyTables(seg, ch, from)
    ensures match ReadNumbers(old(sd.Rest()), to - from, count)
            case Err(e) => fault == Faulty(e)
            case Ok(ns, rest) => fault == NoFault && ns == Numbers(ts, count') && sd.Rest() == rest && InFrame(sd)
    ensures fault == NoFault ==> |ts| == to - from && count' <= count + to - from && forall i :: 0 <= i < |ts| ==> seg.table4Segment[ch, from + i] == ts[i]
  {
    ghost var whole := ReadNumbers(sd.Rest(), to - from, count);
    InNumbersStart(sd.Rest(), to - from, count);
    ts, count', fault := [], count, NoFault;
    for segNr := from to to
      invariant InFrame(sd) && sd.data == old(sd.data) && OnlyTables(seg, ch, from)
      invariant |ts| == segNr - from && count' <= count + segNr - from
      invariant InNumbers(whole, ts, sd.Rest(), to - segNr, count')
      invariant forall i :: 0 <= i < |ts| ==> seg.table4Segment[ch, from + i] == ts[i]
    {
      ghost var bits := sd.Rest();
      WidthSmall(count');
      var nrOfBits := Log2RoundUp(count');
      var ok, t := ReadNumber(sd, nrOfBits);
      if !ok {
        InNumbersFails(whole, ts, bits, to - segNr, count', NegativeBitAllocation);
        fault := Faulty(NegativeBitAllocation);
        return;
      }
      seg.table4Segment[ch, segNr] := t;
      if t > count' {
        InNumbersFails(whole, ts, bits, to - segNr, count', InvalidTableNumber);
        fault := Faulty(InvalidTableNumber);
        return;
      }
      InNumbersStep(whole, ts, bits, to - segNr, count', t, sd.Rest());
      ts := ts + [t];
      if t == count' { count' := count' + 1; }
    }
    InNumbersEnd(whole, ts, sd.Rest(), count');
  }

  /** Copies the numbers of channel 0 to the others, as long as they have as many segments. */
  method ShareTables(seg: Segment, ghost segs: seq<nat>, ghost row: seq<nat>) returns (fault: Fault)
    requires Mappable(seg, segs) && |row| == segs[0] && ShowsTables(seg, 0, row)
    modifies seg.table4Segment
    ensures fault == if exists i :: 0 <= i < |segs| && segs[i] != segs[0] then Faulty(InvalidChannelMapping) else NoFault
    ensures fault == NoFault ==> ShowsMapping(seg, Copies(row, |segs|))
  {
    var n := seg.nrOfSegments[0];
    assert n == segs[0];
    for chNr := 1 to seg.nrOfSegments.Length
      invariant forall ch :: 0 <= ch < chNr ==> segs[ch] == segs[0]
      invariant forall ch, i :: 0 <= ch < chNr && 0 <= i < n ==> seg.table4Segment[ch, i] == row[i]
    {
      assert seg.nrOfSegments[chNr] == segs[chNr];
      if seg.nrOfSegments[chNr] != n {
        return Faulty(InvalidChannelMapping);
      }
      for segNr := 0 to n
        invariant forall ch, i :: 0 <= ch < chNr && 0 <= i < n ==> seg.table4Segment[ch, i] == row[i]
        invariant forall i :: 0 <= i < segNr ==> seg.table4Segment[chNr, i] == row[i]
      {
        seg.table4Segment[chNr, segNr] := seg.table4Segment[0, segNr];
      }
    }
    fault := NoFault;
  }

  /** `rows` in front of the channels still to be read. */
  ghost predicate InGrid(whole: Parsed<Grid>, rows: seq<seq<nat>>, bits: BitList, segs: seq<nat>, count: nat)
    requires segs != [] && segs[0] >= 1 && |rows| <= |segs|
  {
    whole == match ReadGrid(bits, segs[|rows|..], rows == [], count)
             case Err(e) => Err(e)
             case Ok(g, rest) => Ok(Grid(rows + g.tables, g.count), rest)
  }

  lemma InGridStart(bits: BitList, segs: seq<nat>)
    requires segs != [] && segs[0] >= 1
    ensures InGrid(ReadGrid(bits, segs, true, 1), [], bits, segs, 1)
  {
    assert segs[0..] == segs;
    var r := ReadGrid(bits, segs, true, 1);
    if r.Ok? { assert [] + r.value.tables == r.value.tables; }
  }

  /** How many numbers of a channel are sent, and the row they stand for. */
  function Unsent(rows: seq<seq<nat>>): nat { if rows == [] then 1 else 0 }

  function WithUnsent(rows: seq<seq<nat>>, ts: seq<nat>): seq<nat> { if rows == [] then [0] + ts else ts }

  lemma InGridStep(whole: Parsed<Grid>, rows: seq<seq<nat>>, bits: BitList, segs: seq<nat>, count: nat, ts: seq<nat>, count': nat, rest: BitList)
    requires segs != [] && segs[0] >= 1 && |rows| < |segs| && segs[|rows|] >= 1 && InGrid(whole, rows, bits, segs, count)
    requires ReadNumbers(bits, segs[|rows|] - Unsent(rows), count) == Ok(Numbers(ts, count'), rest)
    ensures InGrid(whole, rows + [WithUnsent(rows, ts)], rest, segs, count')
  {
    var row, left := WithUnsent(rows, ts), segs[|rows|..];
    assert left[0] == segs[|rows|] && left[1..] == segs[|rows| + 1..];
    var r := ReadGrid(rest, left[1..], false, count');
    assert ReadGrid(bits, left, rows == [], count) == RowInFront(row, r);
    if r.Ok? { assert rows + ([row] + r.value.tables) == rows + [row] + r.value.tables; }
  }

  lemma RowFails(bits: BitList, left: seq<nat>, first: bool, count: nat)
    requires left != [] && left[0] >= 1 && ReadNumbers(bits, if first then left[0] - 1 else left[0], count).Err?
    ensures ReadGrid(bits, left, first, count) == Err(ReadNumbers(bits, if first then left[0] - 1 else left[0], count).error)
  {
  }

  lemma InGridFails(whole: Parsed<Grid>, rows: seq<seq<nat>>, bits: BitList, segs: seq<nat>, count: nat)
    requires segs != [] && segs[0] >= 1 && |rows| < |segs| && segs[|rows|] >= 1 && InGrid(whole, rows, bits, segs, count)
    requires ReadNumbers(bits, segs[|rows|] - Unsent(rows), count).Err?
    ensures whole == Err(ReadNumbers(bits, segs[|rows|] - Unsent(rows), count).error)
  {
    RowFails(bits, segs[|rows|..], rows == [], count);
  }

  lemma InGridEnd(whole: Parsed<Grid>, rows: seq<seq<nat>>, bits: BitList, segs: seq<nat>, count: nat)
    requires segs != [] && segs[0] >= 1 && |rows| == |segs| && InGrid(whole, rows, bits, segs, count)
    ensures whole == Ok(Grid(rows, count), bits)
  {
    assert segs[|rows|..] == [] && rows + [] == rows;
  }

  /** The loop over the segments of one channel; the first number of the frame is not sent. */
  method ReadChannelTables(sd: StrData, seg: Segment, chNr: nat, count: nat, ghost segs: seq<nat>, ghost rows: seq<seq<nat>>, ghost whole: Parsed<Grid>)
    returns (fault: Fault, count': nat, ghost row: seq<nat>)
    requires InFrame(sd) && Mappable(seg, segs) && chNr == |rows| < |segs| && count <= 1 + 8 * chNr
    requires InGrid(whole, rows, sd.Rest(), segs, count) && (chNr == 0 ==> seg.table4Segment[0, 0] == 0)
    modifies sd, seg.table4Segment
    ensures sd.data == old(sd.data) && sd.Valid() && OnlyTables(seg, chNr, 0)
    ensures match fault
            case Faulty(e) => whole == Err(e)
            case NoFault => InFrame(sd) && count' <= 9 + 8 * chNr && InGrid(whole, rows + [row], sd.Rest(), segs, count') && ShowsTables(seg, chNr, row)
  {
    ghost var bits, ts := sd.Rest(), [];
    assert seg.nrOfSegments[chNr] == segs[chNr];
    fault, count', ts := ReadTableNumbers(sd, seg, chNr, if chNr == 0 then 1 else 0, seg.nrOfSegments[chNr], count);
    row := WithUnsent(rows, ts);
    if fault != NoFault {
      InGridFails(whole, rows, bits, segs, count);
      return;
    }
    InGridStep(whole, rows, bits, segs, count, ts, count', sd.Rest());
  }

  /** The branch without sharing. */
  method ReadOwnTables(sd: StrData, seg: Segment, ghost segs: seq<nat>) returns (fault: Fault, count: nat, ghost rows: seq<seq<nat>>)
    requires InFrame(sd) && Mappable(seg, segs) && seg.table4Segment[0, 0] == 0
    modifies sd, seg.table4Segment
    ensures sd.data == old(sd.data) && sd.Valid()
    ensures match ReadGrid(old(sd.Rest()), segs, true, 1)
            case Err(e) => fault == Faulty(e)
            case Ok(g, rest) => fault == NoFault && g == Grid(rows, count) && sd.Rest() == rest && InFrame(sd)
    ensures fault == NoFault ==> |rows| == |segs| && ShowsMapping(seg, rows)
  {
    ghost var whole := ReadGrid(sd.Rest(), segs, true, 1);
    InGridStart(sd.Rest(), segs);
    rows, count, fault := [], 1, NoFault;
    for chNr := 0 to seg.nrOfSegments.Length
      invariant fault == NoFault && InFrame(sd) && sd.data == old(sd.data) && Mappable(seg, segs)
      invariant |rows| == chNr && count <= 1 + 8 * chNr && InGrid(whole, rows, sd.Rest(), segs, count)
      invariant (rows == [] ==> seg.table4Segment[0, 0] == 0) && ShowsMapping(seg, rows)
    {
      ghost var row;
      fault, count, row := ReadChannelTables(sd, seg, chNr, count, segs, rows, whole);
      if fault != NoFault { return; }
      rows := rows + [row];
    }
    InGridEnd(whole, rows, sd.Rest(), segs, count);
  }

  /** The count of the tables of a row that is shared is the one that reading it counted. */
  lemma SharedCount(bits: BitList, segs: seq<nat>)
    requires segs != [] && segs[0] >= 1 && ReadNumbers(bits, segs[0] - 1, 1).Ok?
    ensures var ns := ReadNumbers(bits, segs[0] - 1, 1).value;
            |ns.tables| == segs[0] - 1 && TableCount(Mapping(true, Copies([0] + ns.tables, |segs|))) == ns.count
  {
    var ts, rest := NumbersExact(bits, segs[0] - 1, 1);
    ZeroFirst(ts);
  }

  /** The sharing branch. */
  method ReadSharedTables(sd: StrData, seg: Segment, ghost segs: seq<nat>) returns (fault: Fault, count: nat, ghost m: Mapping)
    requires InFrame(sd) && Mappable(seg, segs) && seg.table4Segment[0, 0] == 0
    modifies sd, seg.table4Segment
    ensures sd.data == old(sd.data) && sd.Valid()
    ensures match ReadNumbers(old(sd.Rest()), segs[0] - 1, 1)
            case Err(e) => fault == Faulty(e)
            case Ok(ns, rest) =>
              if exists i :: 0 <= i < |segs| && segs[i] != segs[0] then fault == Faulty(InvalidChannelMapping)
              else fault == NoFault && count == ns.count && m == Mapping(true, Copies([0] + ns.tables, |segs|)) && sd.Rest() == rest && InFrame(sd)
    ensures fault == NoFault ==> Shaped(m.tables, segs) && ShowsMapping(seg, m.tables) && count == TableCount(m)
  {
    ghost var bits, ts := sd.Rest(), [];
    m := Mapping(true, []);
    fault, count, ts := ReadTableNumbers(sd, seg, 0, 1, seg.nrOfSegments[0], 1);
    if fault != NoFault { return; }
    SharedCount(bits, segs);
    fault := ShareTables(seg, segs, [0] + ts);
    m := Mapping(true, Copies([0] + ts, |segs|));
  }

  /** Likewise for rows of their own. */
  lemma OwnCount(bits: BitList, segs: seq<nat>)
    requires segs != [] && segs[0] >= 1 && ReadGrid(bits, segs, true, 1).Ok?
    ensures var g := ReadGrid(bits, segs, true, 1).value;
            Shaped(g.tables, segs) && TableCount(Mapping(false, g.tables)) == g.count
  {
    var rows, rest := FirstRowExact(bits, segs);
  }

  /** ReadTableMappingData */
  method ReadTableMappingData(sd: StrData, seg: Segment, maxTables: nat, ghost segs: seq<nat>)
    returns (fault: Fault, nrOfTables: nat, same: Bit, ghost m: Mapping)
    requires InFrame(sd) && Mappable(seg, segs)
    modifies sd, seg.table4Segment
    ensures sd.data == old(sd.data) && sd.Valid()
    ensures match ReadMapping(old(sd.Rest()), segs, maxTables)
            case Err(e) => fault == Faulty(e)
            case Ok(v, rest) => fault == NoFault && m == v && sd.Rest() == rest && InFrame(sd)
    ensures fault == NoFault ==> Shaped(m.tables, segs) && ShowsMapping(seg, m.tables) && nrOfTables == TableCount(m) && same == FlagBit(m.same)
  {
    nrOfTables, same, m := 0, 0, Mapping(false, []);
    var ok;
    seg.table4Segment[0, 0] := 0;
    ok, same := ReadFlag(sd);
    if !ok { fault := Faulty(NegativeBitAllocation); return; }
    if same == 1 {
      fault, nrOfTables, m := ReadSharedTables(sd, seg, segs);
      if fault != NoFault { return; }
    } else {
      ghost var bits, rows := sd.Rest(), [];
      fault, nrOfTables, rows := ReadOwnTables(sd, seg, segs);
      if fault != NoFault { return; }
      OwnCount(bits, segs);
      m := Mapping(false, rows);
    }
    if nrOfTables > maxTables { fault := Faulty(TooManyTables); }
  }

  /** Every number of the first n channels equals the one channel 0 has in its place. */
  ghost predicate LikeFirst(seg: Segment, segs: seq<nat>, n: nat)
    requires n <= |segs| <= seg.table4Segment.Length0 && forall ch :: 0 <= ch < |segs| ==> segs[ch] <= seg.table4Segment.Length1
    reads seg.table4Segment
  {
    forall ch, i :: 0 <= ch < n && 0 <= i < segs[ch] ==> seg.table4Segment[ch, i] == seg.table4Segment[0, i]
  }

  // ----- when the flag of CopyMappingData is right -----

  /** Every number equals the one that `first` has in its place. */
  predicate LikeRow(tables: seq<seq<nat>>, first: seq<nat>) {
    forall ch, i :: 0 <= ch < |tables| && 0 <= i < |tables[ch]| && i < |first| ==> tables[ch][i] == first[i]
  }

  /** Channel 0's row of the array once its numbers are copied: behind them is what was there before. */
  function Overlaid(row: seq<nat>, was: seq<nat>): seq<nat>
    requires |row| <= |was|
  {
    row + was[|row|..]
  }

  /** The flag says that all channels agree exactly when they have equally many segments, or some
      number differs from the one in channel 0's row in its place. */
  lemma FlagRightExactly(tables: seq<seq<nat>>, was: seq<nat>)
    requires tables != [] && forall ch :: 0 <= ch < |tables| ==> |tables[ch]| <= |was|
    ensures var first := Overlaid(tables[0], was);
            (LikeRow(tables, first) <==> AllAgree(tables))
            <==> || (forall ch :: 0 <= ch < |tables| ==> |tables[ch]| == |tables[0]|)
                 || (exists ch, i :: 0 <= ch < |tables| && 0 <= i < |tables[ch]| && tables[ch][i] != first[i])
  {
    var first := Overlaid(tables[0], was);
    if forall ch :: 0 <= ch < |tables| ==> |tables[ch]| == |tables[0]| {
      if LikeRow(tables, first) {
        forall ch | 0 <= ch < |tables| ensures tables[ch] == tables[0] {
          assert forall i :: 0 <= i < |tables[ch]| ==> tables[ch][i] == first[i] == tables[0][i];
        }
      }
      if AllAgree(tables) {
        forall ch, i | 0 <= ch < |tables| && 0 <= i < |tables[ch]| ensures tables[ch][i] == first[i] {
          assert tables[ch] == tables[0];
        }
      }
    } else {
      assert !AllAgree(tables);
    }
  }

  /** It is wrong for a legal mapping of two channels with two segments and one, whatever was in the
      array before: the flag is set although the channels differ. */
  lemma FlagWrong(was: seq<nat>) returns (m: Mapping)
    requires |was| >= 2
    ensures m == Mapping(false, [[0, 1], [0]]) && LegalMapping(m, [2, 1], 2)
    ensures LikeRow(m.tables, Overlaid(m.tables[0], was)) && !AllAgree(m.tables)
  {
    m := Mapping(false, [[0, 1], [0]]);
    assert m.tables[1..] == [[0]] && [[0]][1..] == [];
    assert Flat(m.tables) == [0, 1] + ([0] + []);
    assert [0, 1, 0][1..] == [1, 0] && [1, 0][1..] == [0] && [0][1..] == [];
    assert |m.tables[1]| == 1;
  }

  /** Channel 0's row of table numbers. */
  ghost function FirstRow(seg: Segment): seq<nat>
    requires seg.table4Segment.Length0 >= 1
    reads seg.table4Segment
  {
    seq(seg.table4Segment.Length1, i requires 0 <= i < seg.table4Segment.Length1 reads seg.table4Segment => seg.table4Segment[0, i])
  }

  lemma LikeFirstAgrees(to: Segment, m: Mapping, segs: seq<nat>)
    requires Shaped(m.tables, segs) && |segs| <= to.table4Segment.Length0 && ShowsMapping(to, m.tables)
    requires forall ch :: 0 <= ch < |segs| ==> segs[ch] <= to.table4Segment.Length1
    ensures (forall ch :: 0 <= ch < |segs| ==> segs[ch] == segs[0]) ==> (LikeFirst(to, segs, |segs|) <==> AllAgree(m.tables))
  {
    if forall ch :: 0 <= ch < |segs| ==> segs[ch] == segs[0] {
      if LikeFirst(to, segs, |segs|) {
        forall ch | 0 <= ch < |segs| ensures m.tables[ch] == m.tables[0] {
          assert ShowsTables(to, ch, m.tables[ch]) && ShowsTables(to, 0, m.tables[0]);
        }
      }
      if AllAgree(m.tables) {
        forall ch, i | 0 <= ch < |segs| && 0 <= i < segs[ch] ensures to.table4Segment[ch, i] == to.table4Segment[0, i] {
          assert ShowsTables(to, ch, m.tables[ch]) && ShowsTables(to, 0, m.tables[0]);
        }
      }
    }
  }

  lemma LikeFirstIsRow(to: Segment, m: Mapping, segs: seq<nat>, was: seq<nat>)
    requires segs != [] && Shaped(m.tables, segs) && |segs| <= to.table4Segment.Length0 && ShowsMapping(to, m.tables)
    requires |was| == to.table4Segment.Length1 && forall ch :: 0 <= ch < |segs| ==> segs[ch] <= |was|
    requires forall i :: segs[0] <= i < |was| ==> to.table4Segment[0, i] == was[i]
    ensures LikeFirst(to, segs, |segs|) <==> LikeRow(m.tables, Overlaid(m.tables[0], was))
  {
    var first := Overlaid(m.tables[0], was);
    assert ShowsTables(to, 0, m.tables[0]);
    assert forall i :: 0 <= i < |was| ==> to.table4Segment[0, i] == first[i];
    assert forall ch :: 0 <= ch < |segs| ==> ShowsTables(to, ch, m.tables[ch]);
  }

  /** Channel ch has from entry `from` on what it had. */
  twostate predicate Behind(seg: Segment, ch: nat, from: nat)
    requires ch < seg.table4Segment.Length0
    reads seg.table4Segment
  {
    forall i :: from <= i < seg.table4Segment.Length1 ==> seg.table4Segment[ch, i] == old(seg.table4Segment[ch, i])
  }

  /** The inner loop of CopyMappingData. */
  method CopyTables(from: Segment, to: Segment, ch: nat, same: Bit, ghost row: seq<nat>) returns (same': Bit)
    requires ch < from.table4Segment.Length0 && ch < from.nrOfSegments.Length && from.nrOfSegments[ch] == |row| && ShowsTables(from, ch, row)
    requires ch < to.table4Segment.Length0 && |row| <= to.table4Segment.Length1 && to.table4Segment != from.table4Segment
    modifies to.table4Segment
    ensures OnlyTables(to, ch, 0) && ShowsTables(to, ch, row) && Behind(to, ch, |row|)
    ensures same' == FlagBit(same == 1 && forall i :: 0 <= i < |row| ==> to.table4Segment[ch, i] == to.table4Segment[0, i])
  {
    same' := same;
    for segNr := 0 to from.nrOfSegments[ch]
      invariant OnlyTables(to, ch, 0) && Behind(to, ch, |row|)
      invariant forall i :: 0 <= i < segNr ==> to.table4Segment[ch, i] == row[i]
      invariant same' == FlagBit(same == 1 && forall i :: 0 <= i < segNr ==> to.table4Segment[ch, i] == to.table4Segment[0, i])
    {
      to.table4Segment[ch, segNr] := from.table4Segment[ch, segNr];
      if to.table4Segment[ch, segNr] != to.table4Segment[0, segNr] { same' := 0; }
    }
  }

  /** What the loop of CopyMappingData has done for the first n channels. */
  ghost predicate Copied(to: Segment, m: Mapping, segs: seq<nat>, own: seq<nat>, n: nat, same: Bit)
    requires Shaped(m.tables, segs) && n <= |segs| == |own| == to.table4Segment.Length0
    reads to.table4Segment
  {
    && (forall ch :: 0 <= ch < n ==> own[ch] == segs[ch] && ShowsTables(to, ch, m.tables[ch]))
    && same == FlagBit(forall ch, i :: 0 <= ch < n && 0 <= i < |m.tables[ch]| && i < to.table4Segment.Length1 ==> to.table4Segment[ch, i] == to.table4Segment[0, i])
  }

  /** One turn of the outer loop. */
  method CopyChannelTables(from: Segment, to: Segment, chNr: nat, same: Bit, ghost m: Mapping, ghost segs: seq<nat>, ghost own: seq<nat>) returns (same': Bit)
    requires Mappable(from, segs) && Shaped(m.tables, segs) && ShowsMapping(from, m.tables)
    requires Mappable(to, own) && |own| == |segs| && to.table4Segment != from.table4Segment
    requires chNr < |segs| && own[chNr] == segs[chNr] && Copied(to, m, segs, own, chNr, same)
    modifies to.table4Segment
    ensures Copied(to, m, segs, own, chNr + 1, same') && Behind(to, 0, segs[0])
  {
    assert from.nrOfSegments[chNr] == segs[chNr];
    same' := CopyTables(from, to, chNr, same, m.tables[chNr]);
    assert forall ch :: 0 <= ch < chNr ==> old(ShowsTables(to, ch, m.tables[ch]));
  }

  /** CopyMappingData.  The flag compares with whatever channel 0 has in a place, also behind its
      own segments; FlagRightExactly says when that tells whether all channels agree. */
  method CopyMappingData(from: Segment, to: Segment, nrOfFilters: nat, maxPtables: nat, ghost m: Mapping, ghost segs: seq<nat>, ghost own: seq<nat>)
    returns (fault: Fault, nrOfPtables: nat, same: Bit)
    requires Mappable(from, segs) && Shaped(m.tables, segs) && ShowsMapping(from, m.tables) && nrOfFilters == TableCount(m)
    requires Mappable(to, own) && |own| == |segs| && to.table4Segment != from.table4Segment
    modifies to.table4Segment
    ensures fault == if own != segs then Faulty(SegmentNumberMismatch) else if TableCount(m) > maxPtables then Faulty(TooManyTables) else NoFault
    ensures fault == NoFault ==> ShowsMapping(to, m.tables) && nrOfPtables == TableCount(m)
    ensures fault == NoFault ==> same == FlagBit(LikeFirst(to, segs, |segs|))
    ensures fault == NoFault ==> same == FlagBit(LikeRow(m.tables, Overlaid(m.tables[0], old(FirstRow(to)))))
    ensures fault == NoFault && (forall ch :: 0 <= ch < |segs| ==> segs[ch] == segs[0]) ==> same == FlagBit(AllAgree(m.tables))
  {
    same, nrOfPtables := 1, nrOfFilters;
    for chNr := 0 to from.nrOfSegments.Length
      invariant Copied(to, m, segs, own, chNr, same) && Behind(to, 0, segs[0])
    {
      assert to.nrOfSegments[chNr] == own[chNr] && from.nrOfSegments[chNr] == segs[chNr];
      if to.nrOfSegments[chNr] != from.nrOfSegments[chNr] {
        return Faulty(SegmentNumberMismatch), nrOfPtables, same;
      }
      same := CopyChannelTables(from, to, chNr, same, m, segs, own);
    }
    assert own == segs;
    if nrOfPtables > maxPtables { return Faulty(TooManyTables), nrOfPtables, same; }
    LikeFirstAgrees(to, m, segs);
    LikeFirstIsRow(to, m, segs, old(FirstRow(to)));
    fault := NoFault;
  }
}
