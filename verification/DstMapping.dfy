/** Which table each segment of a DST frame uses
    (ReadTableMappingData of libs/libdstdec/unpack_dst.c). */
module DstMapping {
  import opened Bits
  import opened DstRice
  import opened DstSegments

  /** `tables` has one table number for each segment of each channel. */
  datatype Mapping = Mapping(same: bool, tables: seq<seq<nat>>)

  datatype Numbers = Numbers(tables: seq<nat>, count: nat)
  datatype Grid = Grid(tables: seq<seq<nat>>, count: nat)

  /** The number of tables after one more reference: a reference to the next free number makes a
      new table. */
  function Grown(t: nat, count: nat): nat { if t == count then count + 1 else count }

  // ----- the reader -----

  /** n table numbers, when `count` tables are known. */
  function ReadNumbers(bits: BitList, n: nat, count: nat): Parsed<Numbers>
    decreases n
  {
    if n == 0 then Ok(Numbers([], count), bits)
    else
      match ReadU(bits, Log2Up(count))
      case Err(e) => Err(e)
      case Ok(t, rest) =>
        if t > count then Err(InvalidTableNumber)
        else NumberInFront(t, ReadNumbers(rest, n - 1, Grown(t, count)))
  }

  function NumberInFront(t: nat, r: Parsed<Numbers>): Parsed<Numbers> {
    match r
    case Err(e) => Err(e)
    case Ok(ns, rest) => Ok(Numbers([t] + ns.tables, ns.count), rest)
  }

  /** The channels from the first of `segs` on; the first number of the frame is not sent. */
  function ReadGrid(bits: BitList, segs: seq<nat>, first: bool, count: nat): Parsed<Grid>
    requires first ==> segs != [] && segs[0] >= 1
    decreases |segs|
  {
    if segs == [] then Ok(Grid([], count), bits)
    else
      match ReadNumbers(bits, if first then segs[0] - 1 else segs[0], count)
      case Err(e) => Err(e)
      case Ok(ns, rest) =>
        RowInFront(if first then [0] + ns.tables else ns.tables, ReadGrid(rest, segs[1..], false, ns.count))
  }

  function RowInFront(row: seq<nat>, r: Parsed<Grid>): Parsed<Grid> {
    match r
    case Err(e) => Err(e)
    case Ok(g, rest) => Ok(Grid([row] + g.tables, g.count), rest)
  }

  /** ReadTableMappingData for channels with `segs` segments; the count of tables used is CountOf. */
  function ReadMapping(bits: BitList, segs: seq<nat>, maxTables: nat): Parsed<Mapping>
    requires segs != [] && segs[0] >= 1
  {
    if bits.Nil? then Err(NegativeBitAllocation)
    else if bits.bit == 1 then
      match ReadNumbers(bits.tail, segs[0] - 1, 1)
      case Err(e) => Err(e)
      case Ok(ns, rest) =>
        if exists i :: 0 <= i < |segs| && segs[i] != segs[0] then Err(InvalidChannelMapping)
        else if ns.count > maxTables then Err(TooManyTables)
        else Ok(Mapping(true, Copies([0] + ns.tables, |segs|)), rest)
    else
      match ReadGrid(bits.tail, segs, true, 1)
      case Err(e) => Err(e)
      case Ok(g, rest) => if g.count > maxTables then Err(TooManyTables) else Ok(Mapping(false, g.tables), rest)
  }

  // ----- canonical numbering -----

  /** Each number is at most the count of tables before it: a restricted-growth sequence. */
  predicate Grows(ts: seq<nat>, count: nat) {
    ts == [] || (ts[0] <= count && Grows(ts[1..], Grown(ts[0], count)))
  }

  function CountAfter(ts: seq<nat>, count: nat): nat {
    if ts == [] then count else CountAfter(ts[1..], Grown(ts[0], count))
  }

  function Flat(rows: seq<seq<nat>>): seq<nat> {
    if rows == [] then [] else rows[0] + Flat(rows[1..])
  }

  /** The numbers that are sent, in order, and the 0 of the very first segment. */
  function Sent(m: Mapping): seq<nat> {
    if m.same then (if m.tables == [] then [] else m.tables[0]) else Flat(m.tables)
  }

  predicate Shaped(rows: seq<seq<nat>>, segs: seq<nat>) {
    |rows| == |segs| && forall i :: 0 <= i < |segs| ==> |rows[i]| == segs[i]
  }

  predicate LegalMapping(m: Mapping, segs: seq<nat>, maxTables: nat) {
    && Shaped(m.tables, segs) && Grows(Sent(m), 0) && CountAfter(Sent(m), 0) <= maxTables
    && (m.same ==> forall i :: 0 <= i < |m.tables| ==> m.tables[i] == m.tables[0])
  }

  // ----- the encoder -----

  function WriteNumbers(ts: seq<nat>, count: nat, tail: BitList): BitList {
    if ts == [] then tail else WriteU(ts[0], Log2Up(count), WriteNumbers(ts[1..], Grown(ts[0], count), tail))
  }

  function WriteMapping(m: Mapping, tail: BitList): BitList
    requires Sent(m) != []
  {
    Cons(if m.same then 1 else 0, WriteNumbers(Sent(m)[1..], 1, tail))
  }

  // ----- the reader inverts the encoder -----

  lemma {:induction false} NumbersWritten(ts: seq<nat>, count: nat, tail: BitList)
    requires Grows(ts, count)
    ensures ReadNumbers(WriteNumbers(ts, count, tail), |ts|, count) == Ok(Numbers(ts, CountAfter(ts, count)), tail)
    decreases |ts|
  {
    if ts != [] {
      var t, rest := ts[0], ts[1..];
      var more := WriteNumbers(rest, Grown(t, count), tail);
      FitsWidth(t, count);
      ReadUWritten(t, Log2Up(count), more);
      NumbersWritten(rest, Grown(t, count), tail);
      assert ts == [t] + rest;
    }
  }

  lemma {:induction false} NumbersExact(bits: BitList, n: nat, count: nat) returns (ts: seq<nat>, rest: BitList)
    requires ReadNumbers(bits, n, count).Ok?
    ensures |ts| == n && Grows(ts, count) && bits == WriteNumbers(ts, count, rest)
    ensures ReadNumbers(bits, n, count) == Ok(Numbers(ts, CountAfter(ts, count)), rest)
    decreases n
  {
    if n == 0 {
      ts, rest := [], bits;
    } else {
      var r := ReadU(bits, Log2Up(count));
      ReadUExact(bits, Log2Up(count));
      var more;
      more, rest := NumbersExact(r.rest, n - 1, Grown(r.value, count));
      ts := [r.value] + more;
      assert ts[1..] == more;
    }
  }

  lemma {:induction false} WriteNumbersConcat(a: seq<nat>, b: seq<nat>, count: nat, tail: BitList)
    ensures WriteNumbers(a + b, count, tail) == WriteNumbers(a, count, WriteNumbers(b, CountAfter(a, count), tail))
    ensures Grows(a + b, count) <==> Grows(a, count) && Grows(b, CountAfter(a, count))
    ensures CountAfter(a + b, count) == CountAfter(b, CountAfter(a, count))
    decreases |a|
  {
    if a == [] {
      assert a + b == b;
    } else {
      WriteNumbersConcat(a[1..], b, Grown(a[0], count), tail);
      assert (a + b)[1..] == a[1..] + b;
    }
  }

  lemma {:induction false} GridWritten(rows: seq<seq<nat>>, segs: seq<nat>, count: nat, tail: BitList)
    requires Shaped(rows, segs) && Grows(Flat(rows), count)
    ensures ReadGrid(WriteNumbers(Flat(rows), count, tail), segs, false, count) == Ok(Grid(rows, CountAfter(Flat(rows), count)), tail)
    decreases |rows|
  {
    if rows != [] {
      var row, rest := rows[0], rows[1..];
      WriteNumbersConcat(row, Flat(rest), count, tail);
      var mid := CountAfter(row, count);
      NumbersWritten(row, count, WriteNumbers(Flat(rest), mid, tail));
      GridWritten(rest, segs[1..], mid, tail);
      assert rows == [row] + rest;
    }
  }

  lemma {:induction false} GridExact(bits: BitList, segs: seq<nat>, count: nat) returns (rows: seq<seq<nat>>, rest: BitList)
    requires ReadGrid(bits, segs, false, count).Ok?
    ensures Shaped(rows, segs) && Grows(Flat(rows), count) && bits == WriteNumbers(Flat(rows), count, rest)
    ensures ReadGrid(bits, segs, false, count) == Ok(Grid(rows, CountAfter(Flat(rows), count)), rest)
    decreases |segs|
  {
    if segs == [] {
      rows, rest := [], bits;
    } else {
      var row, mid := NumbersExact(bits, segs[0], count);
      var more;
      more, rest := GridExact(mid, segs[1..], CountAfter(row, count));
      rows := [row] + more;
      assert rows[1..] == more;
      WriteNumbersConcat(row, Flat(more), count, rest);
    }
  }

  /** Splits off the 0 that is not sent. */
  lemma FirstZero(ts: seq<nat>)
    requires ts != [] && Grows(ts, 0)
    ensures ts == [0] + ts[1..] && Grows(ts[1..], 1) && CountAfter(ts, 0) == CountAfter(ts[1..], 1)
  {
  }

  lemma ZeroFirst(ts: seq<nat>)
    requires Grows(ts, 1)
    ensures var all := [0] + ts; all[1..] == ts && Grows(all, 0) && CountAfter(all, 0) == CountAfter(ts, 1)
  {
    assert ([0] + ts)[1..] == ts;
  }

  lemma FirstRowWritten(rows: seq<seq<nat>>, segs: seq<nat>, tail: BitList)
    requires segs != [] && segs[0] >= 1 && Shaped(rows, segs) && Grows(Flat(rows), 0)
    ensures Flat(rows) != []
    ensures ReadGrid(WriteNumbers(Flat(rows)[1..], 1, tail), segs, true, 1) == Ok(Grid(rows, CountAfter(Flat(rows), 0)), tail)
  {
    var row, rest := rows[0], rows[1..];
    FirstZero(Flat(rows));
    var sent := row[1..];
    assert Flat(rows)[1..] == sent + Flat(rest);
    WriteNumbersConcat(sent, Flat(rest), 1, tail);
    var mid := CountAfter(sent, 1);
    NumbersWritten(sent, 1, WriteNumbers(Flat(rest), mid, tail));
    GridWritten(rest, segs[1..], mid, tail);
    assert row == [0] + sent && rows == [row] + rest;
  }

  lemma FlatFirst(row: seq<nat>, rows: seq<seq<nat>>)
    ensures Flat([row] + rows) == row + Flat(rows)
  {
    assert ([row] + rows)[1..] == rows;
  }

  /** The first row of a frame read as one more row. */
  lemma FirstRowRead(bits: BitList, segs: seq<nat>, sent: seq<nat>, mid: BitList, more: seq<seq<nat>>, rest: BitList)
    requires segs != [] && segs[0] >= 1 && |sent| == segs[0] - 1 && Shaped(more, segs[1..])
    requires ReadNumbers(bits, segs[0] - 1, 1) == Ok(Numbers(sent, CountAfter(sent, 1)), mid)
    requires ReadGrid(mid, segs[1..], false, CountAfter(sent, 1)) == Ok(Grid(more, CountAfter(Flat(more), CountAfter(sent, 1))), rest)
    ensures Shaped([[0] + sent] + more, segs)
    ensures ReadGrid(bits, segs, true, 1) == Ok(Grid([[0] + sent] + more, CountAfter(Flat(more), CountAfter(sent, 1))), rest)
  {
  }

  /** Rows with an unsent 0 in front, as one sequence. */
  lemma FirstRowFlat(sent: seq<nat>, more: seq<seq<nat>>, tail: BitList)
    requires Grows(sent, 1) && Grows(Flat(more), CountAfter(sent, 1))
    ensures var all := Flat([[0] + sent] + more);
            && all != [] && Grows(all, 0) && CountAfter(all, 0) == CountAfter(Flat(more), CountAfter(sent, 1))
            && WriteNumbers(all[1..], 1, tail) == WriteNumbers(sent, 1, WriteNumbers(Flat(more), CountAfter(sent, 1), tail))
  {
    FlatFirst([0] + sent, more);
    WriteNumbersConcat(sent, Flat(more), 1, tail);
    ZeroFirst(sent + Flat(more));
    assert Flat([[0] + sent] + more) == [0] + (sent + Flat(more));
  }

  lemma FirstRowExact(bits: BitList, segs: seq<nat>) returns (rows: seq<seq<nat>>, rest: BitList)
    requires segs != [] && segs[0] >= 1 && ReadGrid(bits, segs, true, 1).Ok?
    ensures Shaped(rows, segs) && Flat(rows) != [] && Grows(Flat(rows), 0) && bits == WriteNumbers(Flat(rows)[1..], 1, rest)
    ensures ReadGrid(bits, segs, true, 1) == Ok(Grid(rows, CountAfter(Flat(rows), 0)), rest)
  {
    var sent, mid := NumbersExact(bits, segs[0] - 1, 1);
    var more;
    more, rest := GridExact(mid, segs[1..], CountAfter(sent, 1));
    rows := [[0] + sent] + more;
    FirstRowRead(bits, segs, sent, mid, more, rest);
    FirstRowFlat(sent, more, rest);
  }

  /** Decoding a legal mapping's code gives it back and stops behind it. */
  lemma MappingWritten(m: Mapping, segs: seq<nat>, maxTables: nat, tail: BitList)
    requires segs != [] && segs[0] >= 1 && LegalMapping(m, segs, maxTables)
    ensures Sent(m) != [] && ReadMapping(WriteMapping(m, tail), segs, maxTables) == Ok(m, tail)
  {
    if m.same {
      var row := m.tables[0];
      FirstZero(row);
      NumbersWritten(row[1..], 1, tail);
      assert forall i :: 0 <= i < |segs| ==> |m.tables[i]| == segs[i];
      assert Copies([0] + row[1..], |segs|) == m.tables;
    } else {
      FirstRowWritten(m.tables, segs, tail);
    }
  }

  /** Whatever decodes is legal, and is the code of the mapping it decodes to. */
  lemma MappingExact(bits: BitList, segs: seq<nat>, maxTables: nat)
    requires segs != [] && segs[0] >= 1 && ReadMapping(bits, segs, maxTables).Ok?
    ensures var r := ReadMapping(bits, segs, maxTables);
            LegalMapping(r.value, segs, maxTables) && Sent(r.value) != [] && bits == WriteMapping(r.value, r.rest)
  {
    if bits.bit == 1 {
      var sent, rest := NumbersExact(bits.tail, segs[0] - 1, 1);
      ZeroFirst(sent);
      assert Copies([0] + sent, |segs|)[0] == [0] + sent;
    } else {
      var rows, rest := FirstRowExact(bits.tail, segs);
    }
  }

  // ----- what canonical means -----

  /** In a restricted-growth sequence exactly the numbers below the final count occur, and each
      first occurs when it is the next free number. */
  lemma {:induction false} GrowsUsesAll(ts: seq<nat>, count: nat)
    requires Grows(ts, count)
    ensures CountAfter(ts, count) >= count
    ensures forall i :: 0 <= i < |ts| ==> ts[i] < CountAfter(ts, count)
    ensures forall t :: count <= t < CountAfter(ts, count) ==> t in ts
    decreases |ts|
  {
    if ts != [] {
      var later := Grown(ts[0], count);
      GrowsUsesAll(ts[1..], later);
      assert forall i :: 1 <= i < |ts| ==> ts[i] == ts[1..][i - 1];
      forall t | count <= t < CountAfter(ts, count) ensures t in ts {
        if t >= later { assert t in ts[1..]; }
      }
    }
  }

  lemma {:induction false} GrowsAt(ts: seq<nat>, i: nat, count: nat)
    requires Grows(ts, count) && i < |ts|
    ensures ts[i] <= CountAfter(ts[..i], count)
    decreases i
  {
    if i > 0 {
      GrowsAt(ts[1..], i - 1, Grown(ts[0], count));
      assert ts[..i][1..] == ts[1..][..i - 1];
    }
  }

  /** The numbering a successful read delivers is canonical: with N tables, at most the maximum,
      exactly 0 .. N - 1 occur, each number is at most the count of different ones before it, and
      its field was wide enough for the next free number. */
  lemma ReadCanonical(bits: BitList, segs: seq<nat>, maxTables: nat)
    requires segs != [] && segs[0] >= 1 && ReadMapping(bits, segs, maxTables).Ok?
    ensures var ts := Sent(ReadMapping(bits, segs, maxTables).value);
            var n := CountAfter(ts, 0);
            && n <= maxTables
            && (forall t: nat :: t in ts <==> t < n)
            && (forall i :: 0 <= i < |ts| ==> ts[i] <= CountAfter(ts[..i], 0))
            && (forall i :: 0 <= i < |ts| ==> CountAfter(ts[..i], 0) < Pow2(Log2Up(CountAfter(ts[..i], 0))))
  {
    MappingExact(bits, segs, maxTables);
    var ts := Sent(ReadMapping(bits, segs, maxTables).value);
    GrowsUsesAll(ts, 0);
    forall i | 0 <= i < |ts| ensures ts[i] <= CountAfter(ts[..i], 0) { GrowsAt(ts, i, 0); }
    forall i | 0 <= i < |ts| ensures CountAfter(ts[..i], 0) < Pow2(Log2Up(CountAfter(ts[..i], 0))) {
      Log2UpBound(CountAfter(ts[..i], 0));
    }
  }
}
