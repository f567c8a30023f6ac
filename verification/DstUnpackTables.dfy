/** ReadFilterCoefSets and ReadProbabilityTables of libs/libdstdec/unpack_dst.c on the arrays they
    fill, against the functions of DstTables.  Row `nr` of an array is one table. */
module DstUnpackTables {
  import opened Bits
  import opened DstData
  import opened DstRice
  import opened DstTables
  import opened DstFrame
  import opened DstUnpackCodes

  /** The first n entries of a row. */
  ghost function RowOf(a: array2<int>, nr: nat, n: nat): seq<int>
    requires nr < a.Length0 && n <= a.Length1
    reads a
  {
    seq(n, i requires 0 <= i < n reads a => a[nr, i])
  }

  /** Nothing but row `nr` has changed. */
  twostate predicate OnlyRow(a: array2<int>, nr: nat)
    reads a
  {
    forall r, i :: 0 <= r < a.Length0 && r != nr && 0 <= i < a.Length1 ==> a[r, i] == old(a[r, i])
  }

  /** A raw entry: FIO_BitGetShortSigned for a coefficient, FIO_BitGetIntUnsigned and + 1 for a
      probability. */
  method UnpackEntry(sd: StrData, k: Kind) returns (ok: bool, v: int)
    requires InFrame(sd) && k.entryBits <= 16
    modifies sd
    ensures sd.data == old(sd.data) && sd.Valid()
    ensures match ReadEntry(old(sd.Rest()), k)
            case Err(e) => !ok && e == NegativeBitAllocation
            case Ok(x, rest) => ok && v == x && sd.Rest() == rest && InFrame(sd)
  {
    if k.signed {
      ok, v := sd.GetShortSigned(k.entryBits);
    } else {
      ok, v := ReadNumber(sd, k.entryBits);
      v := v + 1;
    }
  }

  /** n raw entries into row `nr`. */
  method UnpackRaw(sd: StrData, k: Kind, a: array2<int>, nr: nat, n: nat) returns (ok: bool)
    requires InFrame(sd) && k.entryBits <= 16 && nr < a.Length0 && n <= a.Length1
    modifies sd, a
    ensures sd.data == old(sd.data) && sd.Valid() && OnlyRow(a, nr)
    ensures match ReadRaw(old(sd.Rest()), k, n, [])
            case Err(e) => !ok && e == NegativeBitAllocation
            case Ok(entries, rest) => ok && RowOf(a, nr, n) == entries && sd.Rest() == rest && InFrame(sd)
  {
    ghost var whole := ReadRaw(sd.Rest(), k, n, []);
    ok := true;
    assert RowOf(a, nr, 0) == [];
    for i := 0 to n
      invariant ok && InFrame(sd) && sd.data == old(sd.data) && OnlyRow(a, nr)
      invariant whole == ReadRaw(sd.Rest(), k, n - i, RowOf(a, nr, i))
    {
      ghost var done := RowOf(a, nr, i);
      var v;
      ok, v := UnpackEntry(sd, k);
      if !ok { return; }
      a[nr, i] := v;
      assert RowOf(a, nr, i + 1) == done + [v];
    }
  }

  /** The loop over the taps. */
  method Predict(a: array2<int>, nr: nat, i: nat, p: Method) returns (x: int)
    requires p.Valid() && nr < a.Length0 && p.order <= i <= a.Length1
    ensures x == Predicted(p.coefs, RowOf(a, nr, i), p.order)
  {
    x := 0;
    for tapNr := 0 to p.order
      invariant x == Predicted(p.coefs, RowOf(a, nr, i), tapNr)
    {
      x := x + p.coefs[tapNr] * a[nr, i - tapNr - 1];
    }
  }

  /** The next predicted entry behind the first i of row `nr`. */
  method UnpackPredicted(sd: StrData, k: Kind, a: array2<int>, nr: nat, i: nat, p: Method, m: nat) returns (fault: Fault, c: int)
    requires InFrame(sd) && p.Valid() && nr < a.Length0 && p.order <= i <= a.Length1 && m < 32
    modifies sd
    ensures sd.data == old(sd.data) && sd.Valid()
    ensures match ReadPredicted(old(sd.Rest()), k, p, m, RowOf(a, nr, i))
            case Err(e) => fault == Faulty(e)
            case Ok(v, rest) => fault == NoFault && c == v && sd.Rest() == rest && InFrame(sd)
  {
    var x := Predict(a, nr, i, p);
    var ok, d := RiceDecode(sd, m);
    if !ok { return Faulty(OutOfData), 0; }
    if x >= 0 {
      c := d - (x + 4) / 8;
    } else {
      c := d + (-x + 3) / 8;
    }
    if c < k.low || c > k.high { return Faulty(k.rangeError), c; }
    fault := NoFault;
  }

  /** The predicted entries up to `len`. */
  method UnpackCoded(sd: StrData, k: Kind, a: array2<int>, nr: nat, len: nat, p: Method, m: nat) returns (fault: Fault)
    requires InFrame(sd) && p.Valid() && nr < a.Length0 && p.order <= len <= a.Length1 && m < 32
    modifies sd, a
    ensures sd.data == old(sd.data) && sd.Valid() && OnlyRow(a, nr)
    ensures match ReadCoded(old(sd.Rest()), k, p, m, len - p.order, old(RowOf(a, nr, p.order)))
            case Err(e) => fault == Faulty(e)
            case Ok(entries, rest) => fault == NoFault && RowOf(a, nr, len) == entries && sd.Rest() == rest && InFrame(sd)
  {
    ghost var whole := ReadCoded(sd.Rest(), k, p, m, len - p.order, RowOf(a, nr, p.order));
    fault := NoFault;
    for i := p.order to len
      invariant fault == NoFault && InFrame(sd) && sd.data == old(sd.data) && OnlyRow(a, nr)
      invariant whole == ReadCoded(sd.Rest(), k, p, m, len - i, RowOf(a, nr, i))
    {
      ghost var done := RowOf(a, nr, i);
      var c;
      fault, c := UnpackPredicted(sd, k, a, nr, i, p, m);
      if fault != NoFault { return; }
      a[nr, i] := c;
      assert RowOf(a, nr, i + 1) == done + [c];
    }
  }

  /** The coded branch: method, first entries, m and the predicted rest. */
  method UnpackRiceTable(sd: StrData, k: Kind, ms: seq<Method>, a: array2<int>, nr: nat, len: nat) returns (fault: Fault, coding: Coding)
    requires InFrame(sd) && k.Valid() && ValidMethods(ms) && nr < a.Length0 && len <= a.Length1
    modifies sd, a
    ensures sd.data == old(sd.data) && sd.Valid() && OnlyRow(a, nr)
    ensures match ReadRiceTable(old(sd.Rest()), k, ms, len)
            case Err(e) => fault == Faulty(e)
            case Ok(t, rest) => fault == NoFault && Table(coding, RowOf(a, nr, len)) == t && sd.Rest() == rest && InFrame(sd)
  {
    coding := Raw;
    var ok, bestMethod := ReadNumber(sd, k.methodBits);
    if !ok { return Faulty(NegativeBitAllocation), Raw; }
    if bestMethod >= 3 { return Faulty(UnknownMethod), Raw; }
    var p := ms[bestMethod];
    if p.order >= len { return Faulty(k.codingError), Raw; }
    ok := UnpackRaw(sd, k, a, nr, p.order);
    if !ok { return Faulty(NegativeBitAllocation), Raw; }
    var m;
    ReadUBound(sd.Rest(), k.mBits);
    ok, m := ReadNumber(sd, k.mBits);
    if !ok { return Faulty(NegativeBitAllocation), Raw; }
    fault := UnpackCoded(sd, k, a, nr, len, p, m);
    coding := Rice(bestMethod, m);
  }

  /** Everything behind the length of a table. */
  method UnpackEntries(sd: StrData, k: Kind, ms: seq<Method>, a: array2<int>, nr: nat, len: nat) returns (fault: Fault, coding: Coding)
    requires InFrame(sd) && k.Valid() && ValidMethods(ms) && nr < a.Length0 && 1 <= len <= a.Length1
    modifies sd, a
    ensures sd.data == old(sd.data) && sd.Valid() && OnlyRow(a, nr)
    ensures match ReadEntries(old(sd.Rest()), k, ms, len)
            case Err(e) => fault == Faulty(e)
            case Ok(t, rest) => fault == NoFault && Table(coding, RowOf(a, nr, len)) == t && sd.Rest() == rest && InFrame(sd)
  {
    if !k.signed && len == 1 {
      a[nr, 0] := k.high;
      assert RowOf(a, nr, len) == [k.high];
      return NoFault, Raw;
    }
    var ok, coded := ReadFlag(sd);
    if !ok { return Faulty(NegativeBitAllocation), Raw; }
    if coded == 0 {
      ok := UnpackRaw(sd, k, a, nr, len);
      fault, coding := if ok then NoFault else Faulty(NegativeBitAllocation), Raw;
    } else {
      fault, coding := UnpackRiceTable(sd, k, ms, a, nr, len);
    }
  }

  /** What is known of a table besides its entries: PredOrder or PtableLen, and Coded, BestMethod
      and m of CodedTable. */
  datatype TableInfo = TableInfo(len: nat, coding: Coding)

  /** The arrays of one kind of table: ICoefA or P_one, and what is known of each table. */
  class Tables {
    const entries: array2<int>
    const infos: array<TableInfo>

    constructor (maxTables: nat, maxLen: nat)
      ensures Sized(maxTables, maxLen) && fresh(entries) && fresh(infos)
    {
      entries := new int[maxTables, maxLen];
      infos := new TableInfo[maxTables](_ => TableInfo(0, Raw));
    }

    ghost predicate Sized(maxTables: nat, maxLen: nat) {
      entries.Length0 == infos.Length == maxTables && entries.Length1 == maxLen
    }

    ghost predicate ShowsTable(nr: nat, t: Table, k: Kind)
      requires nr < entries.Length0 && nr < infos.Length
      reads entries, infos
    {
      && infos[nr] == TableInfo(|t.entries|, t.coding) && |t.entries| <= entries.Length1
      && (forall i :: 0 <= i < |t.entries| ==> entries[nr, i] == t.entries[i])
      && (k.signed ==> forall i :: |t.entries| <= i < entries.Length1 ==> entries[nr, i] == 0)
    }

    ghost predicate Shows(ts: seq<Table>, k: Kind)
      requires |ts| <= entries.Length0 && |ts| <= infos.Length
      reads entries, infos
    {
      forall nr :: 0 <= nr < |ts| ==> ShowsTable(nr, ts[nr], k)
    }
  }

  /** Clears the coefficients behind the last one. */
  method ClearTail(a: array2<int>, nr: nat, len: nat)
    requires nr < a.Length0 && len <= a.Length1
    modifies a
    ensures OnlyRow(a, nr) && RowOf(a, nr, len) == old(RowOf(a, nr, len))
    ensures forall i :: len <= i < a.Length1 ==> a[nr, i] == 0
  {
    for i := len to a.Length1
      invariant OnlyRow(a, nr)
      invariant forall j :: 0 <= j < len ==> a[nr, j] == old(a[nr, j])
      invariant forall j :: len <= j < i ==> a[nr, j] == 0
    {
      a[nr, i] := 0;
    }
  }

  /** Table `nr`: its length, its entries and for a filter the cleared rest of its row. */
  method UnpackTable(sd: StrData, k: Kind, ms: seq<Method>, tables: Tables, nr: nat) returns (fault: Fault, ghost t: Table)
    requires InFrame(sd) && k.Valid() && ValidMethods(ms) && tables.Sized(tables.infos.Length, Pow2(k.lenBits)) && nr < tables.infos.Length
    modifies sd, tables.entries, tables.infos
    ensures sd.data == old(sd.data) && sd.Valid() && OnlyRow(tables.entries, nr)
    ensures forall r :: 0 <= r < tables.infos.Length && r != nr ==> tables.infos[r] == old(tables.infos[r])
    ensures match ReadTable(old(sd.Rest()), k, ms)
            case Err(e) => fault == Faulty(e)
            case Ok(v, rest) => fault == NoFault && t == v && sd.Rest() == rest && InFrame(sd)
    ensures fault == NoFault ==> tables.ShowsTable(nr, t, k)
  {
    t := Table(Raw, []);
    ReadUBound(sd.Rest(), k.lenBits);
    var ok, len := ReadNumber(sd, k.lenBits);
    if !ok { fault := Faulty(NegativeBitAllocation); return; }
    var coding;
    fault, coding := UnpackEntries(sd, k, ms, tables.entries, nr, len + 1);
    tables.infos[nr] := TableInfo(len + 1, coding);
    if fault != NoFault { return; }
    t := Table(coding, RowOf(tables.entries, nr, len + 1));
    if k.signed { ClearTail(tables.entries, nr, len + 1); }
    assert forall i :: 0 <= i < |t.entries| ==> tables.entries[nr, i] == RowOf(tables.entries, nr, len + 1)[i];
  }

  /** The loop over n tables. */
  method UnpackTables(sd: StrData, k: Kind, ms: seq<Method>, tables: Tables, n: nat) returns (fault: Fault, ghost ts: seq<Table>)
    requires InFrame(sd) && k.Valid() && ValidMethods(ms) && tables.Sized(tables.infos.Length, Pow2(k.lenBits)) && n <= tables.infos.Length
    modifies sd, tables.entries, tables.infos
    ensures sd.data == old(sd.data) && sd.Valid()
    ensures match ReadTables(old(sd.Rest()), k, ms, n, [])
            case Err(e) => fault == Faulty(e)
            case Ok(v, rest) => fault == NoFault && ts == v && sd.Rest() == rest && InFrame(sd)
    ensures fault == NoFault ==> |ts| == n && tables.Shows(ts, k)
  {
    ghost var whole := ReadTables(sd.Rest(), k, ms, n, []);
    ts, fault := [], NoFault;
    for nr := 0 to n
      invariant fault == NoFault && InFrame(sd) && sd.data == old(sd.data)
      invariant |ts| == nr && tables.Shows(ts, k)
      invariant whole == ReadTables(sd.Rest(), k, ms, n - nr, ts)
    {
      ghost var t;
      fault, t := UnpackTable(sd, k, ms, tables, nr);
      if fault != NoFault { return; }
      ts := ts + [t];
    }
  }

  /** ReadFilterCoefSets: the filters, and for each channel as many half-probability bits as its
      first filter has coefficients. */
  method ReadFilterCoefSets(sd: StrData, k: Kind, ms: seq<Method>, tables: Tables, n: nat, table4Segment: array2<nat>, nrOfHalfBits: array<nat>)
    returns (fault: Fault, ghost ts: seq<Table>)
    requires InFrame(sd) && k.Valid() && k.signed && ValidMethods(ms) && tables.Sized(tables.infos.Length, Pow2(k.lenBits)) && n <= tables.infos.Length
    requires table4Segment.Length0 == nrOfHalfBits.Length && table4Segment.Length1 >= 1
    requires forall ch :: 0 <= ch < nrOfHalfBits.Length ==> table4Segment[ch, 0] < n
    modifies sd, tables.entries, tables.infos, nrOfHalfBits
    ensures sd.data == old(sd.data) && sd.Valid()
    ensures match ReadTables(old(sd.Rest()), k, ms, n, [])
            case Err(e) => fault == Faulty(e)
            case Ok(v, rest) => fault == NoFault && ts == v && sd.Rest() == rest && InFrame(sd)
    ensures fault == NoFault ==> |ts| == n && tables.Shows(ts, k)
    ensures fault == NoFault ==> forall ch :: 0 <= ch < nrOfHalfBits.Length ==> nrOfHalfBits[ch] == |ts[table4Segment[ch, 0]].entries|
  {
    fault, ts := UnpackTables(sd, k, ms, tables, n);
    if fault != NoFault { return; }
    for chNr := 0 to nrOfHalfBits.Length
      modifies nrOfHalfBits
      invariant tables.Shows(ts, k)
      invariant forall ch :: 0 <= ch < chNr ==> nrOfHalfBits[ch] == |ts[table4Segment[ch, 0]].entries|
    {
      assert tables.ShowsTable(table4Segment[chNr, 0], ts[table4Segment[chNr, 0]], k);
      nrOfHalfBits[chNr] := tables.infos[table4Segment[chNr, 0]].len;
    }
  }

  /** ReadProbabilityTables */
  method ReadProbabilityTables(sd: StrData, k: Kind, ms: seq<Method>, tables: Tables, n: nat) returns (fault: Fault, ghost ts: seq<Table>)
    requires InFrame(sd) && k.Valid() && !k.signed && ValidMethods(ms) && tables.Sized(tables.infos.Length, Pow2(k.lenBits)) && n <= tables.infos.Length
    modifies sd, tables.entries, tables.infos
    ensures sd.data == old(sd.data) && sd.Valid()
    ensures match ReadTables(old(sd.Rest()), k, ms, n, [])
            case Err(e) => fault == Faulty(e)
            case Ok(v, rest) => fault == NoFault && ts == v && sd.Rest() == rest && InFrame(sd)
    ensures fault == NoFault ==> |ts| == n && tables.Shows(ts, k)
  {
    fault, ts := UnpackTables(sd, k, ms, tables, n);
  }
}
