/** The filter coefficients and probability tables of a DST frame
    (ReadFilterCoefSets and ReadProbabilityTables of libs/libdstdec/unpack_dst.c).  Both kinds of
    table are sent raw, or predicted from their previous entries with Rice-coded differences. */
module DstTables {
  import opened Bits
  import opened DstRice

  type Width = n: nat | n >= 1 witness 1

  /** A kind of table: the widths of its fields, the range of its entries, and its errors.  Entries
      are sent signed (coefficients), or less 1 (probabilities). */
  datatype Kind = Kind(signed: bool, lenBits: nat, entryBits: Width, methodBits: nat, mBits: nat, low: int, high: int,
                       codingError: DstError, rangeError: DstError)
  {
    /** The widths fit the ranges. */
    ghost predicate Valid() {
      && entryBits <= 16 && lenBits <= 16 && methodBits <= 16 && mBits <= 16
      && Pow2(methodBits) == 4 && Pow2(mBits) == 8
      && (if signed then low + Pow2(entryBits - 1) == 0 && high + 1 == Pow2(entryBits - 1) else low == 1 && high == Pow2(entryBits))
    }
  }

  function Coef(): Kind { Kind(true, 7, 9, 2, 3, -256, 255, InvalidCoefficientCoding, InvalidCoefficientRange) }

  function Prob(): Kind { Kind(false, 6, 7, 2, 3, 1, 128, InvalidPtableCoding, InvalidPtableRange) }

  lemma KindsValid()
    ensures Coef().Valid() && Pow2(Coef().lenBits) == 128 && Coef().low == -256 && Coef().high == 255
    ensures Prob().Valid() && Pow2(Prob().lenBits) == 64 && Prob().low == 1 && Prob().high == 128
  {
    SmallPowers(Coef().methodBits, Coef().mBits, Prob().lenBits);
  }

  lemma SmallPowers(two: nat, three: nat, six: nat)
    requires two == 2 && three == 3 && six == 6
    ensures Pow2(two) == 4 && Pow2(three) == 8 && Pow2(six) == 64 && Pow2(six + 1) == 128 && Pow2(six + 2) == 256
  {
    assert Pow2(two - 1) == 2 * Pow2(two - 2);
    assert Pow2(six - 2) == 2 * Pow2(three) && Pow2(six - 1) == 2 * Pow2(six - 2);
  }

  /** CPredOrder and CPredCoef of one Rice method. */
  datatype Method = Method(order: nat, coefs: seq<int>) {
    predicate Valid() { order <= 3 && |coefs| == order }
  }

  datatype Coding = Raw | Rice(which: nat, m: nat)

  datatype Table = Table(coding: Coding, entries: seq<int>)

  /** CCP_CalcInit for filters, and for probability tables. */
  const FILTER_METHODS: seq<Method> := [Method(1, [-8]), Method(2, [-16, 8]), Method(3, [-9, -5, 6])]
  const PTABLE_METHODS: seq<Method> := [Method(1, [-8]), Method(2, [-16, 8]), Method(3, [-24, 24, -8])]

  /** The three methods of one kind of table. */
  predicate ValidMethods(ms: seq<Method>) { |ms| == 3 && forall i :: 0 <= i < 3 ==> ms[i].Valid() }

  predicate InRange(k: Kind, v: int) { k.low <= v <= k.high }

  // ----- prediction -----

  /** The sum over the last `taps` entries, the newest first. */
  function Predicted(coefs: seq<int>, done: seq<int>, taps: nat): int
    requires taps <= |coefs| && taps <= |done|
  {
    if taps == 0 then 0 else Predicted(coefs, done, taps - 1) + coefs[taps - 1] * done[|done| - taps]
  }

  /** Coefficients that are 0 predict nothing. */
  lemma {:induction false} PredictedZero(coefs: seq<int>, done: seq<int>, taps: nat)
    requires taps <= |coefs| && taps <= |done| && forall t :: 0 <= t < taps ==> coefs[t] == 0
    ensures Predicted(coefs, done, taps) == 0
  {
    if taps > 0 { PredictedZero(coefs, done, taps - 1); }
  }

  /** The prediction is linear in the coefficients. */
  lemma {:induction false} PredictedLinear(a: seq<int>, b: seq<int>, n: int, sum: seq<int>, done: seq<int>, taps: nat)
    requires taps <= |a| && taps <= |b| && taps <= |sum| && taps <= |done|
    requires forall t :: 0 <= t < taps ==> sum[t] == n * a[t] + b[t]
    ensures Predicted(sum, done, taps) == n * Predicted(a, done, taps) + Predicted(b, done, taps)
  {
    if taps > 0 {
      PredictedLinear(a, b, n, sum, done, taps - 1);
      var x, y, v := a[taps - 1], b[taps - 1], done[|done| - taps];
      Distribute(n, x, y, v);
      Distribute(n, Predicted(a, done, taps - 1), x * v, 1);
    }
  }

  lemma Distribute(n: int, x: int, y: int, v: int)
    ensures (n * x + y) * v == n * (x * v) + y * v
    ensures n * (x + y) == n * x + n * y
  {
  }

  /** The coefficient at place t weighs the entry t + 1 places back, and no other. */
  lemma {:induction false} PredictedUnit(coefs: seq<int>, done: seq<int>, taps: nat, t: nat)
    requires t < taps <= |coefs| && taps <= |done| && coefs[t] == 1
    requires forall i :: 0 <= i < taps && i != t ==> coefs[i] == 0
    ensures Predicted(coefs, done, taps) == done[|done| - 1 - t]
  {
    if t == taps - 1 {
      PredictedZero(coefs, done, taps - 1);
    } else {
      PredictedUnit(coefs, done, taps - 1, t);
    }
  }

  /** What is added to the decoded difference: the prediction over 8, rounded in two branches so
      that C's division only meets numbers that are not negative. */
  function Correction(x: int): int {
    if x >= 0 then -((x + 4) / 8) else (-x + 3) / 8
  }

  /** Both branches take away floor((x + 4) / 8): the multiple of 8 they stand for is within
      [x - 3, x + 4]. */
  lemma CorrectionFloors(x: int)
    ensures -8 * Correction(x) <= x + 4 < -8 * Correction(x) + 8
    ensures Correction(x) == -((x + 4) / 8)
  {
  }

  /** What the methods predict, when the difference is 0: the first one that the last entry comes again,
      the second one that the last two go on in a line, and the third one of the probability tables
      that the last three go on in a parabola.  The third one of the filters weighs three entries. */
  lemma MethodsPredict(done: seq<int>)
    requires |done| >= 3
    ensures ValidMethods(FILTER_METHODS) && ValidMethods(PTABLE_METHODS)
    ensures var n, f, p := |done|, FILTER_METHODS, PTABLE_METHODS;
            var x, y, z := done[n - 1], done[n - 2], done[n - 3];
            && Correction(Predicted(f[0].coefs, done, 1)) == Correction(Predicted(p[0].coefs, done, 1)) == x
            && Correction(Predicted(f[1].coefs, done, 2)) == Correction(Predicted(p[1].coefs, done, 2)) == 2 * x - y
            && Correction(Predicted(p[2].coefs, done, 3)) == 3 * x - 3 * y + z
            && Correction(Predicted(f[2].coefs, done, 3)) == -((-9 * x - 5 * y + 6 * z + 4) / 8)
  {
    var n := |done|;
    var x, y, z := done[n - 1], done[n - 2], done[n - 3];
    PredictedThree(FILTER_METHODS[2].coefs, done);
    PredictedThree(PTABLE_METHODS[2].coefs, done);
    PredictedTwo(FILTER_METHODS[1].coefs, done);
    assert Predicted([-8], done, 1) == -8 * x;
    EighthsCorrected(x);
    EighthsCorrected(2 * x - y);
    EighthsCorrected(3 * x - 3 * y + z);
    CorrectionFloors(-9 * x - 5 * y + 6 * z);
  }

  lemma EighthsCorrected(x: int)
    ensures Correction(-8 * x) == x
  {
  }

  /** The sums written out. */
  lemma PredictedTwo(coefs: seq<int>, done: seq<int>)
    requires |coefs| >= 2 && |done| >= 2
    ensures Predicted(coefs, done, 2) == coefs[0] * done[|done| - 1] + coefs[1] * done[|done| - 2]
  {
    assert Predicted(coefs, done, 1) == Predicted(coefs, done, 0) + coefs[0] * done[|done| - 1];
  }

  lemma PredictedThree(coefs: seq<int>, done: seq<int>)
    requires |coefs| >= 3 && |done| >= 3
    ensures Predicted(coefs, done, 3) == coefs[0] * done[|done| - 1] + coefs[1] * done[|done| - 2] + coefs[2] * done[|done| - 3]
  {
    PredictedTwo(coefs, done);
  }

  // ----- the reader -----

  function ReadEntry(bits: BitList, k: Kind): Parsed<int> {
    if k.signed then ReadS(bits, k.entryBits)
    else
      match ReadU(bits, k.entryBits)
      case Err(e) => Err(e)
      case Ok(v, rest) => Ok(v + 1, rest)
  }

  /** n more raw entries behind `done`. */
  function ReadRaw(bits: BitList, k: Kind, n: nat, done: seq<int>): Parsed<seq<int>>
    decreases n
  {
    if n == 0 then Ok(done, bits)
    else
      match ReadEntry(bits, k)
      case Err(e) => Err(e)
      case Ok(v, rest) => ReadRaw(rest, k, n - 1, done + [v])
  }

  /** The next predicted entry. */
  function ReadPredicted(bits: BitList, k: Kind, p: Method, m: nat, done: seq<int>): Parsed<int>
    requires p.Valid() && p.order <= |done|
  {
    match ReadRice(bits, m)
    case Err(e) => Err(e)
    case Ok(d, rest) =>
      var c := d + Correction(Predicted(p.coefs, done, p.order));
      if InRange(k, c) then Ok(c, rest) else Err(k.rangeError)
  }

  /** n more predicted entries behind `done`. */
  function ReadCoded(bits: BitList, k: Kind, p: Method, m: nat, n: nat, done: seq<int>): Parsed<seq<int>>
    requires p.Valid() && p.order <= |done|
    decreases n
  {
    if n == 0 then Ok(done, bits)
    else
      match ReadPredicted(bits, k, p, m, done)
      case Err(e) => Err(e)
      case Ok(c, rest) => ReadCoded(rest, k, p, m, n - 1, done + [c])
  }

  lemma {:induction false} RawLength(bits: BitList, k: Kind, n: nat, done: seq<int>)
    requires ReadRaw(bits, k, n, done).Ok?
    ensures |ReadRaw(bits, k, n, done).value| == |done| + n
    decreases n
  {
    if n > 0 {
      var r := ReadEntry(bits, k);
      RawLength(r.rest, k, n - 1, done + [r.value]);
    }
  }

  /** The predicted part of a table with `len` entries, whose first entries are `first`. */
  function ReadTail(bits: BitList, k: Kind, p: Method, which: nat, len: nat, first: seq<int>): Parsed<Table>
    requires p.Valid() && p.order == |first| < len
  {
    match ReadU(bits, k.mBits)
    case Err(e) => Err(e)
    case Ok(m, rest) =>
      match ReadCoded(rest, k, p, m, len - p.order, first)
      case Err(e) => Err(e)
      case Ok(entries, after) => Ok(Table(Rice(which, m), entries), after)
  }

  function ReadWithMethod(bits: BitList, k: Kind, p: Method, which: nat, len: nat): Parsed<Table>
    requires p.Valid()
  {
    if p.order >= len then Err(k.codingError)
    else
      match ReadRaw(bits, k, p.order, [])
      case Err(e) => Err(e)
      case Ok(first, rest) =>
        RawLength(bits, k, p.order, []);
        ReadTail(rest, k, p, which, len, first)
  }

  function ReadRiceTable(bits: BitList, k: Kind, ms: seq<Method>, len: nat): Parsed<Table>
    requires ValidMethods(ms)
  {
    match ReadU(bits, k.methodBits)
    case Err(e) => Err(e)
    case Ok(which, rest) =>
      if which >= 3 then Err(UnknownMethod) else ReadWithMethod(rest, k, ms[which], which, len)
  }

  function ReadRawTable(bits: BitList, k: Kind, len: nat): Parsed<Table> {
    match ReadRaw(bits, k, len, [])
    case Err(e) => Err(e)
    case Ok(entries, rest) => Ok(Table(Raw, entries), rest)
  }

  /** The entries behind the length field; a single probability is 128 and not sent. */
  function ReadEntries(bits: BitList, k: Kind, ms: seq<Method>, len: nat): Parsed<Table>
    requires ValidMethods(ms)
  {
    if !k.signed && len == 1 then Ok(Table(Raw, [k.high]), bits)
    else
      match bits
      case Nil => Err(NegativeBitAllocation)
      case Cons(coded, rest) => if coded == 0 then ReadRawTable(rest, k, len) else ReadRiceTable(rest, k, ms, len)
  }

  function ReadTable(bits: BitList, k: Kind, ms: seq<Method>): Parsed<Table>
    requires ValidMethods(ms)
  {
    match ReadU(bits, k.lenBits)
    case Err(e) => Err(e)
    case Ok(v, rest) => ReadEntries(rest, k, ms, v + 1)
  }

  /** n more tables behind `done`: the loops of ReadFilterCoefSets and ReadProbabilityTables. */
  function ReadTables(bits: BitList, k: Kind, ms: seq<Method>, n: nat, done: seq<Table>): Parsed<seq<Table>>
    requires ValidMethods(ms)
    decreases n
  {
    if n == 0 then Ok(done, bits)
    else
      match ReadTable(bits, k, ms)
      case Err(e) => Err(e)
      case Ok(t, rest) => ReadTables(rest, k, ms, n - 1, done + [t])
  }

  // ----- which tables exist -----

  predicate AllInRange(k: Kind, entries: seq<int>) { forall i :: 0 <= i < |entries| ==> InRange(k, entries[i]) }

  predicate LegalTable(t: Table, k: Kind, ms: seq<Method>)
    requires ValidMethods(ms)
  {
    && 1 <= |t.entries| <= Pow2(k.lenBits)
    && AllInRange(k, t.entries)
    && (t.coding.Rice? ==> t.coding.which < 3 && t.coding.m < 8 && ms[t.coding.which].order < |t.entries|)
    && (!k.signed && |t.entries| == 1 ==> t == Table(Raw, [k.high]))
  }

  predicate LegalTables(ts: seq<Table>, k: Kind, ms: seq<Method>)
    requires ValidMethods(ms)
  {
    forall i :: 0 <= i < |ts| ==> LegalTable(ts[i], k, ms)
  }

  // ----- the encoder -----

  function WriteEntry(k: Kind, v: int, tail: BitList): BitList {
    if k.signed then WriteS(v, k.entryBits, tail) else WriteU(v - 1, k.entryBits, tail)
  }

  /** The raw entries from i up to n. */
  function WriteRaw(k: Kind, entries: seq<int>, i: nat, n: nat, tail: BitList): BitList
    requires i <= n <= |entries|
    decreases n - i
  {
    if i == n then tail else WriteEntry(k, entries[i], WriteRaw(k, entries, i + 1, n, tail))
  }

  /** The difference to the rounded prediction. */
  function Difference(p: Method, done: seq<int>, v: int): int
    requires p.Valid() && p.order <= |done|
  {
    v + (Predicted(p.coefs, done, p.order) + 4) / 8
  }

  /** The predicted entries from i on. */
  function WriteCoded(p: Method, m: nat, entries: seq<int>, i: nat, tail: BitList): BitList
    requires p.Valid() && p.order <= i <= |entries|
    decreases |entries| - i
  {
    if i == |entries| then tail
    else WriteRice(Difference(p, entries[..i], entries[i]), m, WriteCoded(p, m, entries, i + 1, tail))
  }

  function WriteRiceTable(k: Kind, p: Method, which: nat, m: nat, entries: seq<int>, tail: BitList): BitList
    requires p.Valid() && p.order <= |entries|
  {
    WriteU(which, k.methodBits, WriteRaw(k, entries, 0, p.order, WriteU(m, k.mBits, WriteCoded(p, m, entries, p.order, tail))))
  }

  function WriteEntries(t: Table, k: Kind, ms: seq<Method>, tail: BitList): BitList
    requires ValidMethods(ms) && LegalTable(t, k, ms)
  {
    if !k.signed && |t.entries| == 1 then tail
    else
      match t.coding
      case Raw => Cons(0, WriteRaw(k, t.entries, 0, |t.entries|, tail))
      case Rice(which, m) => Cons(1, WriteRiceTable(k, ms[which], which, m, t.entries, tail))
  }

  function WriteTable(t: Table, k: Kind, ms: seq<Method>, tail: BitList): BitList
    requires ValidMethods(ms) && LegalTable(t, k, ms)
  {
    WriteU(|t.entries| - 1, k.lenBits, WriteEntries(t, k, ms, tail))
  }

  /** The tables from i on. */
  function WriteTables(ts: seq<Table>, i: nat, k: Kind, ms: seq<Method>, tail: BitList): BitList
    requires ValidMethods(ms) && LegalTables(ts, k, ms) && i <= |ts|
    decreases |ts| - i
  {
    if i == |ts| then tail else WriteTable(ts[i], k, ms, WriteTables(ts, i + 1, k, ms, tail))
  }

  // ----- the reader inverts the encoder -----

  lemma EntryWritten(k: Kind, v: int, tail: BitList)
    requires k.Valid() && InRange(k, v)
    ensures ReadEntry(WriteEntry(k, v, tail), k) == Ok(v, tail)
  {
    var n := k.entryBits;
    if k.signed { ReadSWritten(v, n, tail); } else { ReadUWritten(v - 1, n, tail); }
  }

  lemma EntryExact(bits: BitList, k: Kind)
    requires k.Valid() && ReadEntry(bits, k).Ok?
    ensures var r := ReadEntry(bits, k); InRange(k, r.value) && bits == WriteEntry(k, r.value, r.rest)
  {
    var n := k.entryBits;
    if k.signed { ReadSExact(bits, n); } else { ReadUExact(bits, n); }
  }

  lemma {:induction false} RawWritten(k: Kind, entries: seq<int>, i: nat, n: nat, tail: BitList)
    requires k.Valid() && i <= n <= |entries| && AllInRange(k, entries)
    ensures ReadRaw(WriteRaw(k, entries, i, n, tail), k, n - i, entries[..i]) == Ok(entries[..n], tail)
    decreases n - i
  {
    if i < n {
      EntryWritten(k, entries[i], WriteRaw(k, entries, i + 1, n, tail));
      RawWritten(k, entries, i + 1, n, tail);
      assert entries[..i] + [entries[i]] == entries[..i + 1];
    }
  }

  /** What `entries` has behind `done`. */
  predicate Extends(entries: seq<int>, done: seq<int>, n: nat) {
    |entries| == |done| + n && entries[..|done|] == done
  }

  lemma ExtendsStep(entries: seq<int>, done: seq<int>, v: int, n: nat)
    requires Extends(entries, done + [v], n)
    ensures Extends(entries, done, n + 1) && entries[|done|] == v && entries[..|done| + 1] == done + [v]
  {
    assert entries[|done|] == (entries[..|done| + 1])[|done|];
    assert entries[..|done|] == (entries[..|done| + 1])[..|done|];
  }

  lemma {:induction false} RawExact(bits: BitList, k: Kind, n: nat, done: seq<int>) returns (entries: seq<int>, rest: BitList)
    requires k.Valid() && ReadRaw(bits, k, n, done).Ok? && AllInRange(k, done)
    ensures ReadRaw(bits, k, n, done) == Ok(entries, rest)
    ensures Extends(entries, done, n) && AllInRange(k, entries) && bits == WriteRaw(k, entries, |done|, |entries|, rest)
    decreases n
  {
    if n == 0 {
      entries, rest := done, bits;
    } else {
      var r := ReadEntry(bits, k);
      EntryExact(bits, k);
      entries, rest := RawExact(r.rest, k, n - 1, done + [r.value]);
      ExtendsStep(entries, done, r.value, n - 1);
    }
  }

  lemma PredictedWritten(k: Kind, p: Method, m: nat, done: seq<int>, v: int, tail: BitList)
    requires p.Valid() && p.order <= |done| && InRange(k, v)
    ensures ReadPredicted(WriteRice(Difference(p, done, v), m, tail), k, p, m, done) == Ok(v, tail)
  {
    RiceWritten(Difference(p, done, v), m, tail);
    CorrectionFloors(Predicted(p.coefs, done, p.order));
  }

  lemma PredictedExact(bits: BitList, k: Kind, p: Method, m: nat, done: seq<int>)
    requires p.Valid() && p.order <= |done| && ReadPredicted(bits, k, p, m, done).Ok?
    ensures var r := ReadPredicted(bits, k, p, m, done);
            InRange(k, r.value) && bits == WriteRice(Difference(p, done, r.value), m, r.rest)
  {
    RiceExact(bits, m);
    CorrectionFloors(Predicted(p.coefs, done, p.order));
  }

  lemma {:induction false} CodedWritten(k: Kind, p: Method, m: nat, entries: seq<int>, i: nat, tail: BitList)
    requires p.Valid() && p.order <= i <= |entries| && AllInRange(k, entries)
    ensures ReadCoded(WriteCoded(p, m, entries, i, tail), k, p, m, |entries| - i, entries[..i]) == Ok(entries, tail)
    decreases |entries| - i
  {
    if i < |entries| {
      PredictedWritten(k, p, m, entries[..i], entries[i], WriteCoded(p, m, entries, i + 1, tail));
      CodedWritten(k, p, m, entries, i + 1, tail);
      assert entries[..i] + [entries[i]] == entries[..i + 1];
    } else {
      assert entries[..i] == entries;
    }
  }

  lemma {:induction false} CodedExact(bits: BitList, k: Kind, p: Method, m: nat, n: nat, done: seq<int>)
    returns (entries: seq<int>, rest: BitList)
    requires p.Valid() && p.order <= |done| && AllInRange(k, done) && ReadCoded(bits, k, p, m, n, done).Ok?
    ensures ReadCoded(bits, k, p, m, n, done) == Ok(entries, rest)
    ensures Extends(entries, done, n) && AllInRange(k, entries) && bits == WriteCoded(p, m, entries, |done|, rest)
    decreases n
  {
    if n == 0 {
      entries, rest := done, bits;
    } else {
      var r := ReadPredicted(bits, k, p, m, done);
      PredictedExact(bits, k, p, m, done);
      entries, rest := CodedExact(r.rest, k, p, m, n - 1, done + [r.value]);
      ExtendsStep(entries, done, r.value, n - 1);
    }
  }

  lemma {:induction false} WriteRawPrefix(k: Kind, a: seq<int>, b: seq<int>, i: nat, n: nat, tail: BitList)
    requires i <= n <= |a| && n <= |b| && a[..n] == b[..n]
    ensures WriteRaw(k, a, i, n, tail) == WriteRaw(k, b, i, n, tail)
    decreases n - i
  {
    if i < n {
      WriteRawPrefix(k, a, b, i + 1, n, tail);
      assert a[i] == a[..n][i] == b[..n][i] == b[i];
    }
  }

  lemma RiceTableWritten(k: Kind, ms: seq<Method>, which: nat, m: nat, entries: seq<int>, tail: BitList)
    requires k.Valid() && ValidMethods(ms) && which < 3 && m < 8 && ms[which].order < |entries| && AllInRange(k, entries)
    ensures ReadRiceTable(WriteRiceTable(k, ms[which], which, m, entries, tail), k, ms, |entries|)
         == Ok(Table(Rice(which, m), entries), tail)
  {
    var p := ms[which];
    var coded := WriteCoded(p, m, entries, p.order, tail);
    var withM := WriteU(m, k.mBits, coded);
    ReadUWritten(which, k.methodBits, WriteRaw(k, entries, 0, p.order, withM));
    RawWritten(k, entries, 0, p.order, withM);
    assert entries[..0] == [];
    ReadUWritten(m, k.mBits, coded);
    CodedWritten(k, p, m, entries, p.order, tail);
    var first := entries[..p.order];
    assert ReadTail(withM, k, p, which, |entries|, first) == Ok(Table(Rice(which, m), entries), tail);
  }

  lemma WithMethodExact(bits: BitList, k: Kind, p: Method, which: nat, len: nat) returns (m: nat, entries: seq<int>, rest: BitList)
    requires k.Valid() && p.Valid() && ReadWithMethod(bits, k, p, which, len).Ok?
    ensures ReadWithMethod(bits, k, p, which, len) == Ok(Table(Rice(which, m), entries), rest)
    ensures m < 8 && p.order < len == |entries| && AllInRange(k, entries)
    ensures bits == WriteRaw(k, entries, 0, p.order, WriteU(m, k.mBits, WriteCoded(p, m, entries, p.order, rest)))
  {
    var first, mid := RawExact(bits, k, p.order, []);
    var r := ReadU(mid, k.mBits);
    ReadUExact(mid, k.mBits);
    m := r.value;
    entries, rest := CodedExact(r.rest, k, p, m, len - p.order, first);
    WriteRawPrefix(k, first, entries, 0, p.order, mid);
  }

  lemma TableWritten(t: Table, k: Kind, ms: seq<Method>, tail: BitList)
    requires k.Valid() && ValidMethods(ms) && LegalTable(t, k, ms)
    ensures ReadTable(WriteTable(t, k, ms, tail), k, ms) == Ok(t, tail)
  {
    var n := k.lenBits;
    ReadUWritten(|t.entries| - 1, n, WriteEntries(t, k, ms, tail));
    EntriesWritten(t, k, ms, tail);
  }

  lemma EntriesWritten(t: Table, k: Kind, ms: seq<Method>, tail: BitList)
    requires k.Valid() && ValidMethods(ms) && LegalTable(t, k, ms)
    ensures ReadEntries(WriteEntries(t, k, ms, tail), k, ms, |t.entries|) == Ok(t, tail)
  {
    if !(!k.signed && |t.entries| == 1) {
      match t.coding
      case Raw =>
        RawWritten(k, t.entries, 0, |t.entries|, tail);
        assert t.entries[..0] == [] && t.entries[..|t.entries|] == t.entries;
      case Rice(which, m) =>
        RiceTableWritten(k, ms, which, m, t.entries, tail);
    }
  }

  lemma EntriesExact(bits: BitList, k: Kind, ms: seq<Method>, len: nat)
    requires k.Valid() && ValidMethods(ms) && 1 <= len <= Pow2(k.lenBits) && ReadEntries(bits, k, ms, len).Ok?
    ensures var r := ReadEntries(bits, k, ms, len);
            LegalTable(r.value, k, ms) && |r.value.entries| == len && bits == WriteEntries(r.value, k, ms, r.rest)
  {
    if !(!k.signed && len == 1) {
      if bits.bit == 0 {
        var entries, rest := RawExact(bits.tail, k, len, []);
      } else {
            ReadUExact(bits.tail, k.methodBits);
        var r := ReadU(bits.tail, k.methodBits);
        var m, entries, rest := WithMethodExact(r.rest, k, ms[r.value], r.value, len);
      }
    }
  }

  lemma TableExact(bits: BitList, k: Kind, ms: seq<Method>)
    requires k.Valid() && ValidMethods(ms) && ReadTable(bits, k, ms).Ok?
    ensures var r := ReadTable(bits, k, ms); LegalTable(r.value, k, ms) && bits == WriteTable(r.value, k, ms, r.rest)
  {
    var n := k.lenBits;
    ReadUExact(bits, n);
    EntriesExact(ReadU(bits, n).rest, k, ms, ReadU(bits, n).value + 1);
  }

  /** Decoding the code of legal tables gives them back and stops behind them. */
  lemma {:induction false} TablesWritten(ts: seq<Table>, i: nat, k: Kind, ms: seq<Method>, tail: BitList)
    requires k.Valid() && ValidMethods(ms) && LegalTables(ts, k, ms) && i <= |ts|
    ensures ReadTables(WriteTables(ts, i, k, ms, tail), k, ms, |ts| - i, ts[..i]) == Ok(ts, tail)
    decreases |ts| - i
  {
    if i < |ts| {
      TableWritten(ts[i], k, ms, WriteTables(ts, i + 1, k, ms, tail));
      TablesWritten(ts, i + 1, k, ms, tail);
      assert ts[..i] + [ts[i]] == ts[..i + 1];
    } else {
      assert ts[..i] == ts;
    }
  }

  lemma LegalTablesStep(done: seq<Table>, t: Table, k: Kind, ms: seq<Method>)
    requires ValidMethods(ms) && LegalTables(done, k, ms) && LegalTable(t, k, ms)
    ensures LegalTables(done + [t], k, ms)
  {
  }

  lemma TablesExtend(ts: seq<Table>, done: seq<Table>, t: Table)
    requires |ts| > |done| && ts[..|done| + 1] == done + [t]
    ensures ts[|done|] == t && ts[..|done|] == done
  {
    assert ts[|done|] == (ts[..|done| + 1])[|done|];
    assert ts[..|done|] == (ts[..|done| + 1])[..|done|];
  }

  /** Whatever decodes is legal (coefficients in [-256, 255], probabilities in [1, 128]), and is the
      code of the tables it decodes to. */
  lemma {:induction false} TablesExact(bits: BitList, k: Kind, ms: seq<Method>, n: nat, done: seq<Table>)
    returns (ts: seq<Table>, rest: BitList)
    requires k.Valid() && ValidMethods(ms) && LegalTables(done, k, ms) && ReadTables(bits, k, ms, n, done).Ok?
    ensures ReadTables(bits, k, ms, n, done) == Ok(ts, rest)
    ensures |ts| == |done| + n && ts[..|done|] == done && LegalTables(ts, k, ms)
    ensures bits == WriteTables(ts, |done|, k, ms, rest)
    decreases n
  {
    if n == 0 {
      ts, rest := done, bits;
    } else {
      TableExact(bits, k, ms);
      var r := ReadTable(bits, k, ms);
      LegalTablesStep(done, r.value, k, ms);
      ts, rest := TablesExact(r.rest, k, ms, n - 1, done + [r.value]);
      TablesExtend(ts, done, r.value);
    }
  }
}
