/** Bits and numbers, most significant bit first.  A bit string is a list: readers take it apart
    from the front, and writers put their bits in front of what follows.  Shifts and masks are by
    repeated halving and doubling, which is what they mean. */
module Bits {

  type Bit = b: int | 0 <= b < 2
  type Byte = b: int | 0 <= b < 256

  datatype BitList = Nil | Cons(bit: Bit, tail: BitList)

  datatype DstError =
    | NegativeBitAllocation | TooManySegments | InvalidSegmentResolution | InvalidSegmentLength
    | TooManyTables | InvalidTableNumber | InvalidChannelMapping | SegmentNumberMismatch
    | InvalidCoefficientCoding | InvalidCoefficientRange | InvalidPtableCoding | InvalidPtableRange
    | InvalidStuffingPattern | InvalidArithmeticCode
    | OutOfData          // a Rice code runs past the end of the frame, which the source does not test
    | RowOverrun         // the source writes behind the end of a row of its arrays, to no defined effect
    | UnknownMethod      // Rice method 3, which has no table in the source

  /** What a reader makes of the bits in front of it, and the bits behind. */
  datatype Parsed<+T> = Ok(value: T, rest: BitList) | Err(error: DstError)

  function Pow2(n: nat): (p: nat)
    ensures p >= 1
  {
    if n == 0 then 1 else 2 * Pow2(n - 1)
  }

  function ShiftLeft(v: nat, n: nat): nat {
    if n == 0 then v else 2 * ShiftLeft(v, n - 1)
  }

  /** Arithmetic shift: rounds down. */
  function ShiftRight(v: int, n: nat): (r: int)
    ensures v >= 0 ==> r >= 0
    decreases n
  {
    if n == 0 then v else ShiftRight(v / 2, n - 1)
  }

  /** v masked to its n low bits. */
  function LowBits(v: int, n: nat): nat
    decreases n
  {
    if n == 0 then 0 else 2 * LowBits(v / 2, n - 1) + v % 2
  }

  // ----- numbers in the stream -----

  /** Takes n bits onto the end of a number. */
  function Take(bits: BitList, n: nat, acc: nat): Parsed<nat>
    decreases n
  {
    if n == 0 then Ok(acc, bits)
    else if bits.Nil? then Err(NegativeBitAllocation)
    else Take(bits.tail, n - 1, 2 * acc + bits.bit)
  }

  lemma {:induction false} TakeFails(bits: BitList, n: nat, acc: nat)
    ensures Take(bits, n, acc).Err? ==> Take(bits, n, acc) == Err(NegativeBitAllocation)
    decreases n
  {
    if n > 0 && bits.Cons? { TakeFails(bits.tail, n - 1, 2 * acc + bits.bit); }
  }

  function ReadU(bits: BitList, n: nat): Parsed<nat> {
    Take(bits, n, 0)
  }

  /** The n low bits of v in front of `tail`. */
  function WriteU(v: int, n: nat, tail: BitList): BitList
    decreases n
  {
    if n == 0 then tail else WriteU(v / 2, n - 1, Cons(v % 2, tail))
  }

  /** A number in two's complement. */
  function Signed(v: nat, n: nat): int
    requires n >= 1
  {
    if v >= Pow2(n - 1) then v - Pow2(n) else v
  }

  function ReadS(bits: BitList, n: nat): Parsed<int>
    requires n >= 1
  {
    var r := ReadU(bits, n);
    if r.Ok? then Ok(Signed(r.value, n), r.rest) else Err(r.error)
  }

  function WriteS(v: int, n: nat, tail: BitList): BitList {
    WriteU(if v < 0 then v + Pow2(n) else v, n, tail)
  }

  /** n bits one by one, behind `done`. */
  function ReadEach(bits: BitList, n: nat, done: seq<Bit>): Parsed<seq<Bit>>
    decreases n
  {
    if n == 0 then Ok(done, bits)
    else
      match bits
      case Nil => Err(NegativeBitAllocation)
      case Cons(b, rest) => ReadEach(rest, n - 1, done + [b])
  }

  /** The bits from i on. */
  function WriteEach(each: seq<Bit>, i: nat, tail: BitList): BitList
    requires i <= |each|
    decreases |each| - i
  {
    if i == |each| then tail else Cons(each[i], WriteEach(each, i + 1, tail))
  }

  function Length(bits: BitList): nat {
    match bits
    case Nil => 0
    case Cons(_, tail) => Length(tail) + 1
  }

  lemma {:induction false} Pow2Monotone(a: nat, b: nat)
    requires a <= b
    ensures Pow2(a) <= Pow2(b)
  {
    if a < b { Pow2Monotone(a, b - 1); }
  }

  lemma Pow2Values()
    ensures Pow2(7) == 0x80 && Pow2(8) == 0x100 && Pow2(15) == 0x8000 && Pow2(16) == 0x1_0000
    ensures Pow2(31) == 0x8000_0000 && Pow2(32) == 0x1_0000_0000
  {
    assert Pow2(7) == 0x80;
    assert Pow2(15) == 0x8000;
    assert Pow2(23) == 0x80_0000;
    assert Pow2(31) == 0x8000_0000;
  }

  lemma {:induction false} LowBitsSmall(v: nat, n: nat)
    requires v < Pow2(n)
    ensures LowBits(v, n) == v
  {
    if n > 0 { LowBitsSmall(v / 2, n - 1); }
  }

  /** Taking a and then b bits is taking a + b. */
  lemma {:induction false} TakeSplit(bits: BitList, a: nat, b: nat, acc: nat)
    requires Take(bits, a, acc).Ok?
    ensures Take(bits, a + b, acc) == Take(Take(bits, a, acc).rest, b, Take(bits, a, acc).value)
    decreases a
  {
    if a > 0 { TakeSplit(bits.tail, a - 1, b, 2 * acc + bits.bit); }
  }

  lemma {:induction false} TakeWritten(v: int, n: nat, acc: nat, tail: BitList)
    ensures Take(WriteU(v, n, tail), n, acc) == Ok(ShiftLeft(acc, n) + LowBits(v, n), tail)
    decreases n
  {
    if n > 0 {
      TakeWritten(v / 2, n - 1, acc, Cons(v % 2, tail));
      TakeSplit(WriteU(v, n, tail), n - 1, 1, acc);
    }
  }

  lemma {:induction false} ShiftLeftAdd(v: nat, w: nat, n: nat)
    ensures ShiftLeft(v + w, n) == ShiftLeft(v, n) + ShiftLeft(w, n)
  {
    if n > 0 { ShiftLeftAdd(v, w, n - 1); }
  }

  lemma {:induction false} ShiftLeftTwice(v: nat, a: nat, b: nat)
    ensures ShiftLeft(ShiftLeft(v, a), b) == ShiftLeft(v, a + b)
  {
    if b > 0 { ShiftLeftTwice(v, a, b - 1); }
  }

  lemma {:induction false} ShiftLeftZero(n: nat)
    ensures ShiftLeft(0, n) == 0
  {
    if n > 0 { ShiftLeftZero(n - 1); }
  }

  /** Reading what was written gives the number back and stops behind it. */
  lemma ReadUWritten(v: nat, n: nat, tail: BitList)
    requires v < Pow2(n)
    ensures ReadU(WriteU(v, n, tail), n) == Ok(v, tail)
  {
    TakeWritten(v, n, 0, tail);
    ShiftLeftZero(n);
    LowBitsSmall(v, n);
  }

  lemma {:induction false} TakePrefix(bits: BitList, m: nat, n: nat, acc: nat)
    requires m <= n && Take(bits, n, acc).Ok?
    ensures Take(bits, m, acc).Ok?
    decreases m
  {
    if m > 0 { TakePrefix(bits.tail, m - 1, n - 1, 2 * acc + bits.bit); }
  }

  lemma {:induction false} LowBitsBound(v: int, n: nat)
    ensures LowBits(v, n) < Pow2(n)
    decreases n
  {
    if n > 0 { LowBitsBound(v / 2, n - 1); }
  }

  lemma LastBit(v: nat, b: Bit)
    ensures (2 * v + b) / 2 == v && (2 * v + b) % 2 == b
  {
  }

  lemma {:induction false} TakeExact(bits: BitList, n: nat, acc: nat)
    requires Take(bits, n, acc).Ok?
    ensures var r := Take(bits, n, acc);
            && bits == WriteU(r.value, n, r.rest)
            && ShiftRight(r.value, n) == acc && r.value < ShiftLeft(acc + 1, n)
    decreases n
  {
    if n > 0 {
      TakePrefix(bits, n - 1, n, acc);
      TakeSplit(bits, n - 1, 1, acc);
      TakeExact(bits, n - 1, acc);
      var r := Take(bits, n - 1, acc);
      var last := r.rest.bit;
      LastBit(r.value, last);
      assert Take(bits, n, acc) == Ok(2 * r.value + last, r.rest.tail);
      assert r.rest == Cons(last, r.rest.tail);
    }
  }

  lemma {:induction false} ShiftLeftOne(n: nat)
    ensures ShiftLeft(1, n) == Pow2(n)
  {
    if n > 0 { ShiftLeftOne(n - 1); }
  }

  /** And only that: what reads as v is v written. */
  lemma ReadUExact(bits: BitList, n: nat)
    requires ReadU(bits, n).Ok?
    ensures var r := ReadU(bits, n); r.value < Pow2(n) && bits == WriteU(r.value, n, r.rest)
  {
    TakeExact(bits, n, 0);
    ShiftLeftOne(n);
  }

  lemma ReadUBound(bits: BitList, n: nat)
    ensures ReadU(bits, n).Ok? ==> ReadU(bits, n).value < Pow2(n)
  {
    if ReadU(bits, n).Ok? { ReadUExact(bits, n); }
  }

  /** Signed reads invert two's complement. */
  lemma ReadSWritten(v: int, n: nat, tail: BitList)
    requires n >= 1 && -(Pow2(n - 1) as int) <= v < Pow2(n - 1)
    ensures ReadS(WriteS(v, n, tail), n) == Ok(v, tail)
  {
    ReadUWritten(if v < 0 then v + Pow2(n) else v, n, tail);
  }

  lemma ReadSExact(bits: BitList, n: nat)
    requires n >= 1 && ReadS(bits, n).Ok?
    ensures var r := ReadS(bits, n); -(Pow2(n - 1) as int) <= r.value < Pow2(n - 1) && bits == WriteS(r.value, n, r.rest)
  {
    ReadUExact(bits, n);
  }

  lemma {:induction false} EachWritten(each: seq<Bit>, i: nat, tail: BitList)
    requires i <= |each|
    ensures ReadEach(WriteEach(each, i, tail), |each| - i, each[..i]) == Ok(each, tail)
    decreases |each| - i
  {
    if i < |each| {
      EachWritten(each, i + 1, tail);
      assert each[..i] + [each[i]] == each[..i + 1];
    } else {
      assert each[..i] == each;
    }
  }

  lemma {:induction false} EachExact(bits: BitList, n: nat, done: seq<Bit>)
    requires ReadEach(bits, n, done).Ok?
    ensures var r := ReadEach(bits, n, done);
            |r.value| == |done| + n && r.value[..|done|] == done && bits == WriteEach(r.value, |done|, r.rest)
    decreases n
  {
    if n > 0 {
      EachExact(bits.tail, n - 1, done + [bits.bit]);
      var each := ReadEach(bits, n, done).value;
      assert each[|done|] == (each[..|done| + 1])[|done|];
      assert each[..|done|] == (each[..|done| + 1])[..|done|];
    }
  }

  /** Reading a and then b bits one by one is reading a + b. */
  lemma {:induction false} EachSplit(bits: BitList, a: nat, b: nat, done: seq<Bit>)
    requires ReadEach(bits, a, done).Ok?
    ensures ReadEach(bits, a + b, done) == ReadEach(ReadEach(bits, a, done).rest, b, ReadEach(bits, a, done).value)
    decreases a
  {
    if a > 0 { EachSplit(bits.tail, a - 1, b, done + [bits.bit]); }
  }

  /** There are enough bits exactly when there are enough bits. */
  lemma {:induction false} EachEnough(bits: BitList, n: nat, done: seq<Bit>)
    ensures ReadEach(bits, n, done).Ok? <==> n <= Length(bits)
    ensures n <= Length(bits) ==> Length(ReadEach(bits, n, done).rest) == Length(bits) - n
    decreases n
  {
    if n > 0 && bits.Cons? { EachEnough(bits.tail, n - 1, done + [bits.bit]); }
  }
}
