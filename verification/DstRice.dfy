/** Rice codes of libs/libdstdec/unpack_dst.c, and the field width function. */
module DstRice {
  import opened Bits

  /** Log2RoundUp: the number of bits that hold every value up to x. */
  function Log2Up(x: nat): nat {
    if x == 0 then 0 else 1 + Log2Up(x / 2)
  }

  lemma {:induction false} Log2UpBound(x: nat)
    ensures x < Pow2(Log2Up(x))
    ensures Log2Up(x) > 0 ==> Pow2(Log2Up(x) - 1) <= x
  {
    if x > 0 { Log2UpBound(x / 2); }
  }

  /** A value up to x fits the width for x. */
  lemma FitsWidth(v: nat, x: nat)
    requires v <= x
    ensures v < Pow2(Log2Up(x))
  {
    Log2UpBound(x);
  }

  function ReadRun(bits: BitList): (r: Parsed<nat>)
  {
    match bits
    case Nil => Err(OutOfData)
    case Cons(bit, tail) =>
      if bit == 1 then Ok(0, tail)
      else
        match ReadRun(tail)
        case Err(e) => Err(e)
        case Ok(run, rest) => Ok(run + 1, rest)
  }

  /** The sign bit behind a number, which 0 does not have. */
  function ReadSign(nr: int, bits: BitList): (r: Parsed<int>)
  {
    if nr == 0 then Ok(0, bits)
    else if bits.Nil? then Err(OutOfData)
    else Ok(if bits.bit == 1 then -nr else nr, bits.tail)
  }

  /** The m low bits and the sign behind a run. */
  function ReadLow(run: nat, bits: BitList, m: nat): (r: Parsed<int>)
  {
    match ReadU(bits, m)
    case Err(_) => Err(OutOfData)
    case Ok(low, rest) => ReadSign(ShiftLeft(run, m) + low, rest)
  }

  /** RiceDecode */
  function ReadRice(bits: BitList, m: nat): (r: Parsed<int>)
  {
    match ReadRun(bits)
    case Err(e) => Err(e)
    case Ok(run, rest) => ReadLow(run, rest, m)
  }

  function WriteRun(n: nat, tail: BitList): BitList {
    if n == 0 then Cons(1, tail) else Cons(0, WriteRun(n - 1, tail))
  }

  function WriteSign(v: int, tail: BitList): BitList {
    if v == 0 then tail else Cons(if v < 0 then 1 else 0, tail)
  }

  function Abs(v: int): nat { if v < 0 then -v else v }

  /** The Rice code of v: the high part in unary, the m low bits, and a sign unless v is 0. */
  function WriteRice(v: int, m: nat, tail: BitList): BitList {
    WriteRun(ShiftRight(Abs(v), m), WriteU(Abs(v), m, WriteSign(v, tail)))
  }

  lemma {:induction false} RunWritten(n: nat, tail: BitList)
    ensures ReadRun(WriteRun(n, tail)) == Ok(n, tail)
  {
    if n > 0 { RunWritten(n - 1, tail); }
  }

  lemma {:induction false} RunExact(bits: BitList)
    requires ReadRun(bits).Ok?
    ensures bits == WriteRun(ReadRun(bits).value, ReadRun(bits).rest)
  {
    if bits.bit == 0 { RunExact(bits.tail); }
  }

  lemma {:induction false} ShiftParts(v: nat, m: nat)
    ensures v == ShiftLeft(ShiftRight(v, m), m) + LowBits(v, m)
  {
    if m > 0 { ShiftParts(v / 2, m - 1); }
  }

  lemma {:induction false} PartsShift(q: nat, low: nat, m: nat)
    requires low < Pow2(m)
    ensures ShiftRight(ShiftLeft(q, m) + low, m) == q
  {
    if m > 0 {
      PartsShift(q, low / 2, m - 1);
      assert (ShiftLeft(q, m) + low) / 2 == ShiftLeft(q, m - 1) + low / 2;
    }
  }

  /** Only the m low bits of a number are written. */
  lemma {:induction false} WriteLowOnly(q: nat, low: nat, m: nat, tail: BitList)
    requires low < Pow2(m)
    ensures WriteU(ShiftLeft(q, m) + low, m, tail) == WriteU(low, m, tail)
  {
    if m > 0 {
      var v := ShiftLeft(q, m) + low;
      assert v / 2 == ShiftLeft(q, m - 1) + low / 2 && v % 2 == low % 2;
      WriteLowOnly(q, low / 2, m - 1, Cons(v % 2, tail));
    }
  }

  lemma SignWritten(v: int, tail: BitList)
    ensures ReadSign(Abs(v), WriteSign(v, tail)) == Ok(v, tail)
  {
  }

  lemma SignExact(nr: nat, bits: BitList)
    requires ReadSign(nr, bits).Ok?
    ensures var r := ReadSign(nr, bits); Abs(r.value) == nr && bits == WriteSign(r.value, r.rest)
  {
  }

  lemma LowWritten(v: int, m: nat, tail: BitList)
    ensures ReadLow(ShiftRight(Abs(v), m), WriteU(Abs(v), m, WriteSign(v, tail)), m) == Ok(v, tail)
  {
    var a, afterLow := Abs(v), WriteSign(v, tail);
    TakeWritten(a, m, 0, afterLow);
    ShiftLeftZero(m);
    ShiftParts(a, m);
    SignWritten(v, tail);
  }

  lemma LowExact(run: nat, bits: BitList, m: nat)
    requires ReadLow(run, bits, m).Ok?
    ensures var r := ReadLow(run, bits, m);
            ShiftRight(Abs(r.value), m) == run && bits == WriteU(Abs(r.value), m, WriteSign(r.value, r.rest))
  {
    ReadUExact(bits, m);
    var low := ReadU(bits, m);
    SignExact(ShiftLeft(run, m) + low.value, low.rest);
    PartsShift(run, low.value, m);
    WriteLowOnly(run, low.value, m, low.rest);
  }

  /** Decoding the code of v gives v and stops right behind it. */
  lemma RiceWritten(v: int, m: nat, tail: BitList)
    ensures ReadRice(WriteRice(v, m, tail), m) == Ok(v, tail)
  {
    RunWritten(ShiftRight(Abs(v), m), WriteU(Abs(v), m, WriteSign(v, tail)));
    LowWritten(v, m, tail);
  }

  /** And only that: whatever decodes to v is the code of v. */
  lemma RiceExact(bits: BitList, m: nat)
    requires ReadRice(bits, m).Ok?
    ensures bits == WriteRice(ReadRice(bits, m).value, m, ReadRice(bits, m).rest)
  {
    RunExact(bits);
    LowExact(ReadRun(bits).value, ReadRun(bits).rest, m);
  }
}
