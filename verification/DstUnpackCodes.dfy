/** RiceDecode and Log2RoundUp of libs/libdstdec/unpack_dst.c as the loops they are, against the
    functions of DstRice. */
module DstUnpackCodes {
  import opened Bits
  import opened DstData
  import opened DstRice

  /** No reader has run past the end of the frame yet. */
  ghost predicate InFrame(sd: StrData)
    reads sd
  {
    sd.Valid() && sd.byteCounter <= |sd.data|
  }

  /** One bit, through FIO_BitGetIntUnsigned. */
  method ReadFlag(sd: StrData) returns (ok: bool, bit: Bit)
    requires InFrame(sd)
    modifies sd
    ensures sd.data == old(sd.data) && sd.Valid()
    ensures match old(sd.Rest())
            case Nil => !ok
            case Cons(b, rest) => ok && bit == b && sd.Rest() == rest && InFrame(sd)
  {
    var x;
    ok, x := sd.GetUnsigned(1);
    bit := if ok then x else 0;
  }

  /** A number of fewer than 32 bits, through FIO_BitGetIntUnsigned. */
  method ReadNumber(sd: StrData, len: nat) returns (ok: bool, x: nat)
    requires InFrame(sd) && len < 32
    modifies sd
    ensures sd.data == old(sd.data) && sd.Valid()
    ensures match ReadU(old(sd.Rest()), len)
            case Err(e) => !ok && e == NegativeBitAllocation
            case Ok(v, rest) => ok && x == v && sd.Rest() == rest && InFrame(sd)
  {
    var v;
    ok, v := sd.GetUnsigned(len);
    x := if ok then v else 0;
  }

  /** `run` zeros in front of what `r` found. */
  function LongerRun(run: nat, r: Parsed<nat>): Parsed<nat> {
    match r
    case Err(e) => Err(e)
    case Ok(n, rest) => Ok(run + n, rest)
  }

  method ReadRunLength(sd: StrData) returns (ok: bool, runLength: nat)
    requires InFrame(sd)
    modifies sd
    ensures sd.data == old(sd.data) && sd.Valid()
    ensures ok <==> ReadRun(old(sd.Rest())).Ok?
    ensures ok ==> InFrame(sd) && ReadRun(old(sd.Rest())) == Ok(runLength, sd.Rest())
  {
    runLength := 0;
    var rlBit: Bit := 0;
    while rlBit == 0
      invariant InFrame(sd) && sd.data == old(sd.data)
      invariant ReadRun(old(sd.Rest())) == LongerRun(runLength, if rlBit == 0 then ReadRun(sd.Rest()) else Ok(0, sd.Rest()))
      decreases sd.Rest()
    {
      ok, rlBit := ReadFlag(sd);
      if !ok { return; }
      runLength := runLength + (1 - rlBit);
    }
    ok := true;
  }

  /** RiceDecode, for a stream that ends the run with a 1 bit; failures, which the source does not
      test, are reported. */
  method RiceDecode(sd: StrData, m: nat) returns (ok: bool, nr: int)
    requires InFrame(sd) && m < 32
    modifies sd
    ensures sd.data == old(sd.data) && sd.Valid()
    ensures ok <==> ReadRice(old(sd.Rest()), m).Ok?
    ensures ok ==> InFrame(sd) && ReadRice(old(sd.Rest()), m) == Ok(nr, sd.Rest())
    ensures !ok ==> ReadRice(old(sd.Rest()), m) == Err(OutOfData)
  {
    nr := 0;
    RunFails(sd.Rest());
    var runLength;
    ok, runLength := ReadRunLength(sd);
    if !ok { return; }
    var lsbs;
    ok, lsbs := ReadNumber(sd, m);
    if !ok { return; }
    nr := ShiftLeft(runLength, m) + lsbs;
    if nr != 0 {
      var sign;
      ok, sign := ReadFlag(sd);
      if !ok { return; }
      if sign == 1 { nr := -nr; }
    }
  }

  lemma {:induction false} RunFails(bits: BitList)
    ensures ReadRun(bits).Err? ==> ReadRun(bits) == Err(OutOfData)
  {
    if bits.Cons? { RunFails(bits.tail); }
  }

  lemma Log2UpUnique(x: nat, y: nat)
    requires x < Pow2(y) && (y > 0 ==> Pow2(y - 1) <= x)
    ensures y == Log2Up(x)
  {
    Log2UpBound(x);
    if y < Log2Up(x) { Pow2Monotone(y, Log2Up(x) - 1); }
    if Log2Up(x) < y { Pow2Monotone(Log2Up(x), y - 1); }
  }

  lemma {:induction false} Pow2Exceeds(y: nat)
    ensures Pow2(y) > y
  {
    if y > 0 { Pow2Exceeds(y - 1); }
  }

  /** Log2RoundUp; `power` is 1 << y. */
  method Log2RoundUp(x: int) returns (y: nat)
    ensures y == Log2Up(if x < 0 then 0 else x)
  {
    y := 0;
    var power := 1;
    while x >= power
      invariant power == Pow2(y) && (y > 0 ==> Pow2(y - 1) <= x)
      decreases x - power
    {
      y, power := y + 1, 2 * power;
    }
    Log2UpUnique(if x < 0 then 0 else x, y);
  }
}
