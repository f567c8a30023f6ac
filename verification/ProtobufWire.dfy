/** Numbers and strings on the wire of libs/libcommon/pb_encode.c and pb_decode.c.  A reader takes
    bytes off the front of a list; a writer's bytes are a sequence, put in front of what follows. */
module ProtobufWire {
  import opened Bits

  datatype ByteList = End | More(head: Byte, tail: ByteList)

  /** What a reader returns, and the bytes left on the stream. */
  datatype Reading<+T> = Read(value: T, rest: ByteList) | Failed(rest: ByteList)

  function Count(bytes: ByteList): nat {
    match bytes
    case End => 0
    case More(_, tail) => Count(tail) + 1
  }

  function Put(data: seq<Byte>, tail: ByteList): ByteList {
    if data == [] then tail else More(data[0], Put(data[1..], tail))
  }

  lemma {:induction false} PutBoth(a: seq<Byte>, b: seq<Byte>, tail: ByteList)
    ensures Put(a + b, tail) == Put(a, Put(b, tail))
  {
    if a == [] {
      assert a + b == b;
    } else {
      PutBoth(a[1..], b, tail);
      assert (a + b)[1..] == a[1..] + b;
    }
  }

  /** pb_read: all n bytes or none. */
  function ReadBytes(bytes: ByteList, n: nat): (r: Reading<seq<Byte>>)
    ensures r.Read? ==> |r.value| == n && Count(r.rest) == Count(bytes) - n
    decreases n
  {
    if n == 0 then Read([], bytes)
    else if bytes.End? then Failed(bytes)
    else
      match ReadBytes(bytes.tail, n - 1)
      case Failed(_) => Failed(bytes)
      case Read(data, rest) => Read([bytes.head] + data, rest)
  }

  lemma {:induction false} ReadBytesPut(data: seq<Byte>, tail: ByteList)
    ensures ReadBytes(Put(data, tail), |data|) == Read(data, tail)
  {
    if data != [] {
      ReadBytesPut(data[1..], tail);
      assert data == [data[0]] + data[1..];
    }
  }

  lemma {:induction false} ReadBytesEnough(bytes: ByteList, n: nat)
    ensures ReadBytes(bytes, n).Read? <==> n <= Count(bytes)
    ensures ReadBytes(bytes, n).Failed? ==> ReadBytes(bytes, n).rest == bytes
    decreases n
  {
    if n > 0 {
      match bytes
      case End =>
      case More(_, tail) => ReadBytesEnough(tail, n - 1);
    }
  }

  // ----- varints -----

  const TWO32: nat := 0x1_0000_0000
  const TWO64: nat := 0x1_0000_0000_0000_0000

  /** Seven bits a byte, lowest first, with the top bit on all bytes but the last. */
  function Varint(v: nat): (s: seq<Byte>)
    ensures |s| >= 1
    decreases v
  {
    if v < 128 then [v] else [v % 128 + 128] + Varint(v / 128)
  }

  /** At most k bytes of seven bits. */
  function Groups(bytes: ByteList, k: nat): (r: Reading<nat>)
    ensures r.Read? ==> Count(r.rest) < Count(bytes)
    decreases bytes
  {
    if k == 0 || bytes.End? then Failed(bytes)
    else if bytes.head < 128 then Read(bytes.head, bytes.tail)
    else
      match Groups(bytes.tail, k - 1)
      case Failed(rest) => Failed(rest)
      case Read(v, rest) => Read(bytes.head - 128 + 128 * v, rest)
  }

  /** pb_decode_varint: ten bytes reach beyond the 64 bits, which drops what is above them. */
  function GetVarint(bytes: ByteList): (r: Reading<nat>)
    ensures r.Read? ==> Count(r.rest) < Count(bytes) && r.value < TWO64
  {
    match Groups(bytes, 10)
    case Failed(rest) => Failed(rest)
    case Read(v, rest) => Read(v % TWO64, rest)
  }

  /** pb_decode_varint32 */
  function GetVarint32(bytes: ByteList): (r: Reading<nat>)
    ensures r.Read? ==> Count(r.rest) < Count(bytes) && r.value < TWO32
  {
    match GetVarint(bytes)
    case Failed(rest) => Failed(rest)
    case Read(v, rest) => Read(v % TWO32, rest)
  }

  lemma {:induction false} GroupsPut(v: nat, k: nat, tail: ByteList)
    requires |Varint(v)| <= k
    ensures Groups(Put(Varint(v), tail), k) == Read(v, tail)
    decreases v
  {
    if v >= 128 {
      assert Varint(v)[1..] == Varint(v / 128);
      GroupsPut(v / 128, k - 1, tail);
    } else {
      assert Varint(v)[1..] == [];
    }
  }

  /** What k bytes of seven bits can hold. */
  function Range(k: nat): nat {
    if k == 0 then 1 else 128 * Range(k - 1)
  }

  lemma {:induction false} VarintLength(v: nat, k: nat)
    requires v < Range(k) && k >= 1
    ensures |Varint(v)| <= k
    decreases k
  {
    if v >= 128 { VarintLength(v / 128, k - 1); }
  }

  /** The width of a word, without its number. */
  lemma WordWidth() returns (w: nat)
    ensures w >= 64 && Pow2(w) == TWO64
  {
    w := WordIs64();
  }

  lemma WordIs64() returns (w: nat)
    ensures w == 64 && Pow2(w) == TWO64
  {
    w := 64;
    Pow2Values();
    assert Pow2(40) == 0x100_0000_0000;
    assert Pow2(48) == 0x1_0000_0000_0000;
    assert Pow2(56) == 0x100_0000_0000_0000;
    assert Pow2(63) == 0x8000_0000_0000_0000;
  }

  lemma Varint64Length(v: nat)
    requires v < TWO64
    ensures |Varint(v)| <= 10
  {
    assert Range(5) == 0x8_0000_0000;
    assert Range(10) == 0x40_0000_0000_0000_0000;
    VarintLength(v, 10);
  }

  lemma CutToWord(bytes: ByteList, v: nat, rest: ByteList)
    requires Groups(bytes, 10) == Read(v, rest) && v < TWO64
    ensures GetVarint(bytes) == Read(v, rest)
    ensures v < TWO32 ==> GetVarint32(bytes) == Read(v, rest)
  {
  }

  /** A 64-bit number is read back, and the stream stands behind it. */
  lemma VarintRoundTrip(v: nat, tail: ByteList)
    requires v < TWO64
    ensures GetVarint(Put(Varint(v), tail)) == Read(v, tail)
    ensures v < TWO32 ==> GetVarint32(Put(Varint(v), tail)) == Read(v, tail)
  {
    Varint64Length(v);
    GroupsPut(v, 10, tail);
    CutToWord(Put(Varint(v), tail), v, tail);
  }

  /** pb_skip_varint: a varint of any length. */
  function SkipVarint(bytes: ByteList): (r: Reading<()>)
    ensures r.Read? ==> Count(r.rest) < Count(bytes)
  {
    match bytes
    case End => Failed(End)
    case More(b, tail) => if b < 128 then Read((), tail) else SkipVarint(tail)
  }

  /** Bytes with the top bit on all but the last. */
  predicate VarintShaped(data: seq<Byte>) {
    |data| >= 1 && data[|data| - 1] < 128 && forall i :: 0 <= i < |data| - 1 ==> data[i] >= 128
  }

  lemma {:induction false} SkipVarintPut(data: seq<Byte>, tail: ByteList)
    requires VarintShaped(data)
    ensures SkipVarint(Put(data, tail)) == Read((), tail)
  {
    if data[0] >= 128 {
      SkipVarintPut(data[1..], tail);
    } else {
      assert data[1..] == [];
    }
  }

  // ----- zig-zag -----

  /** pb_enc_svarint: a number of n bits in two's complement, its sign bit last. */
  function ZigZag(v: nat, n: nat): nat
    requires 1 <= n && v < Pow2(n)
  {
    if v >= Pow2(n - 1) then 2 * (Pow2(n) - 1 - v) + 1 else 2 * v
  }

  /** pb_dec_svarint before it is cut to size: exclusive or with 64 ones is what remains to all ones. */
  function UnZigZag(z: nat): nat
    requires z < TWO64
  {
    if z % 2 == 1 then TWO64 - 1 - z / 2 else z / 2
  }

  lemma {:induction false} LowBitsFlipped(x: nat, n: nat, k: nat)
    requires x < Pow2(n) && k <= n
    ensures LowBits(Pow2(n) - 1 - x, k) == Pow2(k) - 1 - LowBits(x, k)
    decreases k
  {
    if k > 0 {
      LowBitsFlipped(x / 2, n - 1, k - 1);
      assert Pow2(n) == 2 * Pow2(n - 1);
      assert (Pow2(n) - 1 - x) / 2 == Pow2(n - 1) - 1 - x / 2;
      assert (Pow2(n) - 1 - x) % 2 == 1 - x % 2;
    }
  }

  /** Undoing the zig-zag on 64 bits and cutting to n gives the number back, negative or not. */
  lemma ZigZagRoundTrip(v: nat, n: nat)
    requires 1 <= n <= 64 && v < Pow2(n)
    ensures ZigZag(v, n) < TWO64 && LowBits(UnZigZag(ZigZag(v, n)), n) == v
  {
    var w := WordWidth();
    Pow2Monotone(n, w);
    Unzigged(v, n);
    CutBack(v, n, UnZigZag(ZigZag(v, n)));
  }

  lemma CutBack(v: nat, n: nat, u: nat)
    requires 1 <= n <= 64 && v < Pow2(n) <= TWO64
    requires u == if v >= Pow2(n - 1) then TWO64 - 1 - (Pow2(n) - 1 - v) else v
    ensures LowBits(u, n) == v
  {
    if v >= Pow2(n - 1) {
      FlippedBack(v, n);
    } else {
      LowBitsSmall(v, n);
    }
  }

  lemma Unzigged(v: nat, n: nat)
    requires 1 <= n && v < Pow2(n) <= TWO64
    ensures ZigZag(v, n) < TWO64
    ensures UnZigZag(ZigZag(v, n)) == if v >= Pow2(n - 1) then TWO64 - 1 - (Pow2(n) - 1 - v) else v
  {
    if v >= Pow2(n - 1) {
      Halved(Pow2(n) - 1 - v, 1);
    } else {
      Halved(v, 0);
    }
  }

  lemma FlippedBack(v: nat, n: nat)
    requires n <= 64 && v < Pow2(n)
    ensures Pow2(n) <= TWO64 && LowBits(TWO64 - 1 - (Pow2(n) - 1 - v), n) == v
  {
    var x := Pow2(n) - 1 - v;
    var w := WordWidth();
    Pow2Monotone(n, w);
    Flipped(x, n);
    LowBitsSmall(x, n);
  }

  lemma Halved(x: nat, sign: nat)
    requires sign < 2
    ensures (2 * x + sign) / 2 == x && (2 * x + sign) % 2 == sign
  {
  }

  lemma Flipped(x: nat, n: nat)
    requires n <= 64 && x < Pow2(n)
    ensures x < TWO64 && LowBits(TWO64 - 1 - x, n) == Pow2(n) - 1 - LowBits(x, n)
  {
    var w := WordWidth();
    Pow2Monotone(n, w);
    LowBitsFlipped(x, w, n);
  }

  /** Its meaning: small magnitudes of either sign become small numbers. */
  lemma ZigZagMeans(v: nat, n: nat)
    requires 1 <= n && v < Pow2(n)
    ensures var s := Signed(v, n); ZigZag(v, n) == if s < 0 then -2 * s - 1 else 2 * s
  {
  }

  // ----- fixed width -----

  /** n bytes, lowest first. */
  function Fixed(v: nat, n: nat): (s: seq<Byte>)
    ensures |s| == n
    decreases n
  {
    if n == 0 then [] else [v % 256] + Fixed(v / 256, n - 1)
  }

  function GetFixed(data: seq<Byte>): nat {
    if data == [] then 0 else data[0] + 256 * GetFixed(data[1..])
  }

  lemma {:induction false} FixedRoundTrip(v: nat, n: nat)
    requires v < Pow2(8 * n)
    ensures GetFixed(Fixed(v, n)) == v
    decreases n
  {
    if n > 0 {
      EightMore(n - 1);
      FixedRoundTrip(v / 256, n - 1);
      assert Fixed(v, n)[1..] == Fixed(v / 256, n - 1);
    }
  }

  lemma {:induction false} GetFixedBound(data: seq<Byte>)
    ensures GetFixed(data) < Pow2(8 * |data|)
  {
    if data != [] {
      EightMore(|data| - 1);
      GetFixedBound(data[1..]);
    }
  }

  lemma EightMore(k: nat)
    ensures Pow2(8 * (k + 1)) == 256 * Pow2(8 * k)
  {
    var n := 8 * k;
    assert Pow2(n + 2) == 4 * Pow2(n);
    assert Pow2(n + 4) == 16 * Pow2(n);
    assert Pow2(n + 6) == 64 * Pow2(n);
  }
}
