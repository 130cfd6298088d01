/** The primitives of the Protocol Buffers wire format: varints, little-endian words, tags,
    length-delimited records, and the UTF-8 test that parsers apply to strings. */
module Wire {
  import opened Common

  type byte = b: int | 0 <= b < 256

  type Bytes = seq<byte>

  const TWO_32 := 0x1_0000_0000
  const TWO_64 := 0x1_0000_0000_0000_0000

  /** What a reading primitive returns: a failure, or a value and the bytes that follow it. */
  datatype Read<+T> = Fail | Got(value: T, rest: Bytes)

  // ---------------------------------------------------------------------------------------------
  // Varints
  // ---------------------------------------------------------------------------------------------

  /** Base 128, least significant group first, the high bit marking that another group follows. */
  function EncodeVarint(n: nat): (s: Bytes)
    ensures s != []
  {
    if n < 128 then [n] else [n % 128 + 128] + EncodeVarint(n / 128)
  }

  /** Reads a varint of at most `max` bytes. */
  function DecodeVarint(s: Bytes, max: nat): (r: Read<nat>)
    ensures r.Got? ==> |r.rest| < |s|
    decreases |s|
  {
    if max == 0 || s == [] then Fail
    else if s[0] < 128 then Got(s[0], s[1..])
    else match DecodeVarint(s[1..], max - 1)
         case Fail => Fail
         case Got(high, rest) => Got(s[0] - 128 + 128 * high, rest)
  }

  /** How many bytes the varint of `n` takes: one for each group of seven bits. */
  function VarintSize(n: nat): nat {
    if n < 128 then 1 else 1 + VarintSize(n / 128)
  }

  lemma {:induction false} VarintSizeExact(n: nat)
    ensures |EncodeVarint(n)| == VarintSize(n)
  {
    if 128 <= n { VarintSizeExact(n / 128); }
  }

  lemma {:induction false} VarintRoundTrip(n: nat, max: nat, tail: Bytes)
    requires VarintSize(n) <= max
    ensures DecodeVarint(EncodeVarint(n) + tail, max) == Got(n, tail)
  {
    var s := EncodeVarint(n) + tail;
    if n < 128 {
      assert s[1..] == tail;
    } else {
      VarintRoundTrip(n / 128, max - 1, tail);
      assert s[1..] == EncodeVarint(n / 128) + tail;
    }
  }

  function Pow(base: nat, k: nat): nat {
    if k == 0 then 1 else base * Pow(base, k - 1)
  }

  lemma {:induction false} VarintSizeBound(n: nat, k: nat)
    requires 1 <= k && n < Pow(128, k)
    ensures VarintSize(n) <= k
  {
    if 128 <= n {
      assert k != 1 by { assert Pow(128, 1) == 128 * Pow(128, 0); }
      assert n / 128 < Pow(128, k - 1);
      VarintSizeBound(n / 128, k - 1);
    }
  }

  /** A 32-bit number takes at most five bytes, a 64-bit number at most ten. */
  lemma VarintLimits(n: nat)
    ensures n < TWO_32 ==> VarintSize(n) <= 5
    ensures n < TWO_64 ==> VarintSize(n) <= 10
  {
    PowValues();
    if n < TWO_32 { VarintSizeBound(n, 5); }
    if n < TWO_64 { VarintSizeBound(n, 10); }
  }

  lemma {:induction false} VarintSizeAtLeast(n: nat, k: nat)
    requires Pow(128, k) <= n
    ensures k < VarintSize(n)
  {
    if 1 <= k {
      assert 1 <= Pow(128, k - 1) by { PowPositive(128, k - 1); }
      assert Pow(128, k - 1) <= n / 128;
      VarintSizeAtLeast(n / 128, k - 1);
    }
  }

  lemma {:induction false} PowPositive(base: nat, k: nat)
    requires 1 <= base
    ensures 1 <= Pow(base, k)
  {
    if 1 <= k { PowPositive(base, k - 1); }
  }

  /** The upper half of the 64-bit numbers, where negative ones are, needs all ten bytes. */
  lemma VarintLowerLimit(n: nat)
    requires TWO_64 / 2 <= n
    ensures 10 <= VarintSize(n)
  {
    PowValues();
    VarintSizeAtLeast(n, 9);
  }

  lemma PowValues()
    ensures Pow(128, 9) == TWO_64 / 2
    ensures TWO_32 <= Pow(128, 5) && TWO_64 <= Pow(128, 10)
    ensures Pow(256, 4) == TWO_32 && Pow(256, 8) == TWO_64
  {
    assert Pow(128, 2) == 128 * 128;
    assert Pow(128, 5) == 128 * (128 * (128 * Pow(128, 2)));
    assert Pow(128, 8) == 128 * (128 * (128 * Pow(128, 5)));
    assert Pow(128, 9) == 128 * Pow(128, 8);
    assert Pow(128, 10) == 128 * Pow(128, 9);
    assert Pow(256, 2) == 256 * 256;
    assert Pow(256, 4) == 256 * (256 * Pow(256, 2));
    assert Pow(256, 6) == 256 * (256 * Pow(256, 4));
    assert Pow(256, 8) == 256 * (256 * Pow(256, 6));
  }

  function ReadVarint64(s: Bytes): (r: Read<nat>)
    ensures r.Got? ==> |r.rest| < |s| && r.value < TWO_64
  {
    match DecodeVarint(s, 10) case Fail => Fail case Got(n, rest) => Got(n % TWO_64, rest)
  }

  function ReadVarint32(s: Bytes): (r: Read<nat>)
    ensures r.Got? ==> |r.rest| < |s| && r.value < TWO_32
  {
    match DecodeVarint(s, 10) case Fail => Fail case Got(n, rest) => Got(n % TWO_32, rest)
  }

  function ReadTag(s: Bytes): (r: Read<nat>)
    ensures r.Got? ==> |r.rest| < |s| && r.value < TWO_32
  {
    match DecodeVarint(s, 5) case Fail => Fail case Got(n, rest) => Got(n % TWO_32, rest)
  }

  lemma SmallUnderModulus(n: nat)
    ensures n < TWO_32 ==> n % TWO_32 == n
    ensures n < TWO_64 ==> n % TWO_64 == n
  {
  }

  lemma ReadBackVarint(n: nat, tail: Bytes)
    requires n < TWO_64
    ensures ReadVarint64(EncodeVarint(n) + tail) == Got(n, tail)
    ensures ReadVarint32(EncodeVarint(n) + tail) == Got(n % TWO_32, tail)
  {
    assert VarintSize(n) <= 10 by { VarintLimits(n); }
    assert DecodeVarint(EncodeVarint(n) + tail, 10) == Got(n, tail) by { VarintRoundTrip(n, 10, tail); }
    SmallUnderModulus(n);
  }

  lemma ReadBackTag(n: nat, tail: Bytes)
    requires n < TWO_32
    ensures ReadTag(EncodeVarint(n) + tail) == Got(n, tail)
  {
    assert VarintSize(n) <= 5 by { VarintLimits(n); }
    assert DecodeVarint(EncodeVarint(n) + tail, 5) == Got(n, tail) by { VarintRoundTrip(n, 5, tail); }
    SmallUnderModulus(n);
  }

  // ---------------------------------------------------------------------------------------------
  // Signed integers
  // ---------------------------------------------------------------------------------------------

  /** Signed integers travel as 64-bit two's complement, also those of 32 bits. */
  function ToUnsigned(n: int): int {
    if n < 0 then n + TWO_64 else n
  }

  function ToSigned64(n: int): int {
    if n < TWO_64 / 2 then n else n - TWO_64
  }

  function ToSigned32(n: int): int {
    if n % TWO_32 < TWO_32 / 2 then n % TWO_32 else n % TWO_32 - TWO_32
  }

  lemma SignedRoundTrip(n: int)
    requires -TWO_64 / 2 <= n < TWO_64 / 2
    ensures 0 <= ToUnsigned(n) < TWO_64 && ToSigned64(ToUnsigned(n)) == n
    ensures -TWO_32 / 2 <= n < TWO_32 / 2 ==> ToSigned32(ToUnsigned(n) % TWO_32) == n == ToSigned32(ToUnsigned(n))
  {
  }

  // ---------------------------------------------------------------------------------------------
  // Fixed-width words and length-delimited records
  // ---------------------------------------------------------------------------------------------

  /** `k` bytes, least significant first. */
  function EncodeFixed(n: nat, k: nat): (s: Bytes)
    ensures |s| == k
  {
    if k == 0 then [] else [n % 256] + EncodeFixed(n / 256, k - 1)
  }

  function DecodeFixed(s: Bytes, k: nat): (r: Read<nat>)
    ensures r.Got? ==> |s| == |r.rest| + k && r.value < Pow(256, k)
  {
    if k == 0 then Got(0, s)
    else if s == [] then Fail
    else match DecodeFixed(s[1..], k - 1)
         case Fail => Fail
         case Got(high, rest) => Got(s[0] + 256 * high, rest)
  }

  lemma {:induction false} FixedRoundTrip(n: nat, k: nat, tail: Bytes)
    requires n < Pow(256, k)
    ensures DecodeFixed(EncodeFixed(n, k) + tail, k) == Got(n, tail)
  {
    var s := EncodeFixed(n, k) + tail;
    if k == 0 {
      assert s == tail;
    } else {
      assert n / 256 < Pow(256, k - 1);
      FixedRoundTrip(n / 256, k - 1, tail);
      assert s[1..] == EncodeFixed(n / 256, k - 1) + tail;
    }
  }

  function EncodeRecord(body: Bytes): Bytes {
    EncodeVarint(|body|) + body
  }

  /** A length of at most five bytes and below 2 GiB, then that many bytes. */
  function ReadRecord(s: Bytes): (r: Read<Bytes>)
    ensures r.Got? ==> |r.rest| < |s| && |r.value| <= INT_MAX
  {
    match DecodeVarint(s, 5)
    case Fail => Fail
    case Got(n, rest) => if n <= INT_MAX && n <= |rest| then Got(rest[..n], rest[n..]) else Fail
  }

  lemma RecordRoundTrip(body: Bytes, tail: Bytes)
    requires |body| <= INT_MAX
    ensures ReadRecord(EncodeRecord(body) + tail) == Got(body, tail)
  {
    VarintLimits(|body|);
    VarintRoundTrip(|body|, 5, body + tail);
    assert EncodeRecord(body) + tail == EncodeVarint(|body|) + (body + tail);
  }

  // ---------------------------------------------------------------------------------------------
  // UTF-8, section 4 of RFC 3629
  // ---------------------------------------------------------------------------------------------

  predicate Tail(b: byte) {
    0x80 <= b <= 0xBF
  }

  predicate ThreeByteStart(a: byte, b: byte) {
    || (a == 0xE0 && 0xA0 <= b <= 0xBF)
    || (0xE1 <= a <= 0xEC && Tail(b))
    || (a == 0xED && 0x80 <= b <= 0x9F)
    || (0xEE <= a <= 0xEF && Tail(b))
  }

  predicate FourByteStart(a: byte, b: byte) {
    || (a == 0xF0 && 0x90 <= b <= 0xBF)
    || (0xF1 <= a <= 0xF3 && Tail(b))
    || (a == 0xF4 && 0x80 <= b <= 0x8F)
  }

  predicate ValidUtf8(s: Bytes) {
    if s == [] then true
    else if s[0] < 0x80 then ValidUtf8(s[1..])
    else if 0xC2 <= s[0] <= 0xDF then |s| >= 2 && Tail(s[1]) && ValidUtf8(s[2..])
    else if |s| >= 3 && ThreeByteStart(s[0], s[1]) then Tail(s[2]) && ValidUtf8(s[3..])
    else |s| >= 4 && FourByteStart(s[0], s[1]) && Tail(s[2]) && Tail(s[3]) && ValidUtf8(s[4..])
  }
}
