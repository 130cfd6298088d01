/** The bytes themselves: what numbers the primitives of `Wire` write and read, digit by digit, and which
    byte strings are UTF-8. */
module WireFormat {
  import opened Common
  import opened Wire

  // ---------------------------------------------------------------------------------------------
  // Numbers as digits
  // ---------------------------------------------------------------------------------------------

  /** The number that some digits spell, least significant first, each reduced modulo the base. */
  function Spell(s: Bytes, base: nat): nat
    requires base != 0
  {
    if s == [] then 0 else Spell(s[..|s| - 1], base) + s[|s| - 1] % base * Pow(base, |s| - 1)
  }

  lemma {:induction false} SpellFront(s: Bytes, base: nat)
    requires base != 0 && s != []
    ensures Spell(s, base) == s[0] % base + base * Spell(s[1..], base)
  {
    var n := |s| - 1;
    if n != 0 {
      SpellFront(s[..n], base);
      assert s[..n][1..] == s[1..][..n - 1];
      assert Pow(base, n) == base * Pow(base, n - 1);
      Distribute(base, Spell(s[1..][..n - 1], base), s[n] % base, Pow(base, n - 1));
    }
  }

  lemma Distribute(b: int, x: int, d: int, p: int)
    ensures b * (x + d * p) == b * x + d * (b * p)
  {
  }

  /** The bytes of one varint: all but the last carry the continuation bit. */
  predicate OneVarint(s: Bytes) {
    s != [] && s[|s| - 1] < 128 && forall j :: 0 <= j < |s| - 1 ==> 128 <= s[j]
  }

  lemma WholeByte(b: byte)
    ensures b % 256 == b
  {
  }

  lemma LowGroup(b: byte)
    requires 128 <= b
    ensures b % 128 == b - 128
  {
  }

  /** A varint within the limit is read as the number its groups of seven bits spell. */
  lemma {:induction false} VarintSpells(s: Bytes, max: nat, tail: Bytes)
    requires OneVarint(s) && |s| <= max
    ensures DecodeVarint(s + tail, max) == Got(Spell(s, 128), tail)
    decreases |s|
  {
    SpellFront(s, 128);
    assert (s + tail)[0] == s[0] && (s + tail)[1..] == s[1..] + tail;
    if |s| != 1 {
      VarintSpells(s[1..], max - 1, tail);
      LowGroup(s[0]);
    } else {
      assert s[1..] + tail == tail;
    }
  }

  /** Input that has no last byte of a varint within the limit is malformed. */
  lemma {:induction false} VarintFails(s: Bytes, max: nat)
    requires forall j :: 0 <= j < |s| && j < max ==> 128 <= s[j]
    ensures DecodeVarint(s, max) == Fail
    decreases |s|
  {
    if s != [] && max != 0 { VarintFails(s[1..], max - 1); }
  }

  /** What is written for a number is one varint that spells it, with no group too many. */
  lemma {:induction false} VarintWritten(n: nat)
    ensures OneVarint(EncodeVarint(n)) && Spell(EncodeVarint(n), 128) == n
    ensures 1 < |EncodeVarint(n)| ==> EncodeVarint(n)[|EncodeVarint(n)| - 1] != 0
  {
    var s := EncodeVarint(n);
    SpellFront(s, 128);
    if 128 <= n {
      VarintWritten(n / 128);
      assert s[0] == n % 128 + 128 && s[1..] == EncodeVarint(n / 128);
      LowGroup(s[0]);
      assert n == n % 128 + 128 * (n / 128);
    }
  }

  lemma {:induction false} FixedSpells(s: Bytes, tail: Bytes)
    ensures DecodeFixed(s + tail, |s|) == Got(Spell(s, 256), tail)
  {
    if s == [] {
      assert s + tail == tail;
    } else {
      SpellFront(s, 256);
      assert (s + tail)[0] == s[0] && (s + tail)[1..] == s[1..] + tail;
      FixedSpells(s[1..], tail);
      WholeByte(s[0]);
    }
  }

  lemma {:induction false} FixedFails(s: Bytes, k: nat)
    requires |s| < k
    ensures DecodeFixed(s, k) == Fail
  {
    if s != [] { FixedFails(s[1..], k - 1); }
  }

  lemma {:induction false} FixedWritten(n: nat, k: nat)
    requires n < Pow(256, k)
    ensures |EncodeFixed(n, k)| == k && Spell(EncodeFixed(n, k), 256) == n
  {
    if k != 0 {
      SpellFront(EncodeFixed(n, k), 256);
      assert n / 256 < Pow(256, k - 1);
      FixedWritten(n / 256, k - 1);
    }
  }

  /** A length and that many bytes are read as those bytes. */
  lemma RecordReads(length: Bytes, body: Bytes, tail: Bytes)
    requires OneVarint(length) && |length| <= 5 && Spell(length, 128) == |body| <= INT_MAX
    ensures ReadRecord(length + body + tail) == Got(body, tail)
  {
    VarintSpells(length, 5, body + tail);
    assert length + body + tail == length + (body + tail);
  }

  /** A length that announces more than there is, or 2 GiB and more, is malformed. */
  lemma RecordFails(length: Bytes, rest: Bytes)
    requires OneVarint(length) && |length| <= 5
    requires |rest| < Spell(length, 128) || INT_MAX < Spell(length, 128)
    ensures ReadRecord(length + rest) == Fail
  {
    VarintSpells(length, 5, rest);
  }

  // ---------------------------------------------------------------------------------------------
  // UTF-8, section 3 of RFC 3629
  // ---------------------------------------------------------------------------------------------

  /** A character: a code point that is no surrogate. */
  predicate IsCharacter(c: nat) {
    c <= 0x10FFFF && !(0xD800 <= c <= 0xDFFF)
  }

  /** The bytes of a character, six bits in each but the first. */
  function EncodeCharacter(c: nat): (s: Bytes)
    requires IsCharacter(c)
    ensures s != []
  {
    if c <= 0x7F then [c]
    else if c <= 0x7FF then [0xC0 + c / 0x40, 0x80 + c % 0x40]
    else if c <= 0xFFFF then [0xE0 + c / 0x1000, 0x80 + c / 0x40 % 0x40, 0x80 + c % 0x40]
    else [0xF0 + c / 0x40000, 0x80 + c / 0x1000 % 0x40, 0x80 + c / 0x40 % 0x40, 0x80 + c % 0x40]
  }

  function EncodeText(cs: seq<nat>): Bytes
    requires forall i :: 0 <= i < |cs| ==> IsCharacter(cs[i])
  {
    if cs == [] then [] else EncodeCharacter(cs[0]) + EncodeText(cs[1..])
  }

  lemma ThreeBytes(c: nat)
    requires IsCharacter(c) && 0x7FF < c <= 0xFFFF
    ensures var s := EncodeCharacter(c); !(s[0] < 0xE0) && ThreeByteStart(s[0], s[1]) && Tail(s[2])
  {
  }

  lemma FourBytes(c: nat)
    requires IsCharacter(c) && 0xFFFF < c
    ensures var s := EncodeCharacter(c);
            !ThreeByteStart(s[0], s[1]) && FourByteStart(s[0], s[1]) && Tail(s[2]) && Tail(s[3])
  {
  }

  lemma CharacterIsValid(c: nat, tail: Bytes)
    requires IsCharacter(c)
    ensures ValidUtf8(EncodeCharacter(c) + tail) <==> ValidUtf8(tail)
  {
    var s := EncodeCharacter(c) + tail;
    if c <= 0x7F { assert s[1..] == tail; }
    else if c <= 0x7FF { assert s[2..] == tail; }
    else if c <= 0xFFFF { ThreeBytes(c); assert s[3..] == tail; }
    else { FourBytes(c); assert s[4..] == tail; }
  }

  lemma {:induction false} TextIsValid(cs: seq<nat>)
    requires forall i :: 0 <= i < |cs| ==> IsCharacter(cs[i])
    ensures ValidUtf8(EncodeText(cs))
  {
    if cs != [] {
      TextIsValid(cs[1..]);
      CharacterIsValid(cs[0], EncodeText(cs[1..]));
    }
  }

  lemma TwoFromBytes(a: int, b: int) returns (c: nat)
    requires 0xC2 <= a <= 0xDF && 0x80 <= b <= 0xBF
    ensures 0x7F < c <= 0x7FF && IsCharacter(c) && EncodeCharacter(c) == [a, b]
  {
    c := (a - 0xC0) * 0x40 + (b - 0x80);
    assert c / 0x40 == a - 0xC0;
  }

  lemma ThreeFromBytes(a: int, b: int, d: int) returns (c: nat)
    requires 0 <= a < 256 && 0 <= b < 256 && ThreeByteStart(a, b) && 0x80 <= d <= 0xBF
    ensures 0x7FF < c <= 0xFFFF && IsCharacter(c) && EncodeCharacter(c) == [a, b, d]
  {
    var high := (a - 0xE0) * 0x40 + (b - 0x80);
    c := high * 0x40 + (d - 0x80);
    assert c / 0x40 == high && c % 0x40 == d - 0x80;
    assert c / 0x1000 == high / 0x40 == a - 0xE0;
  }

  lemma FourFromBytes(a: int, b: int, d: int, e: int) returns (c: nat)
    requires 0 <= a < 256 && 0 <= b < 256 && FourByteStart(a, b) && 0x80 <= d <= 0xBF && 0x80 <= e <= 0xBF
    ensures 0xFFFF < c && IsCharacter(c) && EncodeCharacter(c) == [a, b, d, e]
  {
    var top := (a - 0xF0) * 0x40 + (b - 0x80);
    var high := top * 0x40 + (d - 0x80);
    c := high * 0x40 + (e - 0x80);
    assert c / 0x40 == high && c % 0x40 == e - 0x80;
    assert c / 0x1000 == high / 0x40 == top;
    assert c / 0x40000 == top / 0x40 == a - 0xF0;
  }

  /** The first character of a valid string. */
  lemma FirstCharacter(s: Bytes) returns (c: nat)
    requires ValidUtf8(s) && s != []
    ensures IsCharacter(c) && EncodeCharacter(c) <= s && ValidUtf8(s[|EncodeCharacter(c)|..])
  {
    if s[0] < 0x80 {
      c := s[0];
    } else if 0xC2 <= s[0] <= 0xDF {
      c := TwoFromBytes(s[0], s[1]);
    } else if |s| >= 3 && ThreeByteStart(s[0], s[1]) {
      c := ThreeFromBytes(s[0], s[1], s[2]);
    } else {
      c := FourFromBytes(s[0], s[1], s[2], s[3]);
    }
  }

  lemma {:induction false} ValidIsText(s: Bytes) returns (cs: seq<nat>)
    requires ValidUtf8(s)
    ensures (forall i :: 0 <= i < |cs| ==> IsCharacter(cs[i])) && EncodeText(cs) == s
    decreases |s|
  {
    if s == [] {
      cs := [];
    } else {
      var c := FirstCharacter(s);
      var rest := ValidIsText(s[|EncodeCharacter(c)|..]);
      cs := [c] + rest;
      assert cs[1..] == rest;
    }
  }

  ghost predicate IsText(s: Bytes) {
    exists cs: seq<nat> :: (forall i :: 0 <= i < |cs| ==> IsCharacter(cs[i])) && EncodeText(cs) == s
  }

  /** The test that parsers apply accepts exactly the encodings of texts. */
  lemma ValidIffText(s: Bytes)
    ensures ValidUtf8(s) <==> IsText(s)
  {
    if ValidUtf8(s) { var cs := ValidIsText(s); }
    if IsText(s) {
      var cs: seq<nat> :| (forall i :: 0 <= i < |cs| ==> IsCharacter(cs[i])) && EncodeText(cs) == s;
      TextIsValid(cs);
    }
  }
}
