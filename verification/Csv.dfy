/** The list of countries as comma-separated text: written by scripts/seed_redis.py, searched by the
    rule engine as a substring, split by ml_server/server.py. */
module Csv {
  import opened Common
  import opened Wire

  const COMMA: byte := 0x2C

  function Join(codes: seq<Bytes>): Bytes {
    if codes == [] then [] else if |codes| == 1 then codes[0] else codes[0] + [COMMA] + Join(codes[1..])
  }

  /** Python's `split(",")`. */
  function Split(s: Bytes): (parts: seq<Bytes>)
    ensures parts != []
  {
    if s == [] then [[]]
    else
      var rest := Split(s[1..]);
      if s[0] == COMMA then [[]] + rest else [[s[0]] + rest[0]] + rest[1..]
  }

  /** The number of countries in the feature vector. */
  function CountryCount(s: Bytes): nat {
    if s != [] then |Split(s)| else 0
  }

  lemma {:induction false} SplitCounts(s: Bytes)
    ensures |Split(s)| == Count(s, 0x2C) + 1
  {
    if s != [] { SplitCounts(s[1..]); }
  }

  /** The feature vector counts one country more than there are commas, and none in an empty text. */
  lemma CountCountsCommas(s: Bytes)
    ensures CountryCount(s) == if s == [] then 0 else multiset(s)[0x2C] + 1
  {
    SplitCounts(s);
    CountIsMultiplicity<byte>(s, 0x2C);
  }

  ghost predicate OccursAt(haystack: Bytes, needle: Bytes, i: nat) {
    i + |needle| <= |haystack| && haystack[i..i + |needle|] == needle
  }

  ghost predicate Occurs(haystack: Bytes, needle: Bytes) {
    exists i: nat :: OccursAt(haystack, needle, i)
  }

  /** `std::string::find`: the first occurrence. */
  method Search(haystack: Bytes, needle: Bytes) returns (at: Option<nat>)
    ensures at.Some? <==> Occurs(haystack, needle)
    ensures at.Some? ==> OccursAt(haystack, needle, at.value)
                         && forall i: nat :: i < at.value ==> !OccursAt(haystack, needle, i)
  {
    var i := 0;
    while i + |needle| <= |haystack|
      invariant forall k: nat :: k < i ==> !OccursAt(haystack, needle, k)
    {
      if haystack[i..i + |needle|] == needle {
        assert OccursAt(haystack, needle, i);
        return Some(i);
      }
      i := i + 1;
    }
    return None;
  }

  // ---------------------------------------------------------------------------------------------
  // Splitting undoes joining
  // ---------------------------------------------------------------------------------------------

  predicate NoComma(s: Bytes) {
    forall i :: 0 <= i < |s| ==> s[i] != COMMA
  }

  lemma {:induction false} SplitOne(s: Bytes)
    requires NoComma(s)
    ensures Split(s) == [s]
  {
    if s != [] {
      SplitOne(s[1..]);
      assert [s[0]] + s[1..] == s;
    }
  }

  lemma {:induction false} SplitFirst(s: Bytes, rest: Bytes)
    requires NoComma(s)
    ensures Split(s + [COMMA] + rest) == [s] + Split(rest)
  {
    var all := s + [COMMA] + rest;
    if s == [] {
      assert all[1..] == rest;
    } else {
      assert all[1..] == s[1..] + [COMMA] + rest;
      SplitFirst(s[1..], rest);
      assert [s[0]] + s[1..] == s;
      assert ([s[1..]] + Split(rest))[1..] == Split(rest);
    }
  }

  lemma {:induction false} SplitJoin(codes: seq<Bytes>)
    requires codes != [] && forall k :: 0 <= k < |codes| ==> NoComma(codes[k])
    ensures Split(Join(codes)) == codes
  {
    if |codes| == 1 {
      SplitOne(codes[0]);
    } else {
      SplitFirst(codes[0], Join(codes[1..]));
      SplitJoin(codes[1..]);
      assert [codes[0]] + codes[1..] == codes;
    }
  }

  // ---------------------------------------------------------------------------------------------
  // Two-letter codes
  // ---------------------------------------------------------------------------------------------

  predicate IsCode(s: Bytes) {
    |s| == 2 && s[0] != COMMA && s[1] != COMMA
  }

  predicate AreCodes(codes: seq<Bytes>) {
    forall k :: 0 <= k < |codes| ==> IsCode(codes[k])
  }

  /** The count in the feature vector is the number of countries, also when there is none. */
  lemma CountIsLength(codes: seq<Bytes>)
    requires AreCodes(codes)
    ensures CountryCount(Join(codes)) == |codes|
    ensures codes != [] ==> Split(Join(codes)) == codes
  {
    if codes != [] {
      SplitJoin(codes);
      JoinLayout(codes, 0);
    }
  }

  /** Code `k` starts at byte `3k`, and a comma separates it from the next. */
  lemma {:induction false} JoinLayout(codes: seq<Bytes>, k: nat)
    requires AreCodes(codes) && k < |codes|
    ensures |Join(codes)| == 3 * |codes| - 1
    ensures Join(codes)[3 * k..3 * k + 2] == codes[k]
    ensures k + 1 < |codes| ==> Join(codes)[3 * k + 2] == COMMA
  {
    if |codes| == 1 {
      assert codes[0][0..2] == codes[0];
    } else {
      var rest := Join(codes[1..]);
      assert Join(codes) == codes[0] + [COMMA] + rest;
      JoinLayout(codes[1..], if k == 0 then 0 else k - 1);
      if k != 0 {
        assert Join(codes)[3 * k..3 * k + 2] == rest[3 * (k - 1)..3 * (k - 1) + 2];
      }
    }
  }

  lemma ListedOccurs(codes: seq<Bytes>, code: Bytes)
    requires AreCodes(codes) && code in codes
    ensures Occurs(Join(codes), code)
  {
    var k :| 0 <= k < |codes| && codes[k] == code;
    JoinLayout(codes, k);
    assert OccursAt(Join(codes), code, 3 * k);
  }

  lemma CommaEveryThird(codes: seq<Bytes>, text: Bytes, j: nat)
    requires AreCodes(codes) && codes != [] && text == Join(codes) && j < |text| && j % 3 == 2
    ensures text[j] == COMMA
  {
    JoinLayout(codes, 0);
    JoinLayout(codes, j / 3);
  }

  /** A match cannot straddle a comma, so it is one of the codes. */
  lemma OccurrenceIsCode(codes: seq<Bytes>, code: Bytes, i: nat)
    requires AreCodes(codes) && IsCode(code) && OccursAt(Join(codes), code, i)
    ensures code in codes
  {
    var s := Join(codes);
    assert s[i] == s[i..i + 2][0] != COMMA && s[i + 1] == s[i..i + 2][1] != COMMA;
    if i % 3 == 1 { CommaEveryThird(codes, s, i + 1); }
    if i % 3 == 2 { CommaEveryThird(codes, s, i); }
    JoinLayout(codes, 0);
    JoinLayout(codes, i / 3);
    assert codes[i / 3] == code;
  }

  /** Searching the text for a code finds it exactly when it is in the list. */
  lemma OccursIffListed(codes: seq<Bytes>, code: Bytes)
    requires AreCodes(codes) && IsCode(code)
    ensures Occurs(Join(codes), code) <==> code in codes
  {
    if code in codes { ListedOccurs(codes, code); }
    if Occurs(Join(codes), code) {
      var i: nat :| OccursAt(Join(codes), code, i);
      OccurrenceIsCode(codes, code, i);
    }
  }
}
