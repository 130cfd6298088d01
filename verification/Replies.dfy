/** Replies to HGETALL, and what the feature store reads from them. */
module Replies {
  import opened Common
  import opened Wire

  /** The plain struct of redis_feature_store.h with its member defaults. */
  datatype Features = Features(
    txCount: int, avgAmount: real, countries: Bytes, lastTxTs: int, riskScore: real, isCacheMiss: bool)

  const DEFAULTS := Features(0, 0.0, [], 0, 0.0, false)

  const CACHE_MISS := DEFAULTS.(isCacheMiss := true)

  /** A reply of the server: an array of strings, or anything else (an error, a nil). */
  datatype Reply = Array(elements: seq<Bytes>) | NotArray

  /** HGETALL replies alternate fields and values. */
  predicate Paired(reply: Reply) {
    reply.Array? ==> |reply.elements| % 2 == 0
  }

  /** What the world supplies: the stored hashes, and how `std::from_chars` reads a float (nothing when
      it reads none, in which case the target keeps its value). */
  datatype World = World(stored: Bytes -> Reply, floatOf: Bytes -> Option<real>)

  ghost predicate WorldOk(w: World) {
    forall id :: Paired(w.stored(id))
  }

  // ---------------------------------------------------------------------------------------------
  // Reading a reply
  // ---------------------------------------------------------------------------------------------

  function Ascii(s: string): Bytes {
    seq(|s|, i requires 0 <= i < |s| => s[i] as int % 256)
  }

  /** The part of a string that `strcmp` sees: up to the first zero byte. */
  function CString(s: Bytes): (r: Bytes)
    ensures r <= s && 0 !in r && (|r| < |s| ==> s[|r|] == 0)
  {
    if s == [] || s[0] == 0 then [] else [s[0]] + CString(s[1..])
  }

  predicate IsDigit(b: byte) {
    0x30 <= b <= 0x39
  }

  /** The value of the longest prefix of digits, on top of what was read before it. */
  function Digits(s: Bytes, acc: nat): nat {
    if s == [] || !IsDigit(s[0]) then acc else Digits(s[1..], 10 * acc + (s[0] - 0x30))
  }

  /** `std::from_chars` for a signed integer in decimal: nothing when there is no digit or the value is
      out of range. */
  function FromChars(s: Bytes, limit: nat): Option<int> {
    var negative := s != [] && s[0] == 0x2D;
    var digits := if negative then s[1..] else s;
    if digits == [] || !IsDigit(digits[0]) then None
    else
      var magnitude: int := Digits(digits, 0);
      var n := if negative then -magnitude else magnitude;
      if -(limit as int) <= n < limit then Some(n) else None
  }

  function Or<T>(read: Option<T>, current: T): T {
    match read case Some(x) => x case None => current
  }

  /** One field of the hash. */
  function ApplyField(w: World, f: Features, field: Bytes, v: Bytes): Features {
    var name := CString(field);
    if name == Ascii("tx_count_30d") then f.(txCount := Or(FromChars(v, TWO_32 / 2), f.txCount))
    else if name == Ascii("avg_amount_30d") then f.(avgAmount := Or(w.floatOf(v), f.avgAmount))
    else if name == Ascii("countries_30d") then f.(countries := v)
    else if name == Ascii("last_tx_ts") then f.(lastTxTs := Or(FromChars(v, TWO_64 / 2), f.lastTxTs))
    else if name == Ascii("risk_score") then f.(riskScore := Or(w.floatOf(v), f.riskScore))
    else f
  }

  /** All fields of the hash, in the order of the reply. */
  function ApplyFields(w: World, f: Features, elements: seq<Bytes>): Features
    decreases |elements|
  {
    if |elements| < 2 then f else ApplyFields(w, ApplyField(w, f, elements[0], elements[1]), elements[2..])
  }

  /** What a lookup makes of a reply: a miss unless it is a nonempty array. */
  function FeaturesOf(w: World, reply: Reply): Features {
    if reply.Array? && reply.elements != [] then ApplyFields(w, DEFAULTS, reply.elements) else CACHE_MISS
  }

  /** The server's reply to the command for a user, into which the id goes as a C string. */
  function ReplyFor(w: World, id: Bytes): Reply {
    w.stored(CString(id))
  }

  /** What the store knows of a user. */
  function Lookup(w: World, id: Bytes): Features {
    FeaturesOf(w, ReplyFor(w, id))
  }

  lemma {:induction false} ApplyFieldsKeepsHit(w: World, f: Features, elements: seq<Bytes>)
    ensures ApplyFields(w, f, elements).isCacheMiss == f.isCacheMiss
    decreases |elements|
  {
    if 2 <= |elements| { ApplyFieldsKeepsHit(w, ApplyField(w, f, elements[0], elements[1]), elements[2..]); }
  }

  /** A miss carries nothing but the defaults: a user is a miss with no history, or a hit. */
  lemma MissIsDefaults(w: World, id: Bytes)
    ensures Lookup(w, id).isCacheMiss ==> Lookup(w, id) == Features(0, 0.0, [], 0, 0.0, true)
    ensures Lookup(w, id).isCacheMiss <==> !(ReplyFor(w, id).Array? && ReplyFor(w, id).elements != [])
  {
    if ReplyFor(w, id).Array? { ApplyFieldsKeepsHit(w, DEFAULTS, ReplyFor(w, id).elements); }
  }

  // ---------------------------------------------------------------------------------------------
  // What each feature holds
  // ---------------------------------------------------------------------------------------------

  // The names of the fields, byte by byte.
  const TX_COUNT: Bytes := [0x74, 0x78, 0x5F, 0x63, 0x6F, 0x75, 0x6E, 0x74, 0x5F, 0x33, 0x30, 0x64]
  const AVG_AMOUNT: Bytes := [0x61, 0x76, 0x67, 0x5F, 0x61, 0x6D, 0x6F, 0x75, 0x6E, 0x74, 0x5F, 0x33, 0x30, 0x64]
  const COUNTRIES: Bytes := [0x63, 0x6F, 0x75, 0x6E, 0x74, 0x72, 0x69, 0x65, 0x73, 0x5F, 0x33, 0x30, 0x64]
  const LAST_TX: Bytes := [0x6C, 0x61, 0x73, 0x74, 0x5F, 0x74, 0x78, 0x5F, 0x74, 0x73]
  const RISK: Bytes := [0x72, 0x69, 0x73, 0x6B, 0x5F, 0x73, 0x63, 0x6F, 0x72, 0x65]

  lemma Names()
    ensures Ascii("tx_count_30d") == TX_COUNT && Ascii("avg_amount_30d") == AVG_AMOUNT
    ensures Ascii("countries_30d") == COUNTRIES && Ascii("last_tx_ts") == LAST_TX && Ascii("risk_score") == RISK
  {
  }

  function NameAt(elements: seq<Bytes>, k: nat): Bytes
    requires 2 * k + 1 < |elements|
  {
    CString(elements[2 * k])
  }

  function ValueAt(elements: seq<Bytes>, k: nat): Bytes
    requires 2 * k + 1 < |elements|
  {
    elements[2 * k + 1]
  }

  /** From pair `from` on, no pair under `name` has a value that reads. */
  ghost predicate NoReading<T(!new)>(elements: seq<Bytes>, name: Bytes, read: Bytes -> Option<T>, from: nat) {
    forall k: nat :: from <= k && 2 * k + 1 < |elements| && NameAt(elements, k) == name ==>
      read(ValueAt(elements, k)).None?
  }

  /** `final` is what the last pair under `name` reads as, among those that read at all, and `initial` if
      there is none. */
  ghost predicate LastReading<T(!new)>(
    elements: seq<Bytes>, name: Bytes, read: Bytes -> Option<T>, initial: T, final: T)
  {
    || (NoReading(elements, name, read, 0) && final == initial)
    || (exists k: nat ::
          && 2 * k + 1 < |elements| && NameAt(elements, k) == name && read(ValueAt(elements, k)) == Some(final)
          && NoReading(elements, name, read, k + 1))
  }

  lemma LastReadingFront<T(!new)>(
      elements: seq<Bytes>, name: Bytes, read: Bytes -> Option<T>, initial: T, mid: T, final: T)
    requires 2 <= |elements| && LastReading(elements[2..], name, read, mid, final)
    requires mid == if NameAt(elements, 0) == name then Or(read(ValueAt(elements, 0)), initial) else initial
    ensures LastReading(elements, name, read, initial, final)
  {
    var tail := elements[2..];
    forall from: nat | NoReading(tail, name, read, from) ensures NoReading(elements, name, read, from + 1) {
      forall k: nat | from + 1 <= k && 2 * k + 1 < |elements| && NameAt(elements, k) == name
        ensures read(ValueAt(elements, k)).None?
      {
        assert NameAt(tail, k - 1) == NameAt(elements, k) && ValueAt(tail, k - 1) == ValueAt(elements, k);
      }
    }
    if NoReading(tail, name, read, 0) && final == mid {
      assert NoReading(elements, name, read, 1);
      if NameAt(elements, 0) == name && read(ValueAt(elements, 0)).Some? {
        assert read(ValueAt(elements, 0)) == Some(final);
      } else {
        assert NoReading(elements, name, read, 0);
      }
    } else {
      var k: nat :| 2 * k + 1 < |tail| && NameAt(tail, k) == name && read(ValueAt(tail, k)) == Some(final)
                    && NoReading(tail, name, read, k + 1);
      assert NameAt(elements, k + 1) == name && read(ValueAt(elements, k + 1)) == Some(final);
      assert NoReading(elements, name, read, k + 2);
    }
  }

  /** Each feature is what the last pair under its own name reads as, and pairs under other names leave it
      alone. */
  ghost predicate ReadFrom(w: World, elements: seq<Bytes>, initial: Features, f: Features) {
    && LastReading(elements, TX_COUNT, (v: Bytes) => FromChars(v, 0x8000_0000), initial.txCount, f.txCount)
    && LastReading(elements, AVG_AMOUNT, w.floatOf, initial.avgAmount, f.avgAmount)
    && LastReading(elements, COUNTRIES, (v: Bytes) => Some(v), initial.countries, f.countries)
    && LastReading(elements, LAST_TX, (v: Bytes) => FromChars(v, 0x8000_0000_0000_0000), initial.lastTxTs, f.lastTxTs)
    && LastReading(elements, RISK, w.floatOf, initial.riskScore, f.riskScore)
    && f.isCacheMiss == initial.isCacheMiss
  }

  lemma {:induction false} FieldsRead(w: World, f: Features, elements: seq<Bytes>)
    requires |elements| % 2 == 0
    ensures ReadFrom(w, elements, f, ApplyFields(w, f, elements))
    decreases |elements|
  {
    if elements != [] {
      Names();
      var mid, final := ApplyField(w, f, elements[0], elements[1]), ApplyFields(w, f, elements);
      FieldsRead(w, mid, elements[2..]);
      LastReadingFront(
        elements, TX_COUNT, (v: Bytes) => FromChars(v, 0x8000_0000), f.txCount, mid.txCount, final.txCount);
      LastReadingFront(elements, AVG_AMOUNT, w.floatOf, f.avgAmount, mid.avgAmount, final.avgAmount);
      LastReadingFront(elements, COUNTRIES, (v: Bytes) => Some(v), f.countries, mid.countries, final.countries);
      LastReadingFront(
        elements, LAST_TX, (v: Bytes) => FromChars(v, 0x8000_0000_0000_0000), f.lastTxTs, mid.lastTxTs, final.lastTxTs);
      LastReadingFront(elements, RISK, w.floatOf, f.riskScore, mid.riskScore, final.riskScore);
    }
  }

  /** What is returned for a user: read from the reply if that is a nonempty array, and the bare miss
      otherwise. */
  ghost predicate IsAnswer(w: World, id: Bytes, f: Features) {
    var reply := w.stored(CString(id));
    if reply.Array? && reply.elements != []
    then ReadFrom(w, reply.elements, Features(0, 0.0, [], 0, 0.0, false), f)
    else f == Features(0, 0.0, [], 0, 0.0, true)
  }

  lemma LookupIsAnswer(w: World, id: Bytes)
    requires WorldOk(w)
    ensures IsAnswer(w, id, Lookup(w, id))
  {
    var reply := w.stored(CString(id));
    assert Paired(reply);
    if reply.Array? { FieldsRead(w, DEFAULTS, reply.elements); }
  }

  // ---------------------------------------------------------------------------------------------
  // Integers in decimal
  // ---------------------------------------------------------------------------------------------

  /** The decimal text of an integer. */
  function Decimal(n: int): (s: Bytes)
    ensures s != []
    decreases n < 0, if n < 0 then -n else n
  {
    if n < 0 then Ascii("-") + Decimal(-n)
    else if n < 10 then Ascii("0123456789"[n..n + 1])
    else Decimal(n / 10) + Ascii("0123456789"[n % 10..n % 10 + 1])
  }

  predicate AllDigits(s: Bytes) {
    forall i :: 0 <= i < |s| ==> IsDigit(s[i])
  }

  lemma {:induction false} DigitsAppend(s: Bytes, d: byte, tail: Bytes, acc: nat)
    requires AllDigits(s) && IsDigit(d) && (tail == [] || !IsDigit(tail[0]))
    ensures Digits(s + [d] + tail, acc) == 10 * Digits(s, acc) + (d - 0x30)
    decreases |s|
  {
    var all := s + [d] + tail;
    if s == [] {
      assert all[1..] == tail;
    } else {
      assert all[1..] == s[1..] + [d] + tail;
      DigitsAppend(s[1..], d, tail, 10 * acc + (s[0] - 0x30));
    }
  }

  lemma OneDigit(d: nat)
    requires d < 10
    ensures Ascii("0123456789"[d..d + 1]) == [0x30 + d]
  {
    assert "0123456789"[d..d + 1][0] as int == 0x30 + d;
  }

  lemma {:induction false} DecimalDigits(n: nat, tail: Bytes)
    requires tail == [] || !IsDigit(tail[0])
    ensures AllDigits(Decimal(n)) && Digits(Decimal(n) + tail, 0) == n
  {
    if n < 10 {
      OneDigit(n);
      assert Decimal(n) + tail == [] + [0x30 + n] + tail;
      DigitsAppend([], 0x30 + n, tail, 0);
    } else {
      DecimalDigits(n / 10, []);
      assert Decimal(n / 10) + [] == Decimal(n / 10);
      OneDigit(n % 10);
      DigitsAppend(Decimal(n / 10), 0x30 + n % 10, tail, 0);
    }
  }

  /** An integer is read back from its decimal text, whatever follows that is not a digit, exactly when it
      is in range. */
  lemma DecimalReadsBack(n: int, limit: nat, tail: Bytes)
    requires tail == [] || !IsDigit(tail[0])
    ensures FromChars(Decimal(n) + tail, limit) == if -(limit as int) <= n < limit then Some(n) else None
  {
    DecimalDigits(if n < 0 then -n else n, tail);
    if n < 0 {
      assert (Decimal(n) + tail)[1..] == Decimal(-n) + tail;
    }
  }

  /** Text without a digit, but for a minus sign at its front, does not read. */
  lemma NoDigitNoNumber(s: Bytes, limit: nat)
    requires s == [] || (!IsDigit(s[0]) && (s[0] == Ascii("-")[0] ==> |s| == 1 || !IsDigit(s[1])))
    ensures FromChars(s, limit) == None
  {
  }
}
