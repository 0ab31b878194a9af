/**
 * PostgreSQL expression semantics the view definitions rely on: NULL
 * propagation through comparisons, `numeric::integer` rounding,
 * `CONCAT_WS`, `format('%s')`, `encode(bytes, 'hex')`, `hstore(keys,
 * values)`, `date(timestamp)` and unique indexes over nullable columns.
 */
module Sql {
  import opened Wrappers
  import opened Text

  /** `a = b` in a WHERE or ON clause: only non-NULL equal values match. */
  predicate EqualsTrue<T(==)>(a: Option<T>, b: Option<T>) {
    a.Some? && b.Some? && a.value == b.value
  }

  /** `a = b` as a three-valued result: NULL when either side is NULL, so `x = NULL` is never true. */
  function SqlEquals<T(==)>(a: Option<T>, b: Option<T>): (r: Option<bool>)
    ensures r.None? <==> a.None? || b.None?
    ensures r == Some(true) <==> EqualsTrue(a, b)
  {
    if a.None? || b.None? then None else Some(a.value == b.value)
  }

  /** `lower(x) = 'c'` as a three-valued result: NULL when `x` is NULL. */
  function LowerEquals(x: Option<string>, c: string): (r: Option<bool>)
    ensures r.None? <==> x.None?
  {
    match x
    case None => None
    case Some(s) => Some(Lower(s) == c)
  }

  /** `upper(x) = 'c'` as a three-valued result: NULL when `x` is NULL. */
  function UpperEquals(x: Option<string>, c: string): (r: Option<bool>)
    ensures r.None? <==> x.None?
  {
    match x
    case None => None
    case Some(s) => Some(Upper(s) == c)
  }

  /** `CASE e WHEN 'c' THEN TRUE ELSE FALSE END`: a NULL comparison falls to the ELSE arm. */
  function CaseWhenTrue(e: Option<bool>): bool {
    e == Some(true)
  }

  /** `numeric::integer`: rounds to the nearest integer, halves away from zero. */
  function NumericToInteger(x: real): (r: int)
    ensures x - 1.0 / 2.0 <= r as real <= x + 1.0 / 2.0
    ensures x >= 0.0 ==> r >= 0
  {
    if x >= 0.0 then (x + 1.0 / 2.0).Floor else -((-x + 1.0 / 2.0).Floor)
  }

  /** A halfway value rounds away from zero. */
  lemma NumericToIntegerTies(n: int)
    ensures NumericToInteger(n as real + 1.0 / 2.0) == (if n >= 0 then n + 1 else n)
    ensures NumericToInteger(n as real) == n
  {
  }

  /** `x::integer` with NULL propagation. */
  function CastInteger(x: Option<real>): Option<int> {
    match x
    case None => None
    case Some(v) => Some(NumericToInteger(v))
  }

  /** `CONCAT_WS(sep, parts...)`: the non-NULL parts joined by `sep`; NULL parts are skipped. */
  function ConcatWs(sep: string, parts: seq<Option<string>>): string {
    Join(Present(parts), sep)
  }

  /** The non-NULL values, in order. */
  function Present(parts: seq<Option<string>>): (r: seq<string>)
    ensures |r| <= |parts|
    ensures forall s :: s in r <==> Some(s) in parts
  {
    if parts == [] then []
    else (if parts[0].Some? then [parts[0].value] else []) + Present(parts[1..])
  }

  /** `CONCAT_WS` of three present values puts the separator between each two. */
  lemma ConcatWsThree(sep: string, a: string, b: string, c: string)
    ensures ConcatWs(sep, [Some(a), Some(b), Some(c)]) == a + sep + b + sep + c
  {
    var parts := [Some(a), Some(b), Some(c)];
    assert parts[1..] == [Some(b), Some(c)] && parts[1..][1..] == [Some(c)] && [Some(c)][1..] == [];
    assert Present(parts[1..][1..]) == [c];
    assert Present(parts[1..]) == [b, c];
    assert Present(parts) == [a, b, c];
    assert [a, b, c][1..] == [b, c] && [b, c][1..] == [c];
    assert Join([b, c], sep) == b + sep + c;
    assert Join([a, b, c], sep) == a + sep + Join([b, c], sep);
  }

  /** `CONCAT_WS` skips a NULL in the middle: no doubled separator appears. */
  lemma ConcatWsSkipsNull(sep: string, a: string, c: string)
    ensures ConcatWs(sep, [Some(a), None, Some(c)]) == a + sep + c
  {
    var parts := [Some(a), None, Some(c)];
    assert parts[1..] == [None, Some(c)] && parts[1..][1..] == [Some(c)] && [Some(c)][1..] == [];
    assert Present(parts[1..][1..]) == [c];
    assert Present(parts[1..]) == [c];
    assert Present(parts) == [a, c];
    assert [a, c][1..] == [c];
    assert Join([a, c], sep) == a + sep + Join([c], sep);
  }

  /** An argument of `format` rendered by `%s`: NULL renders as the empty string. */
  function FormatArg(x: Option<string>): (r: string)
    ensures x.Some? ==> r == x.value
    ensures x.None? ==> r == ""
  {
    x.GetOr("")
  }

  /** A lower-case hexadecimal digit. */
  function HexDigit(d: nat): (c: char)
    requires d < 16
    ensures c in "0123456789abcdef"
  {
    if d < 10 then ('0' as int + d) as char else ('a' as int + d - 10) as char
  }

  /** The value of a hexadecimal digit; not a digit reads as 0. */
  function HexValue(c: char): (d: nat)
    ensures d < 16
  {
    if '0' <= c <= '9' then c as int - '0' as int
    else if 'a' <= c <= 'f' then c as int - 'a' as int + 10
    else 0
  }

  /** The high and the low four bits of a byte. */
  function High(x: bv8): nat {
    (x >> 4) as nat
  }

  function Low(x: bv8): nat {
    (x & 15) as nat
  }

  /** Both halves are below 16, and shifting the high one back and adding the low one gives the byte. */
  lemma Nibbles(x: bv8)
    ensures High(x) < 16 && Low(x) < 16
    ensures ((High(x) as bv8) << 4) | (Low(x) as bv8) == x
  {
  }

  /** `encode(b, 'hex')`: two lower-case hexadecimal digits per byte, high nibble first. */
  function HexEncode(b: seq<bv8>): (r: string)
    ensures |r| == 2 * |b|
  {
    if b == [] then []
    else
      Nibbles(b[0]);
      [HexDigit(High(b[0])), HexDigit(Low(b[0]))] + HexEncode(b[1..])
  }

  /** `decode(s, 'hex')`, reading the digits in pairs (a lone trailing digit is not read). */
  function HexDecode(s: string): seq<bv8> {
    if |s| < 2 then [] else [ByteOf(HexValue(s[0]), HexValue(s[1]))] + HexDecode(s[2..])
  }

  /** The byte with the given high and low four bits. */
  function ByteOf(hi: nat, lo: nat): bv8
    requires hi < 16 && lo < 16
  {
    ((hi as bv8) << 4) | (lo as bv8)
  }

  /** Reading back a digit gives its value. */
  lemma HexDigitValue(d: nat)
    requires d < 16
    ensures HexValue(HexDigit(d)) == d
  {
  }

  /** The two digits of a byte decode back to that byte. */
  lemma ByteDigits(x: bv8, hi: char, lo: char)
    requires High(x) < 16 && Low(x) < 16
    requires hi == HexDigit(High(x)) && lo == HexDigit(Low(x))
    ensures ByteOf(HexValue(hi), HexValue(lo)) == x
  {
    Nibbles(x);
    HexDigitValue(High(x));
    HexDigitValue(Low(x));
  }

  /** Decoding undoes `encode(b, 'hex')`. */
  lemma {:induction false} HexRoundTrip(b: seq<bv8>)
    ensures HexDecode(HexEncode(b)) == b
  {
    if b != [] {
      HexRoundTrip(b[1..]);
      var s := HexEncode(b);
      assert s[2..] == HexEncode(b[1..]);
      ByteDigits(b[0], s[0], s[1]);
      assert HexDecode(s) == [b[0]] + HexDecode(s[2..]);
      assert b == [b[0]] + b[1..];
    }
  }

  /** Different bytes never encode to the same hexadecimal text. */
  lemma HexInjective(a: seq<bv8>, b: seq<bv8>)
    ensures HexEncode(a) == HexEncode(b) <==> a == b
  {
    if HexEncode(a) == HexEncode(b) {
      HexRoundTrip(a);
      HexRoundTrip(b);
    }
  }

  /** An `hstore` value: keys mapped to possibly NULL text. */
  type Hstore = map<string, Option<string>>

  /** `hstore(array['de', 'en'], array[de, en])`: a German and an English text. */
  function Translations(de: Option<string>, en: Option<string>): (r: Hstore)
    ensures r.Keys == {"de", "en"} && r["de"] == de && r["en"] == en
  {
    map["de" := de, "en" := en]
  }

  /** Seconds in a day; timestamps are seconds since the epoch. */
  const SecondsPerDay := 86400

  /** `date(ts)`: the day a timestamp falls on, as days since the epoch, NULL for NULL. */
  function DateOf(ts: Option<int>): (r: Option<int>)
    ensures r.None? <==> ts.None?
    ensures ts.Some? ==> r.value * SecondsPerDay <= ts.value < (r.value + 1) * SecondsPerDay
  {
    match ts
    case None => None
    case Some(t) => Some(t / SecondsPerDay)
  }

  /** A unique index can be built: no two rows share a non-NULL value. */
  predicate UniqueNonNull<T(==)>(values: seq<Option<T>>) {
    forall i, j :: 0 <= i < |values| && 0 <= j < |values| && i != j && values[i].Some? ==> values[i] != values[j]
  }
}
