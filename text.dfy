/**
 * Text operations the source relies on: Python's `str.strip()`, the
 * case-insensitive containment behind Django's `icontains`, SQL's
 * `upper`/`lower`, `" AND ".join(...)` and the decimal rendering of
 * integers used by f-strings, `format('%s', ...)` and `CONCAT_WS`.
 */
module Text {
  import opened Wrappers

  /** The characters for which Python's `str.isspace()` holds; `str.strip()` removes exactly these. */
  predicate IsSpace(c: char) {
    || c == ' '
    || ('\t' <= c <= '\r')
    || ('\U{1c}' <= c <= '\U{1f}')
    || c == '\U{85}'
    || c == '\U{a0}'
    || c == '\U{1680}'
    || ('\U{2000}' <= c <= '\U{200a}')
    || c == '\U{2028}'
    || c == '\U{2029}'
    || c == '\U{202f}'
    || c == '\U{205f}'
    || c == '\U{3000}'
  }

  /** Neither the first nor the last character is whitespace. */
  predicate Trimmed(s: string) {
    s == [] || (!IsSpace(s[0]) && !IsSpace(s[|s| - 1]))
  }

  predicate AllSpace(s: string) {
    forall k :: 0 <= k < |s| ==> IsSpace(s[k])
  }

  /** Python's `str.lstrip()`. */
  function StripStart(s: string): (r: string)
    ensures |r| <= |s|
  {
    if s != [] && IsSpace(s[0]) then StripStart(s[1..]) else s
  }

  /** Python's `str.rstrip()`. */
  function StripEnd(s: string): (r: string)
    ensures |r| <= |s|
  {
    if s != [] && IsSpace(s[|s| - 1]) then StripEnd(s[..|s| - 1]) else s
  }

  /** Python's `str.strip()`. */
  function Strip(s: string): (r: string)
    ensures |r| <= |s|
  {
    StripEnd(StripStart(s))
  }

  /** `lstrip` removes a whitespace prefix and stops at the first other character. */
  lemma {:induction false} StripStartSpec(s: string)
    ensures var r := StripStart(s);
      r == s[|s| - |r|..] && (r == [] || !IsSpace(r[0])) &&
      forall k :: 0 <= k < |s| - |r| ==> IsSpace(s[k])
  {
    if s != [] && IsSpace(s[0]) {
      StripStartSpec(s[1..]);
      var r := StripStart(s);
      assert s[1..][|s| - 1 - |r|..] == s[|s| - |r|..];
      forall k | 0 <= k < |s| - |r| ensures IsSpace(s[k]) {
        if k > 0 { assert s[1..][k - 1] == s[k]; }
      }
    }
  }

  /** `rstrip` removes a whitespace suffix and stops at the last other character. */
  lemma {:induction false} StripEndSpec(s: string)
    ensures var r := StripEnd(s);
      r == s[..|r|] && (r == [] || !IsSpace(r[|r| - 1])) &&
      forall k :: |r| <= k < |s| ==> IsSpace(s[k])
  {
    if s != [] && IsSpace(s[|s| - 1]) {
      var t := s[..|s| - 1];
      StripEndSpec(t);
      var r := StripEnd(s);
      assert t[..|r|] == s[..|r|];
      forall k | |r| <= k < |s| ensures IsSpace(s[k]) {
        if k < |s| - 1 { assert t[k] == s[k]; }
      }
    }
  }

  /** The result of `strip` starts and ends with a non-whitespace character. */
  lemma StripTrimmed(s: string)
    ensures Trimmed(Strip(s))
  {
    var t := StripStart(s);
    StripStartSpec(s);
    StripEndSpec(t);
    var r := StripEnd(t);
    assert r != [] ==> r[0] == t[0];
  }

  /**
   * `Strip(s)` is the one trimmed middle part of `s` that is surrounded by
   * whitespace only: any split of `s` into whitespace, a trimmed core and
   * whitespace yields exactly `Strip(s)`.
   */
  lemma {:induction false} StripIsTheCore(s: string, i: nat, j: nat)
    requires i <= j <= |s|
    requires AllSpace(s[..i]) && AllSpace(s[j..]) && Trimmed(s[i..j])
    ensures Strip(s) == s[i..j]
  {
    forall k | 0 <= k < i ensures IsSpace(s[k]) { assert s[..i][k] == s[k]; }
    forall k | j <= k < |s| ensures IsSpace(s[k]) { assert s[j..][k - j] == s[k]; }
    var t := StripStart(s);
    var a := |s| - |t|;
    StripStartSpec(s);
    StripEndSpec(t);
    if i == j {
      assert AllSpace(s);
      AllSpaceStripsToEmpty(s);
    } else {
      assert !IsSpace(s[i]) by { assert s[i..j][0] == s[i]; }
      assert t == [] || t[0] == s[a];
      assert a == i;
      var b := |StripEnd(t)|;
      assert !IsSpace(s[j - 1]) by { assert s[i..j][j - 1 - i] == s[j - 1]; }
      assert t[j - i - 1] == s[j - 1];
      assert b == 0 || t[b - 1] == s[i + b - 1];
      assert b == j - i;
      assert StripEnd(t) == t[..j - i] == s[i..j];
    }
  }

  lemma {:induction false} AllSpaceStripsToEmpty(s: string)
    requires AllSpace(s)
    ensures StripStart(s) == [] && Strip(s) == []
  {
    if s != [] {
      assert AllSpace(s[1..]) by {
        forall k | 0 <= k < |s| - 1 ensures IsSpace(s[1..][k]) { assert s[1..][k] == s[k + 1]; }
      }
      AllSpaceStripsToEmpty(s[1..]);
    }
  }

  /** Stripping twice is stripping once. */
  lemma StripIdempotent(s: string)
    ensures Strip(Strip(s)) == Strip(s)
  {
    var r := Strip(s);
    StripTrimmed(s);
    assert r[..0] == [] && r[|r|..] == [] && r[0..|r|] == r;
    StripIsTheCore(r, 0, |r|);
  }

  /** SQL `upper` on one character, for the ASCII letters. */
  function UpperChar(c: char): char {
    if 'a' <= c <= 'z' then (c as int - 32) as char else c
  }

  /** SQL `lower` on one character, for the ASCII letters. */
  function LowerChar(c: char): char {
    if 'A' <= c <= 'Z' then (c as int + 32) as char else c
  }

  function Upper(s: string): string {
    seq(|s|, i requires 0 <= i < |s| => UpperChar(s[i]))
  }

  function Lower(s: string): string {
    seq(|s|, i requires 0 <= i < |s| => LowerChar(s[i]))
  }

  /** SQL `upper(s) = 'X'` for a one-letter `X`: true exactly for the two spellings of that letter. */
  lemma UpperIsLetter(s: string, big: char)
    requires 'A' <= big <= 'Z'
    ensures Upper(s) == [big] <==> (s == [big] || s == [LowerChar(big)])
  {
    if Upper(s) == [big] {
      assert |s| == 1;
      assert Upper(s)[0] == UpperChar(s[0]) == big;
      assert s == [s[0]];
    }
    if s == [big] || s == [LowerChar(big)] {
      assert Upper(s) == [UpperChar(s[0])];
    }
  }

  /** SQL `lower(s) = 'x'` for a one-letter `x`: true exactly for the two spellings of that letter. */
  lemma LowerIsLetter(s: string, small: char)
    requires 'a' <= small <= 'z'
    ensures Lower(s) == [small] <==> (s == [small] || s == [UpperChar(small)])
  {
    if Lower(s) == [small] {
      assert |s| == 1;
      assert Lower(s)[0] == LowerChar(s[0]) == small;
      assert s == [s[0]];
    }
    if s == [small] || s == [UpperChar(small)] {
      assert Lower(s) == [LowerChar(s[0])];
    }
  }

  /** `sub` occurs in `s` as a contiguous piece. */
  predicate Contains(s: string, sub: string)
    decreases |s|
  {
    sub <= s || (s != [] && Contains(s[1..], sub))
  }

  /** `sub` occurs in `s` starting at index `i`. */
  predicate OccursAt(s: string, sub: string, i: int) {
    0 <= i <= |s| - |sub| && s[i..i + |sub|] == sub
  }

  lemma {:induction false} ContainsAt(s: string, sub: string)
    ensures Contains(s, sub) <==> exists i :: OccursAt(s, sub, i)
  {
    if sub <= s {
      assert OccursAt(s, sub, 0);
    } else if s != [] {
      ContainsAt(s[1..], sub);
      if Contains(s[1..], sub) {
        var i :| OccursAt(s[1..], sub, i);
        assert s[1..][i..i + |sub|] == s[i + 1..i + 1 + |sub|];
        assert OccursAt(s, sub, i + 1);
      }
      if exists i :: OccursAt(s, sub, i) {
        var i :| OccursAt(s, sub, i);
        if i != 0 {
          assert s[1..][i - 1..i - 1 + |sub|] == s[i..i + |sub|];
          assert OccursAt(s[1..], sub, i - 1);
        }
      }
    } else {
      assert forall i :: !OccursAt(s, sub, i);
    }
  }

  /** Containment is transitive: a piece of a piece of `s` is a piece of `s`. */
  lemma ContainsTransitive(s: string, mid: string, sub: string)
    requires Contains(s, mid) && Contains(mid, sub)
    ensures Contains(s, sub)
  {
    ContainsAt(s, mid);
    ContainsAt(mid, sub);
    var i :| OccursAt(s, mid, i);
    var j :| OccursAt(mid, sub, j);
    forall k | 0 <= k < |sub| ensures sub[k] == s[i + j + k] {
      assert sub[k] == mid[j..j + |sub|][k] == mid[j + k];
      assert mid[j + k] == s[i..i + |mid|][j + k];
    }
    assert sub == s[i + j..i + j + |sub|];
    assert OccursAt(s, sub, i + j);
    ContainsAt(s, sub);
  }

  /** Django's `icontains` lookup: containment after upper-casing both sides. */
  predicate ContainsIgnoringCase(s: string, sub: string) {
    Contains(Upper(s), Upper(sub))
  }

  /** Python's `sep.join(parts)`. */
  function Join(parts: seq<string>, sep: string): string {
    if |parts| == 0 then ""
    else if |parts| == 1 then parts[0]
    else parts[0] + sep + Join(parts[1..], sep)
  }

  function DigitChar(d: nat): char
    requires d < 10
  {
    ('0' as int + d) as char
  }

  /** The decimal digits of `n`, without leading zeros. */
  function NatToString(n: nat): (r: string)
    ensures |r| >= 1
    ensures forall k :: 0 <= k < |r| ==> '0' <= r[k] <= '9'
    ensures r[0] == '0' ==> n == 0
  {
    if n < 10 then [DigitChar(n)] else NatToString(n / 10) + [DigitChar(n % 10)]
  }

  /** Decimal rendering of an integer, as Python's `str(int)` and PostgreSQL's `int::text` write it. */
  function IntToString(n: int): string {
    if n < 0 then "-" + NatToString(-n) else NatToString(n)
  }

  lemma {:induction false} NatToStringInjective(m: nat, n: nat)
    requires NatToString(m) == NatToString(n)
    ensures m == n
  {
    var a, b := NatToString(m), NatToString(n);
    if m < 10 || n < 10 {
    } else {
      var pa, pb := NatToString(m / 10), NatToString(n / 10);
      assert a[..|a| - 1] == pa && b[..|b| - 1] == pb;
      assert a[|a| - 1] == DigitChar(m % 10) && b[|b| - 1] == DigitChar(n % 10);
      NatToStringInjective(m / 10, n / 10);
    }
  }

  /** Distinct integers render differently. */
  lemma IntToStringInjective(m: int, n: int)
    requires IntToString(m) == IntToString(n)
    ensures m == n
  {
    var a, b := IntToString(m), IntToString(n);
    if m < 0 && n < 0 {
      assert a[1..] == NatToString(-m) && b[1..] == NatToString(-n);
      NatToStringInjective(-m, -n);
    } else if m < 0 || n < 0 {
    } else {
      NatToStringInjective(m, n);
    }
  }

  /** How a Python f-string or `str.format` renders an optional string: `None` becomes "None". */
  function FormatOptional(s: Option<string>): string {
    match s
    case Some(v) => v
    case None => "None"
  }
}
