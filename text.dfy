/**
 * The Python string operations the program applies to user input:
 * `str.strip()`, `str.lower()`, `str.isdigit()` and `int()` on a digit string.
 */
module Text {

  /** The characters Python's `str.isspace()` accepts, which `str.strip()` removes. */
  predicate IsSpace(c: char) {
    c == ' ' || ('\t' <= c <= '\r') || ('\U{1C}' <= c <= '\U{1F}')
    || c == '\U{85}' || c == '\U{A0}' || c == '\U{1680}'
    || ('\U{2000}' <= c <= '\U{200A}') || c == '\U{2028}' || c == '\U{2029}'
    || c == '\U{202F}' || c == '\U{205F}' || c == '\U{3000}'
  }

  predicate AllSpace(s: string) {
    forall k :: 0 <= k < |s| ==> IsSpace(s[k])
  }

  /** Drops leading whitespace. */
  function TrimStart(s: string): string {
    if s != [] && IsSpace(s[0]) then TrimStart(s[1..]) else s
  }

  /** Drops trailing whitespace. */
  function TrimEnd(s: string): string {
    if s != [] && IsSpace(s[|s| - 1]) then TrimEnd(s[..|s| - 1]) else s
  }

  /** `TrimStart` returns the suffix that starts at the first non-space. */
  lemma {:induction false} TrimStartShape(s: string)
    ensures |TrimStart(s)| <= |s| && TrimStart(s) == s[|s| - |TrimStart(s)|..]
    ensures AllSpace(s[..|s| - |TrimStart(s)|])
    ensures TrimStart(s) != [] ==> !IsSpace(TrimStart(s)[0])
  {
    if s != [] && IsSpace(s[0]) {
      var r := TrimStart(s[1..]);
      TrimStartShape(s[1..]);
      assert s[..|s| - |r|] == [s[0]] + s[1..][..|s| - 1 - |r|];
    }
  }

  /** `TrimEnd` returns the prefix that ends at the last non-space. */
  lemma {:induction false} TrimEndShape(s: string)
    ensures |TrimEnd(s)| <= |s| && TrimEnd(s) == s[..|TrimEnd(s)|]
    ensures AllSpace(s[|TrimEnd(s)|..])
    ensures TrimEnd(s) != [] ==> !IsSpace(TrimEnd(s)[|TrimEnd(s)| - 1])
  {
    if s != [] && IsSpace(s[|s| - 1]) {
      var r := TrimEnd(s[..|s| - 1]);
      TrimEndShape(s[..|s| - 1]);
      assert s[|r|..] == s[..|s| - 1][|r|..] + [s[|s| - 1]];
    }
  }

  /** Python's `s.strip()`. */
  function Strip(s: string): string {
    TrimEnd(TrimStart(s))
  }

  /** `strip()` returns a contiguous slice of `s` with no whitespace at either end,
      everything cut away being whitespace. */
  lemma StripSlice(s: string)
    ensures exists i, j :: 0 <= i <= j <= |s| && Strip(s) == s[i..j] && AllSpace(s[..i]) && AllSpace(s[j..])
    ensures Strip(s) != [] ==> !IsSpace(Strip(s)[0]) && !IsSpace(Strip(s)[|Strip(s)| - 1])
  {
    var t := TrimStart(s);
    var r := TrimEnd(t);
    TrimStartShape(s);
    TrimEndShape(t);
    var i := |s| - |t|;
    assert r == s[i..i + |r|];
    assert s[i + |r|..] == t[|r|..];
    if r != [] {
      assert r[0] == t[0];
    }
  }

  lemma {:induction false} TrimStartOfPadded(p: string, t: string)
    requires AllSpace(p)
    ensures TrimStart(p + t) == TrimStart(t)
  {
    if p == [] {
      assert p + t == t;
    } else {
      assert (p + t)[0] == p[0];
      assert (p + t)[1..] == p[1..] + t;
      TrimStartOfPadded(p[1..], t);
    }
  }

  lemma {:induction false} TrimEndOfPadded(t: string, q: string)
    requires AllSpace(q)
    ensures TrimEnd(t + q) == TrimEnd(t)
  {
    if q == [] {
      assert t + q == t;
    } else {
      assert (t + q)[|t + q| - 1] == q[|q| - 1];
      assert (t + q)[..|t + q| - 1] == t + q[..|q| - 1];
      TrimEndOfPadded(t, q[..|q| - 1]);
    }
  }

  lemma TrimStartFixed(s: string)
    requires s == [] || !IsSpace(s[0])
    ensures TrimStart(s) == s
  {
  }

  lemma TrimEndFixed(s: string)
    requires s == [] || !IsSpace(s[|s| - 1])
    ensures TrimEnd(s) == s
  {
  }

  lemma {:induction false} TrimStartAppend(t: string, q: string)
    requires AllSpace(q)
    ensures TrimStart(t + q) == if TrimStart(t) == [] then [] else TrimStart(t) + q
  {
    if t == [] {
      assert t + q == q + [];
      TrimStartOfPadded(q, []);
    } else {
      assert (t + q)[0] == t[0];
      if IsSpace(t[0]) {
        assert (t + q)[1..] == t[1..] + q;
        TrimStartAppend(t[1..], q);
      }
    }
  }

  /** Whitespace around the input does not change what `strip()` returns. */
  lemma StripOfPadded(p: string, t: string, q: string)
    requires AllSpace(p) && AllSpace(q)
    ensures Strip(p + t + q) == Strip(t)
  {
    assert p + t + q == p + (t + q);
    TrimStartOfPadded(p, t + q);
    TrimStartAppend(t, q);
    TrimEndOfPadded(TrimStart(t), q);
    TrimEndShape([]);
  }

  /** `strip()` is idempotent. */
  lemma StripIdempotent(s: string)
    ensures Strip(Strip(s)) == Strip(s)
  {
    var r := Strip(s);
    StripSlice(s);
    TrimStartFixed(r);
    TrimEndFixed(r);
  }

  /** Lower-cases an ASCII capital; every other character is left as it is. */
  function LowerChar(c: char): (d: char)
    ensures !('A' <= d <= 'Z')
    ensures IsSpace(d) <==> IsSpace(c)
    ensures ('0' <= d <= '9') <==> ('0' <= c <= '9')
  {
    if 'A' <= c <= 'Z' then (c - 'A' + 'a') as char else c
  }

  /** Python's `s.lower()` on ASCII: same length, no capital left, every other
      character kept. */
  function Lower(s: string): (r: string)
    ensures |r| == |s|
    ensures forall k :: 0 <= k < |r| ==> !('A' <= r[k] <= 'Z')
    ensures forall k :: 0 <= k < |s| && !('A' <= s[k] <= 'Z') ==> r[k] == s[k]
    ensures forall k :: 0 <= k < |s| && 'A' <= s[k] <= 'Z' ==> r[k] as int == s[k] as int + 32
  {
    seq(|s|, k requires 0 <= k < |s| => LowerChar(s[k]))
  }

  lemma LowerIdempotent(s: string)
    ensures Lower(Lower(s)) == Lower(s)
  {
  }

  lemma {:induction false} TrimStartLower(s: string)
    ensures TrimStart(Lower(s)) == Lower(TrimStart(s))
  {
    if s != [] && IsSpace(s[0]) {
      assert Lower(s)[1..] == Lower(s[1..]);
      TrimStartLower(s[1..]);
    }
  }

  lemma {:induction false} TrimEndLower(s: string)
    ensures TrimEnd(Lower(s)) == Lower(TrimEnd(s))
  {
    if s != [] && IsSpace(s[|s| - 1]) {
      assert Lower(s)[..|s| - 1] == Lower(s[..|s| - 1]);
      TrimEndLower(s[..|s| - 1]);
    }
  }

  /** Lower-casing before or after `strip()` gives the same string. */
  lemma StripLower(s: string)
    ensures Strip(Lower(s)) == Lower(Strip(s))
  {
    TrimStartLower(s);
    TrimEndLower(TrimStart(s));
  }

  predicate IsDigit(c: char) {
    '0' <= c <= '9'
  }

  function DigitValue(c: char): (v: nat)
    requires IsDigit(c)
    ensures v < 10
  {
    (c - '0') as nat
  }

  /** Python's `s.isdigit()` restricted to ASCII digits: non-empty and digits only. */
  predicate IsDigits(s: string) {
    s != [] && forall k :: 0 <= k < |s| ==> IsDigit(s[k])
  }

  /** Python's `int(s)` for a string of decimal digits (leading zeros allowed). */
  function DecimalValue(s: string): nat
    requires forall k :: 0 <= k < |s| ==> IsDigit(s[k])
  {
    if s == [] then 0 else DecimalValue(s[..|s| - 1]) * 10 + DigitValue(s[|s| - 1])
  }

  /** Decimal notation of a natural number without leading zeros. */
  function ShowNat(n: nat): (r: string)
    ensures IsDigits(r)
    ensures r[0] == '0' ==> n == 0
  {
    if n < 10 then [('0' as int + n) as char] else ShowNat(n / 10) + [('0' as int + n % 10) as char]
  }

  /** Reading back the decimal notation of `n` gives `n`. */
  lemma {:induction false} DecimalValueOfShowNat(n: nat)
    ensures DecimalValue(ShowNat(n)) == n
  {
    var r := ShowNat(n);
    if n >= 10 {
      assert r[..|r| - 1] == ShowNat(n / 10);
      DecimalValueOfShowNat(n / 10);
    }
  }

  /** Leading zeros do not change the value, as with Python's `int("007") == 7`. */
  lemma {:induction false} DecimalValueLeadingZero(s: string)
    requires forall k :: 0 <= k < |s| ==> IsDigit(s[k])
    ensures DecimalValue("0" + s) == DecimalValue(s)
  {
    if s != [] {
      assert ("0" + s)[..|"0" + s| - 1] == "0" + s[..|s| - 1];
      DecimalValueLeadingZero(s[..|s| - 1]);
    }
  }
}
