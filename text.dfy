/** The two string operations the application relies on: Python's
    `str.strip()` (whitespace trimming at both ends) and the decimal rendering
    of a natural number that `f"{n}"` and `str(n)` produce. */
module Text {

  /** Python's `str.isspace()` for one character: the characters with
      bidirectional class WS, B or S, and the Unicode space separators. */
  predicate IsSpace(c: char)
  {
    || c == ' ' || c == '\t' || c == '\n' || c == '\r'
    || c == '\U{B}' || c == '\U{C}'
    || ('\U{1C}' <= c <= '\U{1F}')
    || c == '\U{85}' || c == '\U{A0}' || c == '\U{1680}'
    || ('\U{2000}' <= c <= '\U{200A}')
    || c == '\U{2028}' || c == '\U{2029}' || c == '\U{202F}' || c == '\U{205F}' || c == '\U{3000}'
  }

  predicate AllSpace(s: string)
  {
    forall i :: 0 <= i < |s| ==> IsSpace(s[i])
  }

  /** `s.lstrip()`: `s` from its first non-space character on. */
  function TrimStart(s: string): (r: string)
    ensures |r| <= |s|
    ensures r == [] || !IsSpace(r[0])
  {
    if s != [] && IsSpace(s[0]) then TrimStart(s[1..]) else s
  }

  /** `s.rstrip()`: `s` up to its last non-space character. */
  function TrimEnd(s: string): (r: string)
    ensures |r| <= |s|
    ensures r == [] || !IsSpace(r[|r| - 1])
  {
    if s != [] && IsSpace(s[|s| - 1]) then TrimEnd(s[..|s| - 1]) else s
  }

  /** `lstrip()` cuts off a prefix made only of whitespace. */
  lemma {:induction false} TrimStartSuffix(s: string)
    ensures TrimStart(s) == s[|s| - |TrimStart(s)|..]
    ensures AllSpace(s[..|s| - |TrimStart(s)|])
  {
    if s != [] && IsSpace(s[0]) {
      var r := TrimStart(s[1..]);
      TrimStartSuffix(s[1..]);
      assert s[1..][|s[1..]| - |r|..] == s[|s| - |r|..];
      assert s[1..][..|s[1..]| - |r|] == s[1..|s| - |r|];
    }
  }

  /** `rstrip()` cuts off a suffix made only of whitespace. */
  lemma {:induction false} TrimEndPrefix(s: string)
    ensures TrimEnd(s) == s[..|TrimEnd(s)|]
    ensures AllSpace(s[|TrimEnd(s)|..])
  {
    if s != [] && IsSpace(s[|s| - 1]) {
      var r := TrimEnd(s[..|s| - 1]);
      TrimEndPrefix(s[..|s| - 1]);
      assert s[..|s| - 1][..|r|] == s[..|r|];
      assert s[..|s| - 1][|r|..] == s[|r|..|s| - 1];
    }
  }

  /** Neither starts nor ends with whitespace: the shape of every result of `strip()`. */
  predicate Trimmed(s: string)
  {
    s == [] || (!IsSpace(s[0]) && !IsSpace(s[|s| - 1]))
  }

  /** `s.strip()`: `s` without its leading and trailing whitespace. */
  function Trim(s: string): (r: string)
    ensures Trimmed(r) && |r| <= |s|
  {
    var a := TrimStart(s);
    TrimEndPrefix(a);
    TrimEnd(a)
  }

  /** What `strip()` removes: the result is a contiguous slice of `s`, and
      everything cut off on either side is whitespace. */
  lemma TrimSlice(s: string)
    ensures exists i, j :: 0 <= i <= j <= |s| && Trim(s) == s[i..j] && AllSpace(s[..i]) && AllSpace(s[j..])
  {
    var a := TrimStart(s);
    var r := TrimEnd(a);
    var i := |s| - |a|;
    TrimStartSuffix(s);
    TrimEndPrefix(a);
    assert a == s[i..];
    assert r == a[..|r|] == s[i..i + |r|];
    assert a[|r|..] == s[i + |r|..];
    assert AllSpace(s[..i]) && AllSpace(s[i + |r|..]);
  }

  /** A string is blank, as the truthiness of `s.strip()` sees it, exactly
      when every character is whitespace. */
  lemma TrimEmptyIffAllSpace(s: string)
    ensures Trim(s) == [] <==> AllSpace(s)
  {
    TrimSlice(s);
    var i, j :| 0 <= i <= j <= |s| && Trim(s) == s[i..j] && AllSpace(s[..i]) && AllSpace(s[j..]);
    if Trim(s) == [] {
      forall k | 0 <= k < |s| ensures IsSpace(s[k]) {
        if k < i { assert s[..i][k] == s[k]; } else { assert s[j..][k - j] == s[k]; }
      }
    }
  }

  /** A string that neither starts nor ends with whitespace is its own strip. */
  lemma TrimUnchanged(s: string)
    requires Trimmed(s)
    ensures Trim(s) == s
  {
  }

  /** Stripping twice is stripping once. */
  lemma TrimIdempotent(s: string)
    ensures Trim(Trim(s)) == Trim(s)
  {
    TrimUnchanged(Trim(s));
  }

  /** A common prefix can be cancelled. */
  lemma PrefixCancel(p: string, x: string, y: string)
    requires p + x == p + y
    ensures x == y
  {
    assert x == (p + x)[|p|..];
    assert y == (p + y)[|p|..];
  }

  function DigitChar(d: nat): (c: char)
    requires d < 10
    ensures '0' <= c <= '9'
  {
    "0123456789"[d]
  }

  /** The decimal notation of `n`, as `str(n)` writes it: no sign, no leading zero. */
  function Decimal(n: nat): (r: string)
    ensures |r| >= 1
    ensures forall k :: 0 <= k < |r| ==> '0' <= r[k] <= '9'
    ensures (n < 10) == (|r| == 1)
    ensures r[|r| - 1] == DigitChar(n % 10)
  {
    if n < 10 then [DigitChar(n)] else Decimal(n / 10) + [DigitChar(n % 10)]
  }

  lemma DigitCharInjective(a: nat, b: nat)
    requires a < 10 && b < 10 && DigitChar(a) == DigitChar(b)
    ensures a == b
  {
  }

  /** Different numbers have different decimal notations. */
  lemma {:induction false} DecimalInjective(m: nat, n: nat)
    requires Decimal(m) == Decimal(n)
    ensures m == n
  {
    DigitCharInjective(m % 10, n % 10);
    if m >= 10 && n >= 10 {
      var dm, dn := Decimal(m), Decimal(n);
      assert Decimal(m / 10) == dm[..|dm| - 1] == dn[..|dn| - 1] == Decimal(n / 10);
      DecimalInjective(m / 10, n / 10);
    }
  }

  /** The number a string of decimal digits denotes, read left to right:
      what `int(s)` gives back. */
  function DigitsValue(s: string): nat
    requires forall k :: 0 <= k < |s| ==> '0' <= s[k] <= '9'
  {
    if s == [] then 0 else DigitsValue(s[..|s| - 1]) * 10 + ((s[|s| - 1] as int) - ('0' as int))
  }

  lemma DigitCharValue(d: nat)
    requires d < 10
    ensures (DigitChar(d) as int) - ('0' as int) == d
  {
    assert "0123456789"[0] == '0' && "0123456789"[1] == '1' && "0123456789"[2] == '2';
    assert "0123456789"[3] == '3' && "0123456789"[4] == '4' && "0123456789"[5] == '5';
    assert "0123456789"[6] == '6' && "0123456789"[7] == '7' && "0123456789"[8] == '8';
    assert "0123456789"[9] == '9';
  }

  /** Appending one digit multiplies the value by ten and adds that digit. */
  lemma DigitsValueSnoc(q: string, c: char)
    requires forall k :: 0 <= k < |q| ==> '0' <= q[k] <= '9'
    requires '0' <= c <= '9'
    ensures forall k :: 0 <= k < |q + [c]| ==> '0' <= (q + [c])[k] <= '9'
    ensures DigitsValue(q + [c]) == DigitsValue(q) * 10 + ((c as int) - ('0' as int))
  {
    assert (q + [c])[..|q|] == q;
  }

  /** `int(str(n)) == n`. */
  lemma {:induction false} DecimalValue(n: nat)
    ensures DigitsValue(Decimal(n)) == n
  {
    if n < 10 {
      DigitCharValue(n);
      DigitsValueSnoc([], DigitChar(n));
      assert [] + [DigitChar(n)] == Decimal(n);
    } else {
      DecimalValue(n / 10);
      DigitCharValue(n % 10);
      DigitsValueSnoc(Decimal(n / 10), DigitChar(n % 10));
    }
  }

  /** `str(n)` has no leading zero. */
  lemma {:induction false} DecimalNoLeadingZero(n: nat)
    ensures |Decimal(n)| > 1 ==> Decimal(n)[0] != '0'
  {
    if n >= 10 {
      var q := Decimal(n / 10);
      DecimalNoLeadingZero(n / 10);
      assert Decimal(n)[0] == q[0];
      if |q| == 1 {
        DigitCharValue(n / 10);
      }
    }
  }

  /** Status codes as the application renders them, for instance in `str(e.status_code)`. */
  lemma StatusCodeDecimals()
    ensures Decimal(400) == "400" && Decimal(401) == "401"
    ensures Decimal(404) == "404" && Decimal(500) == "500"
  {
    assert DigitChar(0) == '0' && DigitChar(1) == '1' && DigitChar(4) == '4' && DigitChar(5) == '5';
    assert Decimal(4) == ['4'] && Decimal(5) == ['5'];
    assert Decimal(40) == Decimal(4) + ['0'] == ['4', '0'];
    assert Decimal(50) == Decimal(5) + ['0'] == ['5', '0'];
    assert Decimal(400) == Decimal(40) + ['0'] == ['4', '0', '0'];
    assert Decimal(401) == Decimal(40) + ['1'] == ['4', '0', '1'];
    assert Decimal(404) == Decimal(40) + ['4'] == ['4', '0', '4'];
    assert Decimal(500) == Decimal(50) + ['0'] == ['5', '0', '0'];
  }
}
