/** String helpers shared by the model: JavaScript truthiness of an optional
    string, `String.prototype.trim`, and the decimal rendering of numbers
    inside template literals. */
module Text {
  import opened Optional

  /** A JavaScript string is truthy exactly when it is present and non-empty. */
  predicate Truthy(s: Option<string>) {
    s.Some? && s.value != ""
  }

  predicate IsDigit(c: char) {
    '0' <= c <= '9'
  }

  predicate AllDigits(s: string) {
    forall i :: 0 <= i < |s| ==> IsDigit(s[i])
  }

  function Digit(d: nat): (c: char)
    requires d < 10
    ensures IsDigit(c)
  {
    (48 + d) as char
  }

  function DigitValue(c: char): (d: nat)
    requires IsDigit(c)
    ensures d < 10
  {
    c as int - 48
  }

  /** The decimal rendering of a natural number, as `${n}` produces it. */
  function Decimal(n: nat): (s: string)
    ensures s != [] && AllDigits(s)
    decreases n
  {
    if n < 10 then [Digit(n)] else Decimal(n / 10) + [Digit(n % 10)]
  }

  /** The value written by a string of decimal digits. */
  function ParseDecimal(s: string): nat
    requires AllDigits(s)
  {
    if s == [] then 0 else ParseDecimal(s[..|s| - 1]) * 10 + DigitValue(s[|s| - 1])
  }

  /** Rendering a number and reading it back gives the number. */
  lemma {:induction false} DecimalRoundTrip(n: nat)
    ensures ParseDecimal(Decimal(n)) == n
    decreases n
  {
    if n >= 10 {
      DecimalRoundTrip(n / 10);
      var s := Decimal(n);
      assert s[..|s| - 1] == Decimal(n / 10);
    }
  }

  /** Distinct numbers have distinct decimal renderings. */
  lemma DecimalInjective(m: nat, n: nat)
    ensures Decimal(m) == Decimal(n) ==> m == n
  {
    DecimalRoundTrip(m);
    DecimalRoundTrip(n);
  }

  /** The rendering of an integer, with a leading minus sign when negative. */
  function IntToString(i: int): (s: string)
    ensures s != []
    ensures i >= 0 ==> AllDigits(s)
    ensures i < 0 ==> s[0] == '-' && AllDigits(s[1..])
  {
    if i < 0 then "-" + Decimal(-i) else Decimal(i)
  }

  /** `a + sep + b == a + sep + c` only when `b == c`: a common prefix cancels. */
  lemma PrefixCancel(p: string, b: string, c: string)
    ensures p + b == p + c ==> b == c
  {
    if p + b == p + c {
      assert b == (p + b)[|p|..];
      assert c == (p + c)[|p|..];
    }
  }

  /** Ids of the form `prefix + Decimal(k)` are distinct for distinct `k`. */
  lemma NumberedIdsDistinct(prefix: string, m: nat, n: nat)
    ensures prefix + Decimal(m) == prefix + Decimal(n) ==> m == n
  {
    PrefixCancel(prefix, Decimal(m), Decimal(n));
    DecimalInjective(m, n);
  }

  /** The characters `trim` removes: JavaScript's white space (tab, vertical
      tab, form feed, space, no-break space, byte order mark and the other
      space separators of Unicode) and its line terminators. */
  predicate IsJsWhitespace(c: char) {
    || c == '\t' || c == '\U{000B}' || c == '\U{000C}' || c == ' ' || c == '\U{00A0}' || c == '\U{FEFF}'
    || c == '\U{1680}' || ('\U{2000}' <= c <= '\U{200A}') || c == '\U{202F}' || c == '\U{205F}' || c == '\U{3000}'
    || c == '\n' || c == '\r' || c == '\U{2028}' || c == '\U{2029}'
  }

  predicate AllWhitespace(s: string) {
    forall i :: 0 <= i < |s| ==> IsJsWhitespace(s[i])
  }

  function TrimStart(s: string): string {
    if s != [] && IsJsWhitespace(s[0]) then TrimStart(s[1..]) else s
  }

  function TrimEnd(s: string): string {
    if s != [] && IsJsWhitespace(s[|s| - 1]) then TrimEnd(s[..|s| - 1]) else s
  }

  /** `s.trim()`. */
  function Trim(s: string): string {
    TrimEnd(TrimStart(s))
  }

  /** Trimming the front removes a prefix of white space and stops at the
      first other character. */
  lemma {:induction false} TrimStartFacts(s: string)
    ensures |TrimStart(s)| <= |s| && TrimStart(s) == s[|s| - |TrimStart(s)|..]
    ensures AllWhitespace(s[..|s| - |TrimStart(s)|])
    ensures TrimStart(s) == [] || !IsJsWhitespace(TrimStart(s)[0])
  {
    if s != [] && IsJsWhitespace(s[0]) {
      TrimStartFacts(s[1..]);
      var k := |s| - |TrimStart(s)|;
      assert s[1..][..k - 1] == s[1..k];
    }
  }

  /** Trimming the back removes a suffix of white space and stops at the
      last other character. */
  lemma {:induction false} TrimEndFacts(s: string)
    ensures |TrimEnd(s)| <= |s| && TrimEnd(s) == s[..|TrimEnd(s)|]
    ensures AllWhitespace(s[|TrimEnd(s)|..])
    ensures TrimEnd(s) == [] || !IsJsWhitespace(TrimEnd(s)[|TrimEnd(s)| - 1])
  {
    if s != [] && IsJsWhitespace(s[|s| - 1]) {
      var n := |s| - 1;
      TrimEndFacts(s[..n]);
      var k := |TrimEnd(s)|;
      assert s[..n][..k] == s[..k];
      assert s[k..] == s[..n][k..] + [s[n]];
    }
  }

  /** A string trims to nothing exactly when it is all white space; and
      whatever is left neither starts nor ends with white space and sits
      between a white-space prefix and a white-space suffix. */
  lemma TrimFacts(s: string)
    ensures Trim(s) == "" <==> AllWhitespace(s)
    ensures Trim(s) != "" ==> !IsJsWhitespace(Trim(s)[0]) && !IsJsWhitespace(Trim(s)[|Trim(s)| - 1])
    ensures exists a, b :: s == a + Trim(s) + b && AllWhitespace(a) && AllWhitespace(b)
  {
    var t := TrimStart(s);
    TrimStartFacts(s);
    TrimEndFacts(t);
    var a := s[..|s| - |t|];
    var b := t[|Trim(s)|..];
    assert s == a + t;
    assert t == Trim(s) + b;
    assert s == a + Trim(s) + b;
    if Trim(s) == "" {
      assert b == t;
      assert t == [];
      assert a == s;
    }
  }
}
