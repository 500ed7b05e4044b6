/**
 * The string primitives the playground relies on: JavaScript's `String.prototype.trim`,
 * `endsWith`, `Array.prototype.join` and the decimal rendering of an integer in a
 * template literal.
 */
module Text {

  /** The code points `trim` strips: ECMAScript's WhiteSpace and LineTerminator. */
  predicate IsJsWhitespace(c: char) {
    c == '\t' || c == '\n' || c == '\U{B}' || c == '\U{C}' || c == '\r' || c == ' '
    || c == '\U{A0}' || c == '\U{1680}' || ('\U{2000}' <= c <= '\U{200A}')
    || c == '\U{2028}' || c == '\U{2029}' || c == '\U{202F}' || c == '\U{205F}'
    || c == '\U{3000}' || c == '\U{FEFF}'
  }

  /** Every character of `s` is whitespace (the empty string included). */
  predicate Blank(s: string) {
    forall i :: 0 <= i < |s| ==> IsJsWhitespace(s[i])
  }

  /** `s` with its leading whitespace removed. */
  function TrimStart(s: string): (r: string)
    ensures |r| <= |s| && r == s[|s| - |r|..]
    ensures forall i :: 0 <= i < |s| - |r| ==> IsJsWhitespace(s[i])
    ensures r == [] || !IsJsWhitespace(r[0])
  {
    if s != [] && IsJsWhitespace(s[0]) then
      var r := TrimStart(s[1..]);
      assert forall i :: 1 <= i < |s| ==> s[1..][i - 1] == s[i];
      r
    else s
  }

  /** `s` with its trailing whitespace removed. */
  function TrimEnd(s: string): (r: string)
    ensures |r| <= |s| && r == s[..|r|]
    ensures forall i :: |r| <= i < |s| ==> IsJsWhitespace(s[i])
    ensures r == [] || !IsJsWhitespace(r[|r| - 1])
  {
    if s != [] && IsJsWhitespace(s[|s| - 1]) then
      var t := s[..|s| - 1];
      var r := TrimEnd(t);
      assert forall i :: 0 <= i < |s| - 1 ==> t[i] == s[i];
      r
    else s
  }

  /** `s.trim()`: the trimmed string is empty exactly when `s` is all whitespace. */
  function Trim(s: string): (r: string)
    ensures r == "" <==> Blank(s)
  {
    TrimmedEmptyIffBlank(s);
    TrimEnd(TrimStart(s))
  }

  lemma {:induction false} TrimmedEmptyIffBlank(s: string)
    ensures TrimEnd(TrimStart(s)) == "" <==> Blank(s)
  {
    var a := TrimStart(s);
    var b := TrimEnd(a);
    var k := |s| - |a|;
    if b != [] {
      assert a[0] == b[0];
      assert s[k] == a[0];
    }
  }

  /** What `trim` leaves neither starts nor ends with whitespace. */
  lemma TrimmedEnds(s: string)
    ensures var r := Trim(s); r == [] || (!IsJsWhitespace(r[0]) && !IsJsWhitespace(r[|r| - 1]))
  {
    var a := TrimStart(s);
    var b := TrimEnd(a);
    assert Trim(s) == b;
    if b != [] {
      assert a[0] == b[0];
    }
  }

  /** `s.endsWith(suffix)`. */
  predicate EndsWith(s: string, suffix: string) {
    |suffix| <= |s| && s[|s| - |suffix|..] == suffix
  }

  /** `xs.join(sep)`. */
  function Join(xs: seq<string>, sep: string): string
  {
    if |xs| == 0 then "" else if |xs| == 1 then xs[0] else xs[0] + sep + Join(xs[1..], sep)
  }

  /** Appending one element to a joined list appends the separator and that element, so the
      text of the earlier elements stays a prefix. */
  lemma {:induction false} JoinSnoc(xs: seq<string>, x: string, sep: string)
    ensures Join(xs + [x], sep) == if xs == [] then x else Join(xs, sep) + sep + x
  {
    if |xs| == 0 {
      assert xs + [x] == [x];
    } else if |xs| == 1 {
      assert (xs + [x])[1..] == [x];
    } else {
      assert (xs + [x])[1..] == xs[1..] + [x];
      JoinSnoc(xs[1..], x, sep);
    }
  }

  function DigitChar(d: nat): (c: char)
    requires d < 10
    ensures '0' <= c <= '9'
  {
    (48 + d) as char
  }

  /** The decimal digits of `n`, most significant first, without leading zeros. */
  function NatToString(n: nat): (r: string)
    ensures |r| >= 1
    decreases n
  {
    if n < 10 then [DigitChar(n)] else NatToString(n / 10) + [DigitChar(n % 10)]
  }

  /** A rendering is all digits, a single one exactly below ten, and it ends in the last
      decimal digit of `n`. */
  lemma {:induction false} NatToStringDigits(n: nat)
    ensures var r := NatToString(n);
      && (|r| == 1 <==> n < 10)
      && (forall i :: 0 <= i < |r| ==> '0' <= r[i] <= '9')
      && r[|r| - 1] == DigitChar(n % 10)
    decreases n
  {
    if n >= 10 {
      NatToStringDigits(n / 10);
    }
  }

  /** `String(i)` for an integer-valued number. */
  function IntToString(i: int): (r: string)
    ensures i < 0 ==> r == "-" + NatToString(-i)
    ensures i >= 0 ==> r == NatToString(i)
  {
    if i < 0 then "-" + NatToString(-i) else NatToString(i)
  }

  /** Distinct naturals have distinct decimal renderings. */
  lemma {:induction false} NatToStringInjective(a: nat, b: nat)
    requires NatToString(a) == NatToString(b)
    ensures a == b
    decreases a
  {
    var ra, rb := NatToString(a), NatToString(b);
    NatToStringDigits(a);
    NatToStringDigits(b);
    if a >= 10 {
      assert b >= 10;
      assert DigitChar(a % 10) == DigitChar(b % 10) by { assert ra[|ra| - 1] == rb[|rb| - 1]; }
      var pa, pb := NatToString(a / 10), NatToString(b / 10);
      assert ra == pa + [DigitChar(a % 10)] && rb == pb + [DigitChar(b % 10)];
      assert pa == ra[..|ra| - 1] && pb == rb[..|rb| - 1];
      NatToStringInjective(a / 10, b / 10);
    } else {
      assert b < 10;
      assert ra[0] == rb[0];
    }
  }

  /** Distinct integers have distinct renderings: a negative one starts with '-', which
      no digit string does. */
  lemma {:induction false} IntToStringInjective(a: int, b: int)
    requires IntToString(a) == IntToString(b)
    ensures a == b
  {
    var ra, rb := IntToString(a), IntToString(b);
    if a < 0 && b < 0 {
      var na, nb := NatToString(-a), NatToString(-b);
      assert ra == "-" + na && rb == "-" + nb;
      assert na == ra[1..] && nb == rb[1..];
      NatToStringInjective(-a, -b);
    } else if a >= 0 && b >= 0 {
      NatToStringInjective(a, b);
    } else {
      LeadingChar(a);
      LeadingChar(b);
      assert false;
    }
  }

  /** Only a negative number renders with a leading '-'. */
  lemma LeadingChar(i: int)
    ensures |IntToString(i)| >= 1
    ensures (IntToString(i)[0] == '-') == (i < 0)
  {
    if i >= 0 {
      NatToStringDigits(i);
      assert '0' <= NatToString(i)[0] <= '9';
    }
  }
}
