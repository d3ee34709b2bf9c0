/** Character classes, whitespace handling, take-while scanning and decimal
    numbers shared by the two calendar grammars.

    The Unicode character classes the grammars test (`char::is_uppercase`,
    `char::is_alphabetic`, `char::is_whitespace`) are abstracted to their ASCII
    members; U+00A0 (the non-breaking space the calendar pages contain) is
    counted as whitespace, as Unicode does. */
module Text {

  datatype Option<+T> = None | Some(value: T) {
    function GetOr(default: T): T {
      match this
      case Some(v) => v
      case None => default
    }
  }

  datatype Result<+T, +E> = Ok(value: T) | Err(error: E)

  /** Outcome of one sub-parser: no match, or a value and the input it left. */
  datatype Parsed<+T> = Fail | Done(value: T, rest: string)

  const Nbsp: char := '\U{00A0}'

  predicate IsWhitespace(c: char) {
    c == ' ' || c == '\t' || c == '\n' || c == '\r' || c == '\U{000B}' || c == '\U{000C}' || c == Nbsp
  }

  predicate IsUppercase(c: char) {
    'A' <= c <= 'Z'
  }

  predicate IsAlphabetic(c: char) {
    IsUppercase(c) || 'a' <= c <= 'z'
  }

  /** `char::is_digit(10)`: ASCII decimal digits only. */
  predicate IsDigit(c: char) {
    '0' <= c <= '9'
  }

  predicate AllChars(s: string, p: char -> bool) {
    forall i :: 0 <= i < |s| ==> p(s[i])
  }

  /** `s` is empty or does not begin with a character satisfying `p`. */
  predicate StartsNot(s: string, p: char -> bool) {
    s == [] || !p(s[0])
  }

  predicate IsSuffix(r: string, s: string) {
    |r| <= |s| && r == s[|s| - |r|..]
  }

  predicate IsWhitespaceString(w: string) {
    AllChars(w, IsWhitespace)
  }

  /** Length of the longest prefix of `s` whose characters all satisfy `p`
      (the combinator library's `take_while`). */
  function SpanWhile(s: string, p: char -> bool): (n: nat)
    ensures n <= |s|
    ensures AllChars(s[..n], p)
    ensures StartsNot(s[n..], p)
  {
    if s == [] || !p(s[0]) then 0 else 1 + SpanWhile(s[1..], p)
  }

  /** The scan stops exactly at the first character failing `p`. */
  lemma {:induction false} SpanWhileConcat(a: string, b: string, p: char -> bool)
    requires AllChars(a, p) && StartsNot(b, p)
    ensures SpanWhile(a + b, p) == |a|
  {
    if a != [] {
      assert (a + b)[1..] == a[1..] + b;
      SpanWhileConcat(a[1..], b, p);
    }
  }

  /** The `whitespace` parser: skips leading whitespace, never fails. */
  function SkipWs(s: string): (r: string)
    ensures IsSuffix(r, s)
    ensures IsWhitespaceString(s[..|s| - |r|])
    ensures StartsNot(r, IsWhitespace)
  {
    s[SpanWhile(s, IsWhitespace)..]
  }

  lemma SkipWsConcat(w: string, r: string)
    requires IsWhitespaceString(w) && StartsNot(r, IsWhitespace)
    ensures SkipWs(w + r) == r
  {
    SpanWhileConcat(w, r, IsWhitespace);
    assert (w + r)[|w|..] == r;
  }

  lemma SkipWsNone(s: string)
    requires StartsNot(s, IsWhitespace)
    ensures SkipWs(s) == s
  {
    SkipWsConcat([], s);
    assert [] + s == s;
  }

  /** A character outside the class does not occur in a string of the class. */
  lemma NotIn(s: string, p: char -> bool, c: char)
    requires AllChars(s, p) && !p(c)
    ensures c !in s
  {
  }

  /** The separator the combinator library's own `ws!` skips: space, tab,
      carriage return and line feed (narrower than `IsWhitespace`). */
  predicate IsSp(c: char) {
    c == ' ' || c == '\t' || c == '\r' || c == '\n'
  }

  /** The library's `sp`: skips leading separators, never fails. */
  function SkipSp(s: string): (r: string)
    ensures IsSuffix(r, s)
    ensures AllChars(s[..|s| - |r|], IsSp)
    ensures StartsNot(r, IsSp)
  {
    s[SpanWhile(s, IsSp)..]
  }

  lemma SkipSpConcat(w: string, r: string)
    requires AllChars(w, IsSp) && StartsNot(r, IsSp)
    ensures SkipSp(w + r) == r
  {
    SpanWhileConcat(w, r, IsSp);
    assert (w + r)[|w|..] == r;
  }

  lemma SkipSpNone(s: string)
    requires StartsNot(s, IsSp)
    ensures SkipSp(s) == s
  {
    SkipSpConcat([], s);
    assert [] + s == s;
  }

  /** Drops trailing whitespace. */
  function TrimEnd(s: string): (r: string)
    ensures r <= s
    ensures IsWhitespaceString(s[|r|..])
    ensures r == [] || !IsWhitespace(r[|r| - 1])
  {
    if s != [] && IsWhitespace(s[|s| - 1]) then TrimEnd(s[..|s| - 1]) else s
  }

  /** `str::trim`. */
  function Trim(s: string): (r: string)
    ensures r == [] || (!IsWhitespace(r[0]) && !IsWhitespace(r[|r| - 1]))
    ensures StartsNot(s, IsWhitespace) && s != [] ==> r != [] && r[0] == s[0]
  {
    TrimEnd(SkipWs(s))
  }

  /** What `Trim` keeps is a slice of its input, with only whitespace cut
      from either side. */
  lemma TrimSlice(s: string) returns (i: nat, j: nat)
    ensures i <= j <= |s| && Trim(s) == s[i..j]
    ensures IsWhitespaceString(s[..i]) && IsWhitespaceString(s[j..])
  {
    var t := SkipWs(s);
    var r := TrimEnd(t);
    i, j := |s| - |t|, |s| - |t| + |r|;
    assert r == s[i..j];
    assert s[j..] == t[|r|..];
  }

  lemma TrimAllChars(s: string, p: char -> bool)
    requires AllChars(s, p)
    ensures AllChars(Trim(s), p)
  {
    var i, j := TrimSlice(s);
    assert forall k :: 0 <= k < j - i ==> Trim(s)[k] == s[i + k];
  }

  lemma {:induction false} TrimEndConcat(x: string, w: string)
    requires IsWhitespaceString(w)
    requires x == [] || !IsWhitespace(x[|x| - 1])
    ensures TrimEnd(x + w) == x
    decreases |w|
  {
    if w == [] {
      assert x + w == x;
    } else {
      var w' := w[..|w| - 1];
      assert (x + w)[..|x + w| - 1] == x + w';
      TrimEndConcat(x, w');
    }
  }

  /** Whitespace around a word that neither begins nor ends with whitespace
      is exactly what `Trim` removes. */
  lemma TrimAround(a: string, x: string, c: string)
    requires IsWhitespaceString(a) && IsWhitespaceString(c)
    requires x != [] && !IsWhitespace(x[0]) && !IsWhitespace(x[|x| - 1])
    ensures Trim(a + x + c) == x
  {
    assert a + x + c == a + (x + c);
    SkipWsConcat(a, x + c);
    TrimEndConcat(x, c);
  }

  /** One leading whitespace character is skipped like the rest. */
  lemma SkipWsStep(s: string)
    requires s != [] && IsWhitespace(s[0])
    ensures SkipWs(s) == SkipWs(s[1..])
  {
    assert SpanWhile(s, IsWhitespace) == 1 + SpanWhile(s[1..], IsWhitespace);
  }

  lemma {:induction false} SkipWsLeading(a: string, s: string)
    requires IsWhitespaceString(a)
    ensures SkipWs(a + s) == SkipWs(s)
  {
    if a != [] {
      assert (a + s)[1..] == a[1..] + s;
      SkipWsStep(a + s);
      SkipWsLeading(a[1..], s);
    } else {
      assert a + s == s;
    }
  }

  lemma {:induction false} SkipWsTrailing(t: string, c: string)
    requires IsWhitespaceString(c)
    ensures SkipWs(t) != [] ==> SkipWs(t + c) == SkipWs(t) + c
    ensures SkipWs(t) == [] ==> SkipWs(t + c) == []
  {
    if t == [] {
      SkipWsConcat(c, []);
      assert t + c == c + [];
    } else if IsWhitespace(t[0]) {
      assert (t + c)[1..] == t[1..] + c;
      SkipWsStep(t);
      SkipWsStep(t + c);
      SkipWsTrailing(t[1..], c);
    } else {
      SkipWsNone(t);
      SkipWsNone(t + c);
    }
  }

  lemma {:induction false} TrimEndTrailing(u: string, c: string)
    requires IsWhitespaceString(c)
    ensures TrimEnd(u + c) == TrimEnd(u)
    decreases |c|
  {
    if c == [] {
      assert u + c == u;
    } else {
      var c' := c[..|c| - 1];
      assert (u + c)[..|u + c| - 1] == u + c';
      TrimEndTrailing(u, c');
    }
  }

  /** Trimming ignores any whitespace added around the text. */
  lemma TrimPadded(a: string, t: string, c: string)
    requires IsWhitespaceString(a) && IsWhitespaceString(c)
    ensures Trim(a + t + c) == Trim(t)
  {
    assert a + t + c == a + (t + c);
    SkipWsLeading(a, t + c);
    SkipWsTrailing(t, c);
    if SkipWs(t) != [] {
      TrimEndTrailing(SkipWs(t), c);
    }
  }

  // ---------------------------------------------------------------------------
  // Combinators

  /** `tag!`: the literal `lit` at the start of the input. */
  function Tag(lit: string, s: string): (r: Parsed<()>)
    ensures r.Done? <==> lit <= s
    ensures r.Done? ==> s == lit + r.rest
  {
    if lit <= s then Done((), s[|lit|..]) else Fail
  }

  /** `take_while1!`: a non-empty maximal run of characters satisfying `p`. */
  function TakeWhile1(s: string, p: char -> bool): (r: Parsed<string>)
    ensures r.Done? <==> s != [] && p(s[0])
    ensures r.Done? ==> r.value != [] && AllChars(r.value, p) && s == r.value + r.rest
    ensures r.Done? ==> StartsNot(r.rest, p)
  {
    var n := SpanWhile(s, p);
    if n == 0 then Fail else Done(s[..n], s[n..])
  }

  lemma TakeWhile1Concat(a: string, b: string, p: char -> bool)
    requires a != [] && AllChars(a, p) && StartsNot(b, p)
    ensures TakeWhile1(a + b, p) == Done(a, b)
  {
    SpanWhileConcat(a, b, p);
    assert (a + b)[..|a|] == a && (a + b)[|a|..] == b;
  }

  /** `opt!`: the value if the parser matched (with the input it left),
      otherwise nothing and the input unchanged. */
  function Opt<T>(p: Parsed<T>, s: string): (r: (Option<T>, string))
    ensures p.Fail? ==> r == (None, s)
    ensures p.Done? ==> r == (Some(p.value), p.rest)
  {
    match p
    case Done(v, rest) => (Some(v), rest)
    case Fail => (None, s)
  }

  // ---------------------------------------------------------------------------
  // Decimal numbers

  function DigitValue(c: char): (d: nat)
    requires IsDigit(c)
    ensures d < 10
  {
    c as int - '0' as int
  }

  function DigitChar(d: nat): (c: char)
    requires d < 10
    ensures IsDigit(c) && DigitValue(c) == d
  {
    ('0' as int + d) as char
  }

  /** The value of a run of decimal digits, most significant first
      (`parse_to!(u32)` without the 32-bit bound). */
  function DecimalValue(s: string): nat
    requires AllChars(s, IsDigit)
  {
    if s == [] then 0 else DecimalValue(s[..|s| - 1]) * 10 + DigitValue(s[|s| - 1])
  }

  /** The plain decimal rendering of `n` (Rust's `{}` for integers): no sign,
      no zero padding. */
  function NatToDecimal(n: nat): (s: string)
    ensures s != [] && AllChars(s, IsDigit)
    ensures DecimalValue(s) == n
    ensures s[0] == '0' ==> n == 0
    ensures |s| == 1 <==> n < 10
  {
    if n < 10 then [DigitChar(n)]
    else
      var s := NatToDecimal(n / 10) + [DigitChar(n % 10)];
      assert s[..|s| - 1] == NatToDecimal(n / 10);
      s
  }

  /** Distinct numbers have distinct decimal renderings. */
  lemma NatToDecimalInjective(m: nat, n: nat)
    requires NatToDecimal(m) == NatToDecimal(n)
    ensures m == n
  {
    assert DecimalValue(NatToDecimal(m)) == DecimalValue(NatToDecimal(n));
  }
}
