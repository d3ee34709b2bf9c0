/** The term-header grammar of the calendar table ("1A Fall", "3B Winter")
    and the label a parsed header is given once the calendar year is known.

        term        := term_number season
        term_number := "1A" | "1B" | "2A" | "2B" | "3A" | "3B" | "4A" | "4B"
        season      := "Fall" | "Winter" | "Spring"

    The header is trimmed of (Unicode) whitespace first. The grammar's
    sequence skips the combinator library's separators (space, tab, carriage
    return, line feed) before each token and after the last one; a
    non-breaking space between the tokens is not a separator. The whole
    trimmed header must be consumed. */
module TermEntries {
  import opened Text

  datatype Season = Fall | Winter | Spring

  datatype TermNumber = T1A | T1B | T2A | T2B | T3A | T3B | T4A | T4B

  datatype TermEntry = TermEntry(number: TermNumber, season: Season)

  /** Why a header was refused: no alternative matched, or text was left over. */
  datatype ParseError = NoMatch | Leftover(remaining: string)

  /** The word the grammar accepts for each season. */
  function SeasonWord(s: Season): string {
    match s
    case Fall => "Fall"
    case Winter => "Winter"
    case Spring => "Spring"
  }

  /** The one-letter abbreviation used in labels: the initial of the season's word. */
  function Short(s: Season): (r: string)
    ensures |r| == 1 && r[0] == SeasonWord(s)[0]
  {
    match s
    case Fall => "F"
    case Winter => "W"
    case Spring => "S"
  }

  /** The abbreviations tell the seasons apart. */
  lemma ShortInjective(a: Season, b: Season)
    requires Short(a) == Short(b)
    ensures a == b
  {
  }

  /** Distinct term numbers display differently. */
  lemma ShowInjective(a: TermNumber, b: TermNumber)
    requires Show(a) == Show(b)
    ensures a == b
  {
    assert Show(a)[0] == Show(b)[0] && Show(a)[1] == Show(b)[1];
  }

  /** The display string of a term number (a level digit and a sub-term letter). */
  function Show(n: TermNumber): (r: string)
    ensures |r| == 2 && '1' <= r[0] <= '4' && (r[1] == 'A' || r[1] == 'B')
  {
    match n
    case T1A => "1A"
    case T1B => "1B"
    case T2A => "2A"
    case T2B => "2B"
    case T3A => "3A"
    case T3B => "3B"
    case T4A => "4A"
    case T4B => "4B"
  }

  /** `term_number`: ordered alternation of the eight literal codes. */
  function ParseTermNumber(s: string): (r: Parsed<TermNumber>)
    ensures r.Done? ==> s == Show(r.value) + r.rest
    ensures r.Fail? ==> forall n :: !(Show(n) <= s)
  {
    if "1A" <= s then Done(T1A, s[2..])
    else if "1B" <= s then Done(T1B, s[2..])
    else if "2A" <= s then Done(T2A, s[2..])
    else if "2B" <= s then Done(T2B, s[2..])
    else if "3A" <= s then Done(T3A, s[2..])
    else if "3B" <= s then Done(T3B, s[2..])
    else if "4A" <= s then Done(T4A, s[2..])
    else if "4B" <= s then Done(T4B, s[2..])
    else Fail
  }

  /** `season`: ordered alternation of the three literal season words. */
  function ParseSeason(s: string): (r: Parsed<Season>)
    ensures r.Done? ==> s == SeasonWord(r.value) + r.rest
    ensures r.Fail? ==> forall x :: !(SeasonWord(x) <= s)
  {
    if "Fall" <= s then Done(Fall, s[4..])
    else if "Winter" <= s then Done(Winter, s[6..])
    else if "Spring" <= s then Done(Spring, s[6..])
    else Fail
  }

  /** `term_entry`: separators, a term number, separators, a season, and
      the separators after it. */
  function TermEntryRule(s: string): (r: Parsed<TermEntry>)
    ensures r.Done? ==> StartsNot(r.rest, IsSp)
  {
    match ParseTermNumber(SkipSp(s))
    case Fail => Fail
    case Done(number, s1) =>
      match ParseSeason(SkipSp(s1))
      case Fail => Fail
      case Done(season, s2) => Done(TermEntry(number, season), SkipSp(s2))
  }

  /** `TermEntry::parse`: trim, parse, and insist that nothing is left over.
      What it accepts is, once trimmed, exactly the display of a code,
      separators and a season word. */
  function Parse(text: string): (r: Result<TermEntry, ParseError>)
    ensures r.Ok? ==> exists w :: AllChars(w, IsSp) && Trim(text) == Show(r.value.number) + w + SeasonWord(r.value.season)
    ensures r.Err? && r.error.Leftover? ==> r.error.remaining != [] && StartsNot(r.error.remaining, IsSp)
  {
    ParseTrimmed(Trim(text))
  }

  /** `term_entry` on the trimmed header, which must be read whole. */
  function ParseTrimmed(t: string): (r: Result<TermEntry, ParseError>)
    requires t == [] || (!IsWhitespace(t[0]) && !IsWhitespace(t[|t| - 1]))
    ensures r.Ok? ==> exists w :: AllChars(w, IsSp) && t == Show(r.value.number) + w + SeasonWord(r.value.season)
    ensures r.Err? && r.error.Leftover? ==> r.error.remaining != [] && StartsNot(r.error.remaining, IsSp)
  {
    match TermEntryRule(t)
    case Fail => Err(NoMatch)
    case Done(entry, rest) =>
      if rest == [] then
        TermEntryRuleAcceptsOnly(t);
        Ok(entry)
      else Err(Leftover(rest))
  }

  /** Winter is the term in which a new calendar year begins. */
  predicate IsCalendarYearStart(e: TermEntry) {
    e.season == Winter
  }

  /** The terms that start a calendar year are exactly those whose label
      carries the season letter 'W'. */
  lemma YearStartLabel(e: TermEntry, year: nat)
    ensures IsCalendarYearStart(e) <==> FormatWithYear(e, year)[3] == 'W'
  {
    var name := FormatWithYear(e, year);
    assert name[3] == name[3..4][0] == Short(e.season)[0];
  }

  /** `format_with_year`: "{number} {season letter}{last two digits of year}".
      The label splits back into its parts: the two-character code, a space,
      the season letter, and the plain decimal of `year mod 100`. */
  function FormatWithYear(e: TermEntry, year: nat): (name: string)
    ensures 5 <= |name| <= 6
    ensures name[..2] == Show(e.number) && name[2] == ' ' && name[3..4] == Short(e.season)
    ensures AllChars(name[4..], IsDigit) && DecimalValue(name[4..]) == year % 100
    ensures |name| == 5 <==> year % 100 < 10
  {
    var name := Show(e.number) + " " + Short(e.season) + NatToDecimal(year % 100);
    assert name[4..] == NatToDecimal(year % 100);
    name
  }

  // ---------------------------------------------------------------------------
  // Properties

  /** Formatting the parsed code reproduces its source text: every display
      string is accepted by the code parser, for the code it displays. */
  lemma ParseShow(n: TermNumber, rest: string)
    ensures ParseTermNumber(Show(n) + rest) == Done(n, rest)
  {
    var s := Show(n) + rest;
    assert s[0] == Show(n)[0] && s[1] == Show(n)[1];
    assert s[2..] == rest;
  }

  lemma ParseSeasonWord(x: Season, rest: string)
    ensures ParseSeason(SeasonWord(x) + rest) == Done(x, rest)
  {
    var s := SeasonWord(x) + rest;
    assert s[..|SeasonWord(x)|] == SeasonWord(x);
    assert s[0] == SeasonWord(x)[0];
    assert s[|SeasonWord(x)|..] == rest;
  }

  lemma TermEntryRuleSteps(s: string, n: TermNumber, s1: string, x: Season)
    requires SkipSp(s) == s && ParseTermNumber(s) == Done(n, s1)
    requires ParseSeason(SkipSp(s1)) == Done(x, [])
    ensures TermEntryRule(s) == Done(TermEntry(n, x), [])
  {
  }

  lemma TermEntryRuleAccepts(n: TermNumber, w: string, x: Season)
    requires AllChars(w, IsSp)
    ensures TermEntryRule(Show(n) + w + SeasonWord(x)) == Done(TermEntry(n, x), [])
  {
    var s1 := w + SeasonWord(x);
    var body := Show(n) + s1;
    assert Show(n) + w + SeasonWord(x) == body;
    SkipSpNone(body);
    ParseShow(n, s1);
    SkipSpConcat(w, SeasonWord(x));
    ParseSeasonWordAlone(x);
    TermEntryRuleSteps(body, n, s1, x);
  }

  lemma ParseSeasonWordAlone(x: Season)
    ensures ParseSeason(SeasonWord(x)) == Done(x, [])
  {
    ParseSeasonWord(x, []);
    assert SeasonWord(x) + [] == SeasonWord(x);
  }

  /** Completeness: a code and a season, with any whitespace before, between
      and after, parse to exactly that entry. */
  lemma ParseAccepts(a: string, n: TermNumber, w: string, x: Season, c: string)
    requires IsWhitespaceString(a) && AllChars(w, IsSp) && IsWhitespaceString(c)
    ensures Parse(a + Show(n) + w + SeasonWord(x) + c) == Ok(TermEntry(n, x))
  {
    var code, word := Show(n), SeasonWord(x);
    SeasonWordSolid(x);
    SolidEnds(code, w, word);
    Regroup(a, code, w, word, c);
    TrimAround(a, code + w + word, c);
    TermEntryRuleAccepts(n, w, x);
  }

  lemma SeasonWordSolid(x: Season)
    ensures SeasonWord(x) != [] && !IsWhitespace(SeasonWord(x)[|SeasonWord(x)| - 1])
  {
  }

  /** Text between two solid ends has solid ends. */
  lemma SolidEnds(p: string, w: string, q: string)
    requires p != [] && !IsWhitespace(p[0]) && q != [] && !IsWhitespace(q[|q| - 1])
    ensures var b := p + w + q; b != [] && !IsWhitespace(b[0]) && !IsWhitespace(b[|b| - 1])
  {
    var b := p + w + q;
    assert b[0] == p[0] && b[|b| - 1] == q[|q| - 1];
  }

  lemma Regroup(a: string, p: string, w: string, q: string, c: string)
    ensures a + p + w + q + c == a + (p + w + q) + c
  {
  }

  /** Soundness of the rule on trimmed text: what it reads whole is the
      display of a code, separators and a season word, and nothing else. */
  lemma TermEntryRuleAcceptsOnly(t: string)
    requires TermEntryRule(t).Done? && TermEntryRule(t).rest == []
    requires t == [] || (!IsWhitespace(t[0]) && !IsWhitespace(t[|t| - 1]))
    ensures exists w :: AllChars(w, IsSp)
              && t == Show(TermEntryRule(t).value.number) + w + SeasonWord(TermEntryRule(t).value.season)
  {
    SkipSpNone(t);
    var r1 := ParseTermNumber(t);
    var s1 := r1.rest;
    var s2 := SkipSp(s1);
    var r2 := ParseSeason(s2);
    var s3 := r2.rest;
    var w := s1[..|s1| - |s2|];
    SplitParts(t, Show(r1.value), s1, w, s2, SeasonWord(r2.value), s3);
    NoTrailingSp(t, Show(r1.value) + w + SeasonWord(r2.value), s3);
  }

  lemma SplitParts(t: string, a: string, s1: string, w: string, s2: string, b: string, s3: string)
    requires t == a + s1 && IsSuffix(s2, s1) && w == s1[..|s1| - |s2|] && s2 == b + s3
    ensures t == a + w + b + s3
  {
    assert s1 == w + s2;
  }

  /** Trimmed text cannot end in separators. */
  lemma NoTrailingSp(t: string, u: string, s3: string)
    requires t == u + s3 && SkipSp(s3) == []
    requires t == [] || !IsWhitespace(t[|t| - 1])
    ensures t == u
  {
    assert s3[..|s3|] == s3;
    assert u + [] == u;
  }

  /** A non-breaking space is whitespace to `trim` but not a separator of
      the grammar: a header with one between its tokens is refused. */
  lemma ParseRejectsNbspSeparator(n: TermNumber, x: Season)
    ensures Parse(Show(n) + [Nbsp] + SeasonWord(x)) == Err(NoMatch)
  {
    var t := Show(n) + [Nbsp] + SeasonWord(x);
    SeasonWordSolid(x);
    SolidEnds(Show(n), [Nbsp], SeasonWord(x));
    TrimAround([], t, []);
    assert [] + t + [] == t;
    RuleRejectsNbsp(n, x);
  }

  lemma RuleRejectsNbsp(n: TermNumber, x: Season)
    ensures TermEntryRule(Show(n) + [Nbsp] + SeasonWord(x)).Fail?
  {
    var rest := [Nbsp] + SeasonWord(x);
    var t := Show(n) + rest;
    assert Show(n) + [Nbsp] + SeasonWord(x) == t;
    SkipSpNone(t);
    ParseShow(n, rest);
    SkipSpNone(rest);
    SeasonNeedsInitial(rest);
  }

  lemma SeasonNeedsInitial(s: string)
    requires s != [] && s[0] != 'F' && s[0] != 'W' && s[0] != 'S'
    ensures ParseSeason(s).Fail?
  {
  }

  /** "1A Fall" parses to code 1A in the Fall. */
  lemma ParseExample(text: string)
    requires text == "1A Fall"
    ensures Parse(text) == Ok(TermEntry(T1A, Fall))
  {
    var e: string := [];
    assert text == e + Show(T1A) + " " + SeasonWord(Fall) + e;
    assert AllChars(" ", IsSp) && IsWhitespaceString(e);
    ParseAccepts(e, T1A, " ", Fall, e);
  }

  /** In 2023 the Fall of 1A is labelled "1A F23"; in 2105 the year wraps to
      "5", without zero padding. */
  lemma FormatExamples(e: TermEntry, y1: nat, y2: nat)
    requires e == TermEntry(T1A, Fall) && y1 == 2023 && y2 == 2105
    ensures FormatWithYear(e, y1) == "1A F23"
    ensures FormatWithYear(e, y2) == "1A F5"
  {
    var d1, d2 := y1 % 100, y2 % 100;
    assert d1 == 23 && d2 == 5;
    assert NatToDecimal(d1) == "23";
    assert NatToDecimal(d2) == "5";
  }

  /** Two labels are equal exactly when they name the same term in years
      with the same last two digits. */
  lemma FormatWithYearInjective(e1: TermEntry, y1: nat, e2: TermEntry, y2: nat)
    ensures FormatWithYear(e1, y1) == FormatWithYear(e2, y2) <==> e1 == e2 && y1 % 100 == y2 % 100
  {
    var l1, l2 := FormatWithYear(e1, y1), FormatWithYear(e2, y2);
    if l1 == l2 {
      assert Show(e1.number) == Show(e2.number);
      ShowInjective(e1.number, e2.number);
      assert Short(e1.season) == Short(e2.season);
      ShortInjective(e1.season, e2.season);
      assert DecimalValue(l1[4..]) == DecimalValue(l2[4..]);
    }
    if e1 == e2 && y1 % 100 == y2 % 100 {
      assert y1 - y1 / 100 * 100 == y2 - y2 / 100 * 100;
    }
  }

  /** Whitespace around the text does not change how it parses. */
  lemma ParseIgnoresOuterWhitespace(a: string, text: string, c: string)
    requires IsWhitespaceString(a) && IsWhitespaceString(c)
    ensures Parse(a + text + c) == Parse(text)
  {
    TrimPadded(a, text, c);
  }
}
