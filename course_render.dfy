/** Writing a course entry back as calendar text, and the round trips that
    show the course-cell grammar reads every well-formed entry back from its
    text, in each of the layouts the calendar uses. */
module CourseRendering {
  import opened Text
  import opened CourseEntries

  // ---------------------------------------------------------------------------
  // Notes references

  /** How the last number of a notes list is attached: "1, 2, 3",
      "1, 2 and 3" or "1, 2, and 3". */
  datatype Joiner = CommaJoin | AndJoin | CommaAndJoin

  function LastJoin(j: Joiner): string {
    match j
    case CommaJoin => ", "
    case AndJoin => " and "
    case CommaAndJoin => ", and "
  }

  /** ", x" */
  function ItemText(x: nat): string {
    ", " + NatToDecimal(x)
  }

  /** The last number with its joiner: ", x", " and x" or ", and x". */
  function FinalText(j: Joiner, x: nat): string {
    LastJoin(j) + NatToDecimal(x)
  }

  /** The closing parenthesis and whatever follows the reference. */
  function Closed(rest: string): string {
    ")" + rest
  }

  /** ", x1, x2, ..." */
  function CommaList(xs: seq<nat>): (t: string)
    ensures xs != [] ==> t != [] && t[0] == ','
    ensures '/' !in t
  {
    if xs == [] then "" else ItemText(xs[0]) + CommaList(xs[1..])
  }

  /** Everything after the first number of a notes list. */
  function NotesTail(ms: seq<nat>, j: Joiner): (t: string)
    ensures ms != [] ==> t != [] && (t[0] == ',' || t[0] == ' ')
    ensures '/' !in t
  {
    if ms == [] then ""
    else CommaList(ms[..|ms| - 1]) + FinalText(j, ms[|ms| - 1])
  }

  function NotesOpening(ns: seq<nat>): string {
    "(see note" + (if |ns| > 1 then "s" else "")
  }

  /** "(see note 5)", "(see notes 1 and 2)", "(see notes 1, 2, 3, and 4)". */
  function NotesText(ns: seq<nat>, j: Joiner): (t: string)
    requires ns != []
    ensures t != [] && t[0] == '(' && t[|t| - 1] == ')'
    ensures '/' !in t
  {
    NotesOpening(ns) + " " + NatToDecimal(ns[0]) + NotesTail(ns[1..], j) + ")"
  }

  function Spaced(s: string): string {
    " " + s
  }

  function CommaThen(s: string): string {
    "," + s
  }

  /** "and x" followed by the text after it. */
  function AndClause(x: nat, u: string): string {
    "and " + NatToDecimal(x) + u
  }

  /** A single space before text that does not begin with whitespace is
      skipped. */
  lemma SkipSpace(a: string)
    requires StartsNot(a, IsWhitespace)
    ensures SkipWs(Spaced(a)) == a
  {
    SkipWsConcat(" ", a);
  }

  lemma ConsSplit<T>(xs: seq<T>)
    requires xs != []
    ensures [xs[0]] + xs[1..] == xs
  {
  }

  lemma NatRoundTrip(n: nat, rest: string)
    requires StartsNot(rest, IsDigit)
    ensures Nat(NatToDecimal(n) + rest) == Done(n, rest)
  {
    TakeWhile1Concat(NatToDecimal(n), rest, IsDigit);
  }

  /** A space then a number: the number is read. */
  lemma SpacedNat(n: nat, rest: string)
    requires StartsNot(rest, IsDigit)
    ensures Nat(SkipWs(Spaced(NatToDecimal(n) + rest))) == Done(n, rest)
  {
    SkipSpace(NatToDecimal(n) + rest);
    NatRoundTrip(n, rest);
  }

  lemma CommaNatItem(x: nat, u: string)
    requires StartsNot(u, IsDigit)
    ensures CommaNat(ItemText(x) + u) == Done(x, u)
  {
    var s := ItemText(x) + u;
    SkipWsNone(s);
    assert s[1..] == Spaced(NatToDecimal(x) + u);
    SpacedNat(x, u);
  }

  lemma CommaNatsStop(s: string)
    requires CommaNat(s).Fail?
    ensures CommaNats(s) == ([], s)
  {
  }

  lemma CommaListCons(xs: seq<nat>, t: string)
    requires xs != []
    ensures CommaList(xs) + t == ItemText(xs[0]) + (CommaList(xs[1..]) + t)
    ensures StartsNot(t, IsDigit) ==> StartsNot(CommaList(xs[1..]) + t, IsDigit)
  {
    if xs[1..] == [] {
      assert CommaList(xs[1..]) + t == t;
    } else {
      assert (CommaList(xs[1..]) + t)[0] == ',';
    }
  }

  lemma CommaNatsCons(x: nat, u: string, more: seq<nat>, after: string)
    requires StartsNot(u, IsDigit) && CommaNats(u) == (more, after)
    ensures CommaNats(ItemText(x) + u) == ([x] + more, after)
  {
    CommaNatItem(x, u);
  }

  /** `many0` over a comma list reads exactly its numbers and stops where
      the next item fails. */
  lemma {:induction false} CommaNatsList(xs: seq<nat>, t: string)
    requires CommaNat(t).Fail? && StartsNot(t, IsDigit)
    ensures CommaNats(CommaList(xs) + t) == (xs, t)
  {
    if xs == [] {
      assert CommaList(xs) + t == t;
      CommaNatsStop(t);
    } else {
      CommaNatsList(xs[1..], t);
      CommaListCons(xs, t);
      CommaNatsCons(xs[0], CommaList(xs[1..]) + t, xs[1..], t);
      ConsSplit(xs);
    }
  }

  lemma {:induction false} CommaListSnoc(xs: seq<nat>, x: nat)
    ensures CommaList(xs + [x]) == CommaList(xs) + ItemText(x)
  {
    if xs != [] {
      assert (xs + [x])[1..] == xs[1..] + [x];
      CommaListSnoc(xs[1..], x);
    } else {
      assert CommaList([x][1..]) == "";
    }
  }

  /** At the closing parenthesis neither another item nor "and" matches,
      and the reference ends. */
  lemma AtClose(rest: string)
    ensures NotesClose(Closed(rest)) == Done((), rest)
    ensures AndNat(SkipWs(Closed(rest))).Fail?
    ensures CommaNat(Closed(rest)).Fail?
    ensures SkipWs(Closed(rest)) == Closed(rest)
    ensures StartsNot(Closed(rest), IsDigit)
  {
    SkipWsNone(Closed(rest));
  }

  lemma AndClauseRead(x: nat, u: string)
    requires StartsNot(u, IsDigit)
    ensures SkipWs(AndClause(x, u)) == AndClause(x, u)
    ensures AndClause(x, u)[0] == 'a' && "and" <= AndClause(x, u)
    ensures Nat(SkipWs(AndClause(x, u)[3..])) == Done(x, u)
  {
    var a := AndClause(x, u);
    SkipWsNone(a);
    assert a[3..] == Spaced(NatToDecimal(x) + u);
    SpacedNat(x, u);
  }

  lemma FinalTextShape(j: Joiner, x: nat, u: string)
    ensures j == AndJoin ==> FinalText(j, x) + u == Spaced(AndClause(x, u))
    ensures j == CommaAndJoin ==> FinalText(j, x) + u == CommaThen(Spaced(AndClause(x, u)))
    ensures j == CommaJoin ==> FinalText(j, x) + u == ItemText(x) + u
    ensures StartsNot(FinalText(j, x) + u, IsDigit)
  {
  }

  lemma AndNatAfterSpace(a: string, x: nat, u: string)
    requires a != [] && a[0] == 'a' && SkipWs(a) == a && "and" <= a
    requires Nat(SkipWs(a[3..])) == Done(x, u)
    ensures AndNat(SkipWs(Spaced(a))) == Done(x, u)
    ensures CommaNat(Spaced(a)).Fail?
  {
    SkipSpace(a);
  }

  lemma CommaThenParts(t: string)
    ensures CommaThen(t) != [] && CommaThen(t)[0] == ',' && CommaThen(t)[1..] == t
    ensures SkipWs(CommaThen(t)) == CommaThen(t)
  {
    SkipWsNone(CommaThen(t));
  }

  lemma AndNatCommaSteps(s: string, a: string, x: nat, u: string)
    requires s != [] && s[0] == ',' && SkipWs(s) == s && SkipWs(s[1..]) == a
    requires a != [] && a[0] == 'a' && "and" <= a && Nat(SkipWs(a[3..])) == Done(x, u)
    ensures AndNat(SkipWs(s)) == Done(x, u)
    ensures CommaNat(s).Fail?
  {
  }

  lemma AndNatAfterComma(a: string, x: nat, u: string)
    requires a != [] && a[0] == 'a' && SkipWs(a) == a && "and" <= a
    requires Nat(SkipWs(a[3..])) == Done(x, u)
    ensures AndNat(SkipWs(CommaThen(Spaced(a)))) == Done(x, u)
    ensures CommaNat(CommaThen(Spaced(a))).Fail?
  {
    var s := CommaThen(Spaced(a));
    CommaThenParts(Spaced(a));
    SkipSpace(a);
    AndNatCommaSteps(s, a, x, u);
  }

  /** The last item, after " and " or ", and ". */
  lemma AndNatItem(j: Joiner, x: nat, u: string)
    requires j != CommaJoin && StartsNot(u, IsDigit)
    ensures AndNat(SkipWs(FinalText(j, x) + u)) == Done(x, u)
    ensures CommaNat(FinalText(j, x) + u).Fail?
  {
    FinalTextShape(j, x, u);
    AndClauseRead(x, u);
    if j == AndJoin {
      AndNatAfterSpace(AndClause(x, u), x, u);
    } else {
      AndNatAfterComma(AndClause(x, u), x, u);
    }
  }

  lemma NotesMoreStepsNone(s: string, more: seq<nat>, s1: string)
    requires CommaNats(s) == (more, s1) && AndNat(SkipWs(s1)).Fail?
    ensures NotesMore(s) == (more, SkipWs(s1))
  {
    assert more + [] == more;
  }

  lemma NotesMoreStepsSome(s: string, more: seq<nat>, s1: string, x: nat, s2: string)
    requires CommaNats(s) == (more, s1) && AndNat(SkipWs(s1)) == Done(x, s2)
    ensures NotesMore(s) == (more + [x], s2)
  {
  }

  lemma SnocSplit<T>(xs: seq<T>)
    requires xs != []
    ensures xs[..|xs| - 1] + [xs[|xs| - 1]] == xs
  {
  }

  lemma NotesTailShape(ms: seq<nat>, j: Joiner, c: string)
    requires ms != []
    ensures NotesTail(ms, j) + c == CommaList(ms[..|ms| - 1]) + (FinalText(j, ms[|ms| - 1]) + c)
  {
  }

  lemma NotesTailCommas(ms: seq<nat>, c: string)
    requires ms != []
    ensures NotesTail(ms, CommaJoin) + c == CommaList(ms) + c
  {
    var init, x := ms[..|ms| - 1], ms[|ms| - 1];
    CommaListSnoc(init, x);
    SnocSplit(ms);
    assert NotesTail(ms, CommaJoin) == CommaList(init) + ItemText(x);
  }

  /** No more items: only the closing parenthesis follows. */
  lemma NotesMoreNone(c: string, rest: string)
    requires c == Closed(rest)
    ensures NotesMore(c) == ([], c)
  {
    AtClose(rest);
    CommaNatsStop(c);
    NotesMoreStepsNone(c, [], c);
  }

  /** Items joined by commas only. */
  lemma NotesMoreCommas(ms: seq<nat>, c: string, rest: string)
    requires c == Closed(rest)
    ensures NotesMore(CommaList(ms) + c) == (ms, c)
  {
    AtClose(rest);
    CommaNatsList(ms, c);
    NotesMoreStepsNone(CommaList(ms) + c, ms, c);
  }

  /** Items whose last one is attached with "and". */
  lemma NotesMoreAnd(init: seq<nat>, j: Joiner, x: nat, c: string, rest: string)
    requires j != CommaJoin && c == Closed(rest)
    ensures NotesMore(CommaList(init) + (FinalText(j, x) + c)) == (init + [x], c)
  {
    AtClose(rest);
    var u := FinalText(j, x) + c;
    FinalTextShape(j, x, c);
    AndNatItem(j, x, c);
    CommaNatsList(init, u);
    NotesMoreStepsSome(CommaList(init) + u, init, u, x, c);
  }

  /** The numbers after the first are read back as written, up to the
      closing parenthesis. */
  lemma NotesMoreText(ms: seq<nat>, j: Joiner, rest: string)
    ensures NotesMore(NotesTail(ms, j) + Closed(rest)) == (ms, Closed(rest))
  {
    var c := Closed(rest);
    if ms == [] {
      assert NotesTail(ms, j) + c == c;
      NotesMoreNone(c, rest);
    } else if j == CommaJoin {
      NotesTailCommas(ms, c);
      NotesMoreCommas(ms, c, rest);
    } else {
      NotesTailShape(ms, j, c);
      NotesMoreAnd(ms[..|ms| - 1], j, ms[|ms| - 1], c, rest);
      SnocSplit(ms);
    }
  }

  /** The steps of the notes parser, one after the other. */
  lemma NotesSteps(s: string, s1: string, first: nat, s2: string, more: seq<nat>, s3: string,
                   rest: string)
    requires NotesOpen(s) == Done((), s1)
    requires Nat(SkipWs(s1)) == Done(first, s2)
    requires NotesMore(s2) == (more, s3)
    requires NotesClose(s3) == Done((), rest)
    ensures Notes(s) == Done([first] + more, rest)
  {
  }

  lemma NotesOpenText(ns: seq<nat>, u: string)
    requires u == [] || u[0] != 's'
    ensures NotesOpen(NotesOpening(ns) + u) == Done((), u)
  {
    var s := NotesOpening(ns) + u;
    SkipWsNone(s);
    assert s[..9] == "(see note";
    if |ns| > 1 {
      assert s[9..] == "s" + u;
    } else {
      assert s[9..] == u;
    }
  }

  lemma NotesTextShape(ns: seq<nat>, j: Joiner, rest: string)
    requires ns != []
    ensures NotesText(ns, j) + rest
            == NotesOpening(ns) + Spaced(NatToDecimal(ns[0]) + (NotesTail(ns[1..], j) + Closed(rest)))
  {
  }

  lemma NotesTailStart(ms: seq<nat>, j: Joiner, rest: string)
    ensures StartsNot(NotesTail(ms, j) + Closed(rest), IsDigit)
  {
    if ms == [] {
      assert NotesTail(ms, j) + Closed(rest) == Closed(rest);
    } else {
      assert (NotesTail(ms, j) + Closed(rest))[0] == NotesTail(ms, j)[0];
    }
  }

  /** Round trip: a notes reference is read back as the list it was written
      from, whatever follows it. */
  lemma NotesRoundTrip(ns: seq<nat>, j: Joiner, rest: string)
    requires ns != []
    ensures Notes(NotesText(ns, j) + rest) == Done(ns, rest)
  {
    var tail := NotesTail(ns[1..], j) + Closed(rest);
    var u := Spaced(NatToDecimal(ns[0]) + tail);
    NotesTextShape(ns, j, rest);
    NotesTailStart(ns[1..], j, rest);
    NotesOpenText(ns, u);
    SpacedNat(ns[0], tail);
    NotesMoreText(ns[1..], j, rest);
    AtClose(rest);
    NotesSteps(NotesText(ns, j) + rest, u, ns[0], tail, ns[1..], Closed(rest), rest);
    ConsSplit(ns);
  }

  // ---------------------------------------------------------------------------
  // Course listings

  /** The whitespace a course listing is written with: between code and
      number, before the credit-only marker and before the title, before the
      footnote glyph, and before the notes. */
  datatype Layout = Layout(code: string, fields: string, footnote: string, notes: string)

  predicate LayoutValid(l: Layout) {
    && IsWhitespaceString(l.code)
    && l.fields != [] && IsWhitespaceString(l.fields)
    && IsWhitespaceString(l.footnote)
    && IsWhitespaceString(l.notes)
  }

  function CreditPart(credit: bool, l: Layout): string {
    if credit then l.fields + "CR/NCR" else ""
  }

  function TitlePart(title: Option<string>, l: Layout): string {
    if title.Some? then l.fields + title.value else ""
  }

  function FootnotePart(f: Option<Footnote>, l: Layout): string {
    if f.Some? then l.footnote + Glyph(f.value) else ""
  }

  function NotesPart(ns: seq<nat>, j: Joiner, w: string): string {
    if ns == [] then "" else w + NotesText(ns, j)
  }

  /** Everything after the course number. */
  function CourseTail(e: CourseEntry, l: Layout, j: Joiner): string
    requires e.Course?
  {
    CreditPart(e.creditOnly, l) + (TitlePart(e.title, l) + (FootnotePart(e.footnote, l) + NotesPart(e.notes, j, l.notes)))
  }

  /** A course listing as the calendar writes it, e.g. "CS 137 Programming
      Principles", "SE 101 Introduction to Methods of Software Engineering**",
      "TPM 000 CR/NCR". */
  function RenderCourse(e: CourseEntry, l: Layout, j: Joiner): string
    requires e.Course?
  {
    e.departmentCode + l.code + e.courseNumber + CourseTail(e, l, j)
  }

  lemma SkipWsIdem(s: string)
    ensures SkipWs(SkipWs(s)) == SkipWs(s)
  {
    SkipWsNone(SkipWs(s));
  }

  lemma AllCharsConcat(a: string, b: string, p: char -> bool)
    requires AllChars(a, p) && AllChars(b, p)
    ensures AllChars(a + b, p)
  {
    forall k | 0 <= k < |a + b|
      ensures p((a + b)[k])
    {
      if k < |a| {
        assert (a + b)[k] == a[k];
      } else {
        assert (a + b)[k] == b[k - |a|];
      }
    }
  }

  lemma WhitespaceTitle(w: string)
    requires IsWhitespaceString(w)
    ensures AllChars(w, IsTitleChar)
  {
  }

  lemma NotesFieldIdem(s: string)
    ensures NotesField(SkipWs(s)) == NotesField(s)
  {
    SkipWsIdem(s);
  }

  lemma FootnoteFieldIdem(s: string)
    ensures FootnoteField(SkipWs(s)) == FootnoteField(s)
  {
    SkipWsIdem(s);
  }

  lemma TitleFieldIdem(s: string)
    ensures TitleField(SkipWs(s)) == TitleField(s)
  {
    SkipWsIdem(s);
  }

  lemma NotesReadAlone(ns: seq<nat>, j: Joiner)
    requires ns != []
    ensures Notes(NotesText(ns, j)) == Done(ns, [])
  {
    NotesRoundTrip(ns, j, []);
    assert NotesText(ns, j) + [] == NotesText(ns, j);
  }

  /** The notes part is read back, and nothing follows it. */
  lemma NotesFieldPart(ns: seq<nat>, j: Joiner, w: string)
    requires IsWhitespaceString(w)
    ensures NotesField(NotesPart(ns, j, w)) == (ns, [])
  {
    if ns != [] {
      NotesPartSkip(ns, j, w);
      NotesReadAlone(ns, j);
    }
  }

  lemma NotesPartSkip(ns: seq<nat>, j: Joiner, w: string)
    requires IsWhitespaceString(w) && ns != []
    ensures SkipWs(NotesPart(ns, j, w)) == NotesText(ns, j)
  {
    SkipWsConcat(w, NotesText(ns, j));
  }

  /** The notes part opens with '(' once its whitespace is skipped, ends
      with ')', and holds no '/'. */
  lemma NotesPartShape(ns: seq<nat>, j: Joiner, w: string)
    requires IsWhitespaceString(w)
    ensures SkipWs(NotesPart(ns, j, w)) == [] || SkipWs(NotesPart(ns, j, w))[0] == '('
    ensures NotesPart(ns, j, w) == [] || !IsWhitespace(NotesPart(ns, j, w)[|NotesPart(ns, j, w)| - 1])
    ensures NotesPart(ns, j, w) == [] || NotesPart(ns, j, w)[0] != '*'
    ensures '/' !in NotesPart(ns, j, w)
  {
    if ns != [] {
      BracketedShape(w, NotesText(ns, j));
    }
  }

  lemma BracketedShape(w: string, n: string)
    requires IsWhitespaceString(w)
    requires n != [] && n[0] == '(' && n[|n| - 1] == ')' && '/' !in n
    ensures SkipWs(w + n) == n
    ensures !IsWhitespace((w + n)[|w + n| - 1])
    ensures (w + n)[0] != '*'
    ensures '/' !in w + n
  {
    SkipWsConcat(w, n);
    NotIn(w, IsWhitespace, '/');
    assert (w + n)[|w + n| - 1] == n[|n| - 1];
    assert (w + n)[0] == if w == [] then n[0] else w[0];
  }

  lemma GlyphRead(f: Footnote, t: string)
    requires t == [] || t[0] != '*'
    ensures FootnoteMark(Glyph(f) + t) == Done(f, t)
  {
    var g := Glyph(f);
    var s := g + t;
    assert s[0] == g[0];
    assert s[|g|..] == t;
    assert t != [] ==> s[|g|] == t[0];
    if |g| > 1 {
      assert s[1] == g[1];
    }
    if |g| > 2 {
      assert s[2] == g[2];
    }
  }

  /** The footnote part is read back; what follows is the notes part. */
  lemma FootnoteFieldPart(f: Option<Footnote>, l: Layout, t: string)
    requires IsWhitespaceString(l.footnote)
    requires SkipWs(t) == [] || SkipWs(t)[0] == '('
    requires t == [] || t[0] != '*'
    ensures FootnoteField(FootnotePart(f, l) + t).0 == f
    ensures NotesField(FootnoteField(FootnotePart(f, l) + t).1) == NotesField(t)
    ensures AfterTitle(FootnotePart(f, l) + t)
  {
    if f.Some? {
      FootnoteGlyphPart(f.value, l.footnote, t);
      Assoc(l.footnote, Glyph(f.value), t);
    } else {
      FootnoteAbsent(t);
      EmptyPrefix(t);
    }
  }

  lemma FootnoteGlyphPart(f: Footnote, w: string, t: string)
    requires IsWhitespaceString(w)
    requires t == [] || t[0] != '*'
    ensures FootnoteField(w + (Glyph(f) + t)) == (Some(f), t)
    ensures AfterTitle(w + (Glyph(f) + t))
  {
    SkipWsConcat(w, Glyph(f) + t);
    GlyphRead(f, t);
  }

  lemma FootnoteAbsent(t: string)
    requires SkipWs(t) == [] || SkipWs(t)[0] == '('
    ensures FootnoteField(t) == (None, SkipWs(t))
    ensures NotesField(SkipWs(t)) == NotesField(t)
    ensures AfterTitle(t)
  {
    NotesFieldIdem(t);
  }

  /** What may follow a title: nothing, or (after whitespace) a footnote
      glyph or the notes. */
  predicate AfterTitle(t: string) {
    var r := SkipWs(t);
    r == [] || r[0] == '*' || r[0] == '+' || r[0] == '('
  }

  lemma SplitSkip(t: string) returns (w: string)
    ensures IsWhitespaceString(w) && t == w + SkipWs(t)
  {
    w := t[..|t| - |SkipWs(t)|];
  }

  lemma EmptyPrefix(t: string)
    ensures "" + t == t
  {
  }

  lemma Assoc(a: string, b: string, c: string)
    ensures a + (b + c) == (a + b) + c
  {
  }

  lemma TitleRunAllChars(x: string, w: string)
    requires TitleWellFormed(x) && IsWhitespaceString(w)
    ensures x + w != [] && AllChars(x + w, IsTitleChar)
  {
    WhitespaceTitle(w);
    AllCharsConcat(x, w, IsTitleChar);
  }

  lemma TrimTitleRun(x: string, w: string)
    requires x != [] && !IsWhitespace(x[0]) && !IsWhitespace(x[|x| - 1])
    requires IsWhitespaceString(w)
    ensures Trim(x + w) == x
  {
    assert (x + w)[0] == x[0];
    SkipWsNone(x + w);
    TrimEndConcat(x, w);
  }

  /** A title runs up to the footnote or the notes; the whitespace before
      them is read with it and trimmed off. */
  lemma TitleRead(x: string, t: string)
    requires TitleWellFormed(x) && AfterTitle(t)
    ensures Title(x + t) == Done(x, SkipWs(t))
  {
    var r := SkipWs(t);
    var w := SplitSkip(t);
    Assoc(x, w, r);
    TitleRunAllChars(x, w);
    TakeWhile1Concat(x + w, r, IsTitleChar);
    TrimTitleRun(x, w);
  }

  lemma TitleFieldPart(title: Option<string>, l: Layout, t: string)
    requires IsWhitespaceString(l.fields)
    requires title.Some? ==> TitleWellFormed(title.value)
    requires AfterTitle(t)
    ensures TitleField(TitlePart(title, l) + t) == (title, SkipWs(t))
  {
    if title.Some? {
      TitlePartSome(title.value, l, t);
    } else {
      TitleFieldNone(t);
      EmptyPrefix(t);
    }
  }

  lemma TitlePartSome(x: string, l: Layout, t: string)
    requires IsWhitespaceString(l.fields) && TitleWellFormed(x) && AfterTitle(t)
    ensures TitleField(TitlePart(Some(x), l) + t) == (Some(x), SkipWs(t))
  {
    TitleFieldSome(x, l.fields, t);
    Assoc(l.fields, x, t);
  }

  lemma TitleFieldSome(x: string, w: string, t: string)
    requires IsWhitespaceString(w) && TitleWellFormed(x) && AfterTitle(t)
    ensures TitleField(w + (x + t)) == (Some(x), SkipWs(t))
  {
    SkipWsConcat(w, x + t);
    TitleRead(x, t);
  }

  lemma TitleFieldNone(t: string)
    requires AfterTitle(t)
    ensures TitleField(t) == (None, SkipWs(t))
  {
  }

  lemma CreditRead(t: string)
    ensures CreditOnly("CR/NCR" + t) == Done(true, t)
  {
    assert ("CR/NCR" + t)[6..] == t;
  }

  lemma NoCreditMarker(t: string)
    requires '/' !in t
    ensures CreditOnly(SkipWs(t)).Fail?
  {
    var r := SkipWs(t);
    assert r == t[|t| - |r|..];
    assert '/' !in r;
    assert "CR/NCR"[2] == '/';
  }

  /** "CR/NCR" is read when written; otherwise the absence of any '/'
      keeps the marker from being found. */
  lemma CreditFieldPart(c: bool, l: Layout, t: string)
    requires IsWhitespaceString(l.fields) && '/' !in t
    ensures CreditField(CreditPart(c, l) + t).0 == c
    ensures TitleField(CreditField(CreditPart(c, l) + t).1) == TitleField(t)
  {
    if c {
      Assoc(l.fields, "CR/NCR", t);
      SkipWsConcat(l.fields, "CR/NCR" + t);
      CreditRead(t);
    } else {
      assert CreditPart(c, l) + t == t;
      NoCreditMarker(t);
      TitleFieldIdem(t);
    }
  }

  lemma HeadRead(dept: string, code: string, number: string, t: string)
    requires dept != [] && AllChars(dept, IsUppercase) && IsWhitespaceString(code)
    requires number != [] && AllChars(number, IsDigit) && StartsNot(t, IsDigit)
    ensures SkipWs(dept + code + number + t) == dept + code + number + t
    ensures DeptCode(dept + code + number + t) == Done(dept, code + (number + t))
    ensures SkipWs(code + (number + t)) == number + t
    ensures CourseNumber(number + t) == Done(number, t)
  {
    var s := dept + code + number + t;
    assert s == dept + (code + (number + t));
    assert s[0] == dept[0];
    SkipWsNone(s);
    assert StartsNot(code + (number + t), IsUppercase) by {
      if code == [] {
        assert code + (number + t) == number + t;
      } else {
        assert (code + (number + t))[0] == code[0];
      }
    }
    TakeWhile1Concat(dept, code + (number + t), IsUppercase);
    SkipWsConcat(code, number + t);
    TakeWhile1Concat(number, t, IsDigit);
  }

  lemma StartsNotConcat(a: string, b: string, p: char -> bool)
    requires StartsNot(a, p) && StartsNot(b, p)
    ensures StartsNot(a + b, p)
  {
    if a == [] {
      assert a + b == b;
    } else {
      assert (a + b)[0] == a[0];
    }
  }

  predicate EndsSolid(s: string) {
    s == [] || !IsWhitespace(s[|s| - 1])
  }

  lemma EndsSolidConcat(a: string, b: string)
    requires EndsSolid(a) && EndsSolid(b)
    ensures EndsSolid(a + b)
  {
    if b == [] {
      assert a + b == a;
    } else {
      assert (a + b)[|a + b| - 1] == b[|b| - 1];
    }
  }

  lemma GlyphShape(f: Footnote)
    ensures Glyph(f) != [] && !IsWhitespace(Glyph(f)[0]) && !IsDigit(Glyph(f)[0])
    ensures EndsSolid(Glyph(f)) && '/' !in Glyph(f) && (Glyph(f)[0] == '*' || Glyph(f)[0] == '+')
  {
  }

  /** No field after the course number begins with a digit. */
  lemma CourseTailStart(e: CourseEntry, l: Layout, j: Joiner)
    requires e.Course? && LayoutValid(l)
    ensures StartsNot(CourseTail(e, l, j), IsDigit)
  {
    var np := NotesPart(e.notes, j, l.notes);
    var fp := FootnotePart(e.footnote, l);
    var tp := TitlePart(e.title, l);
    var cp := CreditPart(e.creditOnly, l);
    NotesPartShape(e.notes, j, l.notes);
    assert StartsNot(np, IsDigit) by {
      if np != [] && e.notes != [] && l.notes == [] {
        assert np == NotesText(e.notes, j);
      }
    }
    assert StartsNot(fp, IsDigit) by {
      if e.footnote.Some? {
        GlyphShape(e.footnote.value);
        StartsNotConcat(l.footnote, Glyph(e.footnote.value), IsDigit);
      }
    }
    assert StartsNot(tp, IsDigit) by {
      if e.title.Some? {
        assert tp[0] == l.fields[0];
      }
    }
    assert StartsNot(cp, IsDigit) by {
      if e.creditOnly {
        assert cp[0] == l.fields[0];
      }
    }
    StartsNotConcat(fp, np, IsDigit);
    StartsNotConcat(tp, fp + np, IsDigit);
    StartsNotConcat(cp, tp + (fp + np), IsDigit);
  }

  /** Neither the title nor the footnote nor the notes contains a '/'. */
  lemma TailSlashFree(e: CourseEntry, l: Layout, j: Joiner)
    requires e.Course? && WellFormed(e) && LayoutValid(l)
    ensures '/' !in TitlePart(e.title, l) + (FootnotePart(e.footnote, l) + NotesPart(e.notes, j, l.notes))
  {
    NotesPartShape(e.notes, j, l.notes);
    NotIn(l.fields, IsWhitespace, '/');
    NotIn(l.footnote, IsWhitespace, '/');
    if e.title.Some? {
      NotIn(e.title.value, IsTitleChar, '/');
    }
    if e.footnote.Some? {
      GlyphShape(e.footnote.value);
    }
  }

  lemma PartsSolid(e: CourseEntry, l: Layout, j: Joiner)
    requires e.Course? && WellFormed(e) && LayoutValid(l)
    ensures EndsSolid(CreditPart(e.creditOnly, l)) && EndsSolid(TitlePart(e.title, l))
    ensures EndsSolid(FootnotePart(e.footnote, l)) && EndsSolid(NotesPart(e.notes, j, l.notes))
  {
    NotesPartShape(e.notes, j, l.notes);
    if e.footnote.Some? {
      var g := Glyph(e.footnote.value);
      GlyphShape(e.footnote.value);
      assert (l.footnote + g)[|l.footnote + g| - 1] == g[|g| - 1];
    }
    if e.title.Some? {
      var x := e.title.value;
      assert (l.fields + x)[|l.fields + x| - 1] == x[|x| - 1];
    }
  }

  lemma CourseTailSolid(e: CourseEntry, l: Layout, j: Joiner)
    requires e.Course? && WellFormed(e) && LayoutValid(l)
    ensures EndsSolid(CourseTail(e, l, j))
  {
    var np := NotesPart(e.notes, j, l.notes);
    var fp := FootnotePart(e.footnote, l);
    var tp := TitlePart(e.title, l);
    var cp := CreditPart(e.creditOnly, l);
    PartsSolid(e, l, j);
    EndsSolidConcat(fp, np);
    EndsSolidConcat(tp, fp + np);
    EndsSolidConcat(cp, tp + (fp + np));
  }

  lemma HeadSolid(dept: string, code: string, number: string)
    requires dept != [] && AllChars(dept, IsUppercase) && number != [] && AllChars(number, IsDigit)
    ensures (dept + code + number)[0] == dept[0] && EndsSolid(dept + code + number)
  {
    var head := dept + code + number;
    assert head[|head| - 1] == number[|number| - 1];
  }

  /** A rendered listing has no whitespace at either end. */
  lemma RenderCourseSolid(e: CourseEntry, l: Layout, j: Joiner)
    requires e.Course? && WellFormed(e) && LayoutValid(l)
    ensures RenderCourse(e, l, j) != []
    ensures !IsWhitespace(RenderCourse(e, l, j)[0])
    ensures EndsSolid(RenderCourse(e, l, j))
  {
    var head := e.departmentCode + l.code + e.courseNumber;
    HeadSolid(e.departmentCode, l.code, e.courseNumber);
    CourseTailSolid(e, l, j);
    EndsSolidConcat(head, CourseTail(e, l, j));
    HeadFirst(head, CourseTail(e, l, j));
  }

  lemma HeadFirst(a: string, b: string)
    requires a != []
    ensures (a + b)[0] == a[0]
  {
  }

  lemma CourseListingSteps(s: string, s1: string, s2: string, t2: string, t3: string, np: string, e: CourseEntry)
    requires e.Course?
    requires SkipWs(s) == s && DeptCode(s) == Done(e.departmentCode, s1)
    requires CourseNumber(SkipWs(s1)) == Done(e.courseNumber, s2)
    requires CreditField(s2).0 == e.creditOnly && TitleField(CreditField(s2).1) == TitleField(t2)
    requires TitleField(t2) == (e.title, SkipWs(t3))
    requires FootnoteField(SkipWs(t3)) == FootnoteField(t3)
    requires FootnoteField(t3).0 == e.footnote && NotesField(FootnoteField(t3).1) == NotesField(np)
    requires NotesField(np) == (e.notes, [])
    ensures CourseListing(s) == Done(e, [])
  {
  }

  /** Every well-formed course listing, written with any layout of
      whitespace and any way of joining its notes, is read back as itself
      by the listing rule, which consumes all of it. */
  lemma CourseListingRender(e: CourseEntry, l: Layout, j: Joiner)
    requires e.Course? && WellFormed(e) && LayoutValid(l)
    ensures CourseListing(RenderCourse(e, l, j)) == Done(e, [])
  {
    var np := NotesPart(e.notes, j, l.notes);
    var t3 := FootnotePart(e.footnote, l) + np;
    var t2 := TitlePart(e.title, l) + t3;
    var t1 := CourseTail(e, l, j);
    NotesPartShape(e.notes, j, l.notes);
    NotesFieldPart(e.notes, j, l.notes);
    FootnoteFieldPart(e.footnote, l, np);
    FootnoteFieldIdem(t3);
    TitleFieldPart(e.title, l, t3);
    TailSlashFree(e, l, j);
    CreditFieldPart(e.creditOnly, l, t2);
    CourseTailStart(e, l, j);
    HeadRead(e.departmentCode, l.code, e.courseNumber, t1);
    CourseListingSteps(RenderCourse(e, l, j), l.code + (e.courseNumber + t1), t1, t2, t3, np, e);
  }

  /** Round trip: a rendered course listing, with any whitespace around it,
      parses to the entry it was rendered from. */
  lemma ParseRenderCourse(a: string, e: CourseEntry, l: Layout, j: Joiner, c: string)
    requires e.Course? && WellFormed(e) && LayoutValid(l)
    requires IsWhitespaceString(a) && IsWhitespaceString(c)
    ensures Parse(a + RenderCourse(e, l, j) + c) == Ok(e)
  {
    RenderCourseSolid(e, l, j);
    CourseListingRender(e, l, j);
    ParseSolidText(a, RenderCourse(e, l, j), c, e);
  }

  /** An entry text that neither begins nor ends with whitespace parses the
      same with whitespace around it. */
  lemma ParseSolidText(a: string, t: string, c: string, e: CourseEntry)
    requires IsWhitespaceString(a) && IsWhitespaceString(c)
    requires t != [] && !IsWhitespace(t[0]) && EndsSolid(t)
    requires Entry(t) == Done(e, [])
    ensures Parse(a + t + c) == Ok(e)
  {
    TrimPaddedSolid(a, t, c);
  }

  lemma TrimPaddedSolid(a: string, t: string, c: string)
    requires IsWhitespaceString(a) && IsWhitespaceString(c)
    requires t != [] && !IsWhitespace(t[0]) && EndsSolid(t)
    ensures Trim(a + t + c) == t
  {
    TrimPadded(a, t, c);
    TrimSolid(t);
  }

  lemma TrimSolid(t: string)
    requires t != [] && !IsWhitespace(t[0]) && EndsSolid(t)
    ensures Trim(t) == t
  {
    SkipWsNone(t);
  }

  // ---------------------------------------------------------------------------
  // Elective slots

  /** The slot count as written: the number word and a space, or nothing
      for a single slot written without one. */
  function SlotsPart(slots: nat, spellOne: bool): string
    requires 1 <= slots <= 10
  {
    if slots != 1 || spellOne then NumberName(slots) + " " else ""
  }

  function ETypePart(etype: Option<string>): string {
    if etype.Some? then etype.value + " " else ""
  }

  function ElectiveText(plural: bool): string {
    if plural then "Electives" else "Elective"
  }

  /** An elective-slots declaration as the calendar writes it, e.g.
      "Elective", "Two Electives", "Communication Elective (see note 4)". */
  function RenderElectives(e: CourseEntry, spellOne: bool, plural: bool, j: Joiner): string
    requires e.Electives? && WellFormed(e)
  {
    SlotsPart(e.slots, spellOne) + (ETypePart(e.etype) + (ElectiveText(plural) + NotesPart(e.notes, j, " ")))
  }

  lemma NumberNameRead(n: nat, rest: string)
    requires 1 <= n <= 10
    ensures NumberWord(NumberName(n) + rest) == Done(n, rest)
  {
    if n == 1 {
      ReadOne(rest);
    } else if n == 2 {
      ReadTwo(rest);
    } else if n == 3 {
      ReadThree(rest);
    } else if n == 4 {
      ReadFour(rest);
    } else if n == 5 {
      ReadFive(rest);
    } else if n == 6 {
      ReadSix(rest);
    } else if n == 7 {
      ReadSeven(rest);
    } else if n == 8 {
      ReadEight(rest);
    } else if n == 9 {
      ReadNine(rest);
    } else {
      ReadTen(rest);
    }
  }

  lemma ReadOne(rest: string)
    ensures NumberWord("One" + rest) == Done(1, rest)
  {
    var s := "One" + rest;
    assert s[0] == 'O' && s[1] == 'n';
    assert s[3..] == rest;
  }

  lemma ReadTwo(rest: string)
    ensures NumberWord("Two" + rest) == Done(2, rest)
  {
    var s := "Two" + rest;
    assert s[0] == 'T' && s[1] == 'w';
    assert s[3..] == rest;
  }

  lemma ReadThree(rest: string)
    ensures NumberWord("Three" + rest) == Done(3, rest)
  {
    var s := "Three" + rest;
    assert s[0] == 'T' && s[1] == 'h' && s[2] == 'r';
    assert s[5..] == rest;
  }

  lemma ReadFour(rest: string)
    ensures NumberWord("Four" + rest) == Done(4, rest)
  {
    var s := "Four" + rest;
    assert s[0] == 'F' && s[1] == 'o';
    assert s[4..] == rest;
  }

  lemma ReadFive(rest: string)
    ensures NumberWord("Five" + rest) == Done(5, rest)
  {
    var s := "Five" + rest;
    assert s[0] == 'F' && s[1] == 'i';
    assert s[4..] == rest;
  }

  lemma ReadSix(rest: string)
    ensures NumberWord("Six" + rest) == Done(6, rest)
  {
    var s := "Six" + rest;
    assert s[0] == 'S' && s[1] == 'i';
    assert s[3..] == rest;
  }

  lemma ReadSeven(rest: string)
    ensures NumberWord("Seven" + rest) == Done(7, rest)
  {
    var s := "Seven" + rest;
    assert s[0] == 'S' && s[1] == 'e';
    assert s[5..] == rest;
  }

  lemma ReadEight(rest: string)
    ensures NumberWord("Eight" + rest) == Done(8, rest)
  {
    var s := "Eight" + rest;
    assert s[0] == 'E' && s[1] == 'i';
    assert s[5..] == rest;
  }

  lemma ReadNine(rest: string)
    ensures NumberWord("Nine" + rest) == Done(9, rest)
  {
    var s := "Nine" + rest;
    assert s[0] == 'N' && s[1] == 'i';
    assert s[4..] == rest;
  }

  lemma ReadTen(rest: string)
    ensures NumberWord("Ten" + rest) == Done(10, rest)
  {
    var s := "Ten" + rest;
    assert s[0] == 'T' && s[1] == 'e';
    assert s[3..] == rest;
  }

  /** Neither "Communication" nor "Elective" begins with a number word. */
  lemma NumberWordRejects(s: string)
    requires s != [] && (s[0] == 'C' || (s[0] == 'E' && |s| > 1 && s[1] == 'l'))
    ensures NumberWord(s).Fail?
  {
  }

  lemma ETypeRead(rest: string)
    ensures EType("Communication" + rest) == Done("Communication", rest)
  {
    var s := "Communication" + rest;
    assert s[..13] == "Communication" && s[13..] == rest;
  }

  lemma ElectiveWordRead(plural: bool, t: string)
    requires t == [] || t[0] != 's'
    ensures ElectiveWord(ElectiveText(plural) + t) == Done((), t)
  {
    var s := ElectiveText(plural) + t;
    SkipWsNone(s);
    assert s[..8] == "Elective";
    if plural {
      assert s[8..] == "s" + t;
      assert (s[8..])[1..] == t;
    } else {
      assert s[8..] == t;
    }
  }

  /** Text that opens with "El", as "Elective" does. */
  predicate OpensEl(t: string) {
    |t| > 1 && t[0] == 'E' && t[1] == 'l'
  }

  lemma ElectiveOpens(plural: bool, t: string)
    ensures OpensEl(ElectiveText(plural) + t)
  {
    var s := ElectiveText(plural) + t;
    assert s[0] == 'E' && s[1] == 'l';
  }

  lemma SpaceLeading(t: string)
    ensures SkipWs(Spaced(t)) == SkipWs(t)
  {
    SkipWsLeading(" ", t);
  }

  /** The slot count is read back; what follows it starts at the type or
      at the word "Elective". */
  lemma SlotsFieldPart(n: nat, spellOne: bool, t: string)
    requires 1 <= n <= 10
    requires OpensEl(t) || (t != [] && t[0] == 'C')
    ensures SlotsField(SlotsPart(n, spellOne) + t).0 == n
    ensures ETypeField(SlotsField(SlotsPart(n, spellOne) + t).1) == ETypeField(t)
  {
    if n != 1 || spellOne {
      var w := NumberName(n);
      assert SlotsPart(n, spellOne) + t == w + Spaced(t);
      assert (w + Spaced(t))[0] == w[0];
      SkipWsNone(w + Spaced(t));
      NumberNameRead(n, Spaced(t));
      SpaceLeading(t);
    } else {
      assert SlotsPart(n, spellOne) + t == t;
      SkipWsNone(t);
      NumberWordRejects(t);
    }
  }

  lemma ETypeFieldPart(etype: Option<string>, t: string)
    requires etype.Some? ==> etype.value == "Communication"
    requires OpensEl(t)
    ensures ETypeField(ETypePart(etype) + t).0 == etype
    ensures ElectiveWord(ETypeField(ETypePart(etype) + t).1) == ElectiveWord(t)
  {
    if etype.Some? {
      assert ETypePart(etype) + t == "Communication" + Spaced(t);
      SkipWsNone("Communication" + Spaced(t));
      ETypeRead(Spaced(t));
      SpaceLeading(t);
    } else {
      assert ETypePart(etype) + t == t;
      SkipWsNone(t);
    }
  }

  lemma ElectiveSlotsSteps(s: string, t1: string, t2: string, np: string, e: CourseEntry)
    requires e.Electives?
    requires SlotsField(s).0 == e.slots && ETypeField(SlotsField(s).1) == ETypeField(t1)
    requires ETypeField(t1).0 == e.etype && ElectiveWord(ETypeField(t1).1) == ElectiveWord(t2)
    requires ElectiveWord(t2) == Done((), np)
    requires NotesField(np) == (e.notes, [])
    ensures ElectiveSlots(s) == Done(e, [])
  {
  }

  lemma SpaceIsWhitespace()
    ensures IsWhitespaceString(" ")
  {
  }

  lemma SpacedNotes(ns: seq<nat>, j: Joiner)
    ensures NotesPart(ns, j, " ") == [] || NotesPart(ns, j, " ")[0] == ' '
  {
  }

  /** The elective-slots rule reads a rendered declaration back, all of it. */
  lemma ElectiveSlotsRender(e: CourseEntry, spellOne: bool, plural: bool, j: Joiner)
    requires e.Electives? && WellFormed(e)
    ensures ElectiveSlots(RenderElectives(e, spellOne, plural, j)) == Done(e, [])
  {
    var np := NotesPart(e.notes, j, " ");
    var t2 := ElectiveText(plural) + np;
    var t1 := ETypePart(e.etype) + t2;
    ElectiveOpens(plural, np);
    ETypeFieldPart(e.etype, t2);
    ETypeStart(e.etype, t2);
    SlotsFieldPart(e.slots, spellOne, t1);
    ElectiveWordNotes(plural, e.notes, j);
    SpaceIsWhitespace();
    NotesFieldPart(e.notes, j, " ");
    ElectiveSlotsSteps(SlotsPart(e.slots, spellOne) + t1, t1, t2, np, e);
  }

  lemma ElectiveWordNotes(plural: bool, ns: seq<nat>, j: Joiner)
    ensures ElectiveWord(ElectiveText(plural) + NotesPart(ns, j, " ")) == Done((), NotesPart(ns, j, " "))
  {
    SpacedNotes(ns, j);
    ElectiveWordRead(plural, NotesPart(ns, j, " "));
  }

  lemma ETypeStart(etype: Option<string>, t: string)
    requires etype.Some? ==> etype.value == "Communication"
    requires OpensEl(t)
    ensures OpensEl(ETypePart(etype) + t) || (ETypePart(etype) + t)[0] == 'C'
  {
    if etype.None? {
      assert ETypePart(etype) + t == t;
    }
  }

  /** A capitalised word is not a course code: the code would end at the
      lower-case letter, where no course number can start. */
  lemma CourseListingRejectsWord(s: string)
    requires Capitalised(s)
    ensures CourseListing(s).Fail?
    ensures Entry(s) == ElectiveSlots(s)
  {
    NoNumberAfterCapital(s);
  }

  lemma NoNumberAfterCapital(s: string)
    requires Capitalised(s)
    ensures DeptCode(SkipWs(s)).Done? && CourseNumber(SkipWs(DeptCode(SkipWs(s)).rest)).Fail?
  {
    SkipWsNone(s);
    DeptCodeCapitalised(s);
    LowerStart(s[1..]);
    SkipWsNone(s[1..]);
  }

  lemma LowerStart(t: string)
    requires t != [] && 'a' <= t[0] <= 'z'
    ensures StartsNot(t, IsWhitespace) && StartsNot(t, IsDigit)
  {
  }

  /** The code read from a capitalised word is its first letter alone. */
  lemma DeptCodeCapitalised(s: string)
    requires Capitalised(s)
    ensures DeptCode(s).Done? && DeptCode(s).rest == s[1..]
  {
    var r := DeptCode(s);
    assert s[1] == (r.value + r.rest)[1];
    assert |r.value| == 1;
  }

  /** An upper-case letter followed by a lower-case one. */
  predicate Capitalised(s: string) {
    |s| > 1 && IsUppercase(s[0]) && 'a' <= s[1] <= 'z'
  }

  lemma CapitalisedConcat(a: string, b: string)
    requires Capitalised(a)
    ensures Capitalised(a + b)
  {
    assert (a + b)[0] == a[0] && (a + b)[1] == a[1];
  }

  lemma SlotsPartCapitalised(n: nat, spellOne: bool, t: string)
    requires 1 <= n <= 10 && Capitalised(t)
    ensures Capitalised(SlotsPart(n, spellOne) + t)
  {
    if n != 1 || spellOne {
      assert SlotsPart(n, spellOne) + t == NumberName(n) + Spaced(t);
      CapitalisedConcat(NumberName(n), Spaced(t));
    } else {
      assert SlotsPart(n, spellOne) + t == t;
    }
  }

  lemma ETypePartCapitalised(etype: Option<string>, t: string)
    requires (etype.Some? ==> etype.value == "Communication") && Capitalised(t)
    ensures Capitalised(ETypePart(etype) + t)
  {
    if etype.Some? {
      assert ETypePart(etype) + t == "Communication" + Spaced(t);
      CapitalisedConcat("Communication", Spaced(t));
    } else {
      assert ETypePart(etype) + t == t;
    }
  }

  lemma RenderElectivesWord(e: CourseEntry, spellOne: bool, plural: bool, j: Joiner)
    requires e.Electives? && WellFormed(e)
    ensures Capitalised(RenderElectives(e, spellOne, plural, j))
  {
    var np := NotesPart(e.notes, j, " ");
    var t2 := ElectiveText(plural) + np;
    CapitalisedConcat(ElectiveText(plural), np);
    ETypePartCapitalised(e.etype, t2);
    SlotsPartCapitalised(e.slots, spellOne, ETypePart(e.etype) + t2);
  }

  lemma SolidTail(a: string, b: string)
    requires b != [] && EndsSolid(b)
    ensures a + b != [] && EndsSolid(a + b)
  {
    assert (a + b)[|a + b| - 1] == b[|b| - 1];
  }

  lemma RenderElectivesSolid(e: CourseEntry, spellOne: bool, plural: bool, j: Joiner)
    requires e.Electives? && WellFormed(e)
    ensures EndsSolid(RenderElectives(e, spellOne, plural, j))
  {
    var t2 := ElectiveText(plural) + NotesPart(e.notes, j, " ");
    ElectiveTailSolid(plural, e.notes, j);
    SolidTail(ETypePart(e.etype), t2);
    SolidTail(SlotsPart(e.slots, spellOne), ETypePart(e.etype) + t2);
  }

  lemma ElectiveTailSolid(plural: bool, ns: seq<nat>, j: Joiner)
    ensures ElectiveText(plural) + NotesPart(ns, j, " ") != []
    ensures EndsSolid(ElectiveText(plural) + NotesPart(ns, j, " "))
  {
    SpaceIsWhitespace();
    NotesPartShape(ns, j, " ");
    EndsSolidConcat(ElectiveText(plural), NotesPart(ns, j, " "));
  }

  /** Round trip: a rendered elective-slots declaration, with any whitespace
      around it, parses to the entry it was rendered from. */
  lemma ParseRenderElectives(a: string, e: CourseEntry, spellOne: bool, plural: bool, j: Joiner, c: string)
    requires e.Electives? && WellFormed(e)
    requires IsWhitespaceString(a) && IsWhitespaceString(c)
    ensures Parse(a + RenderElectives(e, spellOne, plural, j) + c) == Ok(e)
  {
    RenderElectivesWord(e, spellOne, plural, j);
    RenderElectivesSolid(e, spellOne, plural, j);
    ElectiveSlotsRender(e, spellOne, plural, j);
    EntryElectives(RenderElectives(e, spellOne, plural, j), e);
    ParseSolidText(a, RenderElectives(e, spellOne, plural, j), c, e);
  }

  /** A capitalised text is left to the elective-slots rule. */
  lemma EntryElectives(t: string, e: CourseEntry)
    requires Capitalised(t) && ElectiveSlots(t) == Done(e, [])
    ensures Entry(t) == Done(e, [])
    ensures t != [] && !IsWhitespace(t[0])
  {
    CourseListingRejectsWord(t);
  }
}
