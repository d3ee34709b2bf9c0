/** The course-cell grammar of the calendar's Academic Curriculum table.

        course_entry   := course_listing | elective_slots
        course_listing := dept_code course_number credit_only? title? footnote? notes?
        dept_code      := uppercase+
        course_number  := digit+
        credit_only    := "CR/NCR"
        title          := (letter | digit | whitespace | "-" | ":")+
        footnote       := "***" | "**" | "*" | "+"
        notes          := "(see note" ["s"] nat ("," nat)* ([","] "and" nat)? ")"
        elective_slots := number_word? etype? "Elective" ["s"] notes?
        number_word    := "One" | ... | "Ten"
        etype          := "Communication"

    Alternation is ordered: the first alternative that matches wins and is
    never reconsidered. Inside a sequence, whitespace is skipped before every
    item (also before an optional item that turns out to be absent) and never
    after the last one. `"(see note" ["s"]` and `"Elective" ["s"]` are read
    without whitespace between the word and its plural "s". */
module CourseEntries {
  import opened Text

  datatype Footnote = AlternateWeeks | OneHourSeminarPerWeek | LabNotScheduled | TutOrLabUnknown

  datatype CourseEntry =
    | Course(departmentCode: string, courseNumber: string, title: Option<string>,
             creditOnly: bool, footnote: Option<Footnote>, notes: seq<nat>)
    | Electives(slots: nat, etype: Option<string>, notes: seq<nat>)

  /** Why a cell was refused: no alternative matched, or text was left over. */
  datatype ParseError = NoMatch | Leftover(remaining: string)

  predicate IsTitleChar(c: char) {
    IsAlphabetic(c) || IsDigit(c) || IsWhitespace(c) || c == '-' || c == ':'
  }

  /** A title as the parser delivers it: title characters, trimmed. */
  predicate TitleWellFormed(t: string) {
    t != [] && AllChars(t, IsTitleChar) && !IsWhitespace(t[0]) && !IsWhitespace(t[|t| - 1])
  }

  /** What every parsed entry satisfies. */
  predicate WellFormed(e: CourseEntry) {
    match e
    case Course(dept, number, title, _, _, _) =>
      && dept != [] && AllChars(dept, IsUppercase)
      && number != [] && AllChars(number, IsDigit)
      && (title.Some? ==> TitleWellFormed(title.value))
    case Electives(slots, etype, _) =>
      1 <= slots <= 10 && (etype.Some? ==> etype.value == "Communication")
  }

  // ---------------------------------------------------------------------------
  // Tokens

  /** `dept_code`: a non-empty run of uppercase letters. */
  function DeptCode(s: string): (r: Parsed<string>)
    ensures r.Done? <==> s != [] && IsUppercase(s[0])
    ensures r.Done? ==> r.value != [] && AllChars(r.value, IsUppercase) && s == r.value + r.rest
    ensures r.Done? ==> StartsNot(r.rest, IsUppercase)
  {
    TakeWhile1(s, IsUppercase)
  }

  /** `course_number`: a non-empty run of digits, kept as text. */
  function CourseNumber(s: string): (r: Parsed<string>)
    ensures r.Done? <==> s != [] && IsDigit(s[0])
    ensures r.Done? ==> r.value != [] && AllChars(r.value, IsDigit) && s == r.value + r.rest
    ensures r.Done? ==> StartsNot(r.rest, IsDigit)
  {
    TakeWhile1(s, IsDigit)
  }

  /** `credit_only`: the literal "CR/NCR", read as `true`. */
  function CreditOnly(s: string): (r: Parsed<bool>)
    ensures r.Done? <==> "CR/NCR" <= s
    ensures r.Done? ==> r.value && s == "CR/NCR" + r.rest
  {
    match Tag("CR/NCR", s)
    case Fail => Fail
    case Done(_, rest) => Done(true, rest)
  }

  /** `title`: the longest run of title characters, trimmed. */
  function Title(s: string): (r: Parsed<string>)
    ensures r.Done? <==> s != [] && IsTitleChar(s[0])
    ensures r.Done? ==> AllChars(r.value, IsTitleChar) && StartsNot(r.rest, IsTitleChar)
    ensures r.Done? && !IsWhitespace(s[0]) ==> TitleWellFormed(r.value)
    ensures r.Done? ==> IsSuffix(r.rest, s) && r.value == Trim(s[..|s| - |r.rest|])
  {
    match TakeWhile1(s, IsTitleChar)
    case Fail => Fail
    case Done(run, rest) =>
      TrimAllChars(run, IsTitleChar);
      assert s[..|s| - |rest|] == run;
      Done(Trim(run), rest)
  }

  /** The glyph each footnote is written with. */
  function Glyph(f: Footnote): string {
    match f
    case LabNotScheduled => "***"
    case OneHourSeminarPerWeek => "**"
    case AlternateWeeks => "*"
    case TutOrLabUnknown => "+"
  }

  /** `footnote`: the longest glyph first, so a run of up to three stars is
      read whole. */
  function FootnoteMark(s: string): (r: Parsed<Footnote>)
    ensures r.Done? <==> s != [] && (s[0] == '*' || s[0] == '+')
    ensures r.Done? ==> s == Glyph(r.value) + r.rest
    ensures r.Done? && (r.value == AlternateWeeks || r.value == OneHourSeminarPerWeek) ==> (r.rest == [] || r.rest[0] != '*')
  {
    if "***" <= s then Done(LabNotScheduled, s[3..])
    else if "**" <= s then Done(OneHourSeminarPerWeek, s[2..])
    else if "*" <= s then Done(AlternateWeeks, s[1..])
    else if "+" <= s then Done(TutOrLabUnknown, s[1..])
    else Fail
  }

  /** `nat`: a non-empty run of digits and its decimal value. */
  function Nat(s: string): (r: Parsed<nat>)
    ensures r.Done? <==> s != [] && IsDigit(s[0])
    ensures r.Done? ==> |r.rest| < |s| && IsSuffix(r.rest, s) && StartsNot(r.rest, IsDigit)
    ensures r.Done? ==> AllChars(s[..|s| - |r.rest|], IsDigit)
                        && r.value == DecimalValue(s[..|s| - |r.rest|])
  {
    match TakeWhile1(s, IsDigit)
    case Fail => Fail
    case Done(digits, rest) =>
      assert s[..|s| - |rest|] == digits;
      Done(DecimalValue(digits), rest)
  }

  /** One more item of a notes list: whitespace, a comma, whitespace, a number. */
  function CommaNat(s: string): (r: Parsed<nat>)
    ensures r.Done? ==> |r.rest| < |s|
  {
    var s1 := SkipWs(s);
    if s1 != [] && s1[0] == ',' then Nat(SkipWs(s1[1..])) else Fail
  }

  /** Zero or more comma items, as many as match; the input is left where
      the first failing attempt began. */
  function CommaNats(s: string): (r: (seq<nat>, string))
    ensures |r.1| <= |s|
    ensures CommaNat(r.1).Fail?
    decreases |s|
  {
    match CommaNat(s)
    case Fail => ([], s)
    case Done(n, rest) =>
      var (more, after) := CommaNats(rest);
      ([n] + more, after)
  }

  /** The final item of a notes list: an optional comma, "and", a number. */
  function AndNat(s: string): Parsed<nat> {
    var s1 := SkipWs(s);
    var s2 := if s1 != [] && s1[0] == ',' then s1[1..] else s1;
    var s3 := SkipWs(s2);
    if "and" <= s3 then Nat(SkipWs(s3[3..])) else Fail
  }

  /** The opening of a notes reference: "(see note" and an optional plural
      "s" directly after it. */
  function NotesOpen(s: string): (r: Parsed<()>)
    ensures r.Done? <==> "(see note" <= SkipWs(s)
  {
    var s0 := SkipWs(s);
    if "(see note" <= s0 then
      var s1 := s0[9..];
      Done((), if s1 != [] && s1[0] == 's' then s1[1..] else s1)
    else Fail
  }

  /** The closing parenthesis of a notes reference. */
  function NotesClose(s: string): (r: Parsed<()>)
    ensures r.Done? <==> SkipWs(s) != [] && SkipWs(s)[0] == ')'
  {
    var s0 := SkipWs(s);
    if s0 != [] && s0[0] == ')' then Done((), s0[1..]) else Fail
  }

  /** The numbers after the first one: as many comma items as match, then
      an optional "and" item. */
  function NotesMore(s: string): (seq<nat>, string) {
    var (more, s1) := CommaNats(s);
    var (last, s2) := Opt(AndNat(SkipWs(s1)), SkipWs(s1));
    (more + (if last.Some? then [last.value] else []), s2)
  }

  /** `notes`: the numbers of a "(see note ...)" reference, in the order
      written. */
  function Notes(s: string): (r: Parsed<seq<nat>>)
    ensures r.Done? ==> r.value != []
  {
    match NotesOpen(s)
    case Fail => Fail
    case Done(_, s1) =>
      match Nat(SkipWs(s1))
      case Fail => Fail
      case Done(first, s2) =>
        var (more, s3) := NotesMore(s2);
        match NotesClose(s3)
        case Fail => Fail
        case Done(_, s4) => Done([first] + more, s4)
  }

  /** The word for each slot count the grammar knows. */
  function NumberName(n: nat): string
    requires 1 <= n <= 10
  {
    if n == 1 then "One" else if n == 2 then "Two" else if n == 3 then "Three"
    else if n == 4 then "Four" else if n == 5 then "Five" else if n == 6 then "Six"
    else if n == 7 then "Seven" else if n == 8 then "Eight" else if n == 9 then "Nine"
    else "Ten"
  }

  /** `number_word`: "One" .. "Ten", tried in that order. */
  function NumberWord(s: string): (r: Parsed<nat>)
    ensures r.Done? ==> 1 <= r.value <= 10 && s == NumberName(r.value) + r.rest
  {
    if "One" <= s then Done(1, s[3..])
    else if "Two" <= s then Done(2, s[3..])
    else if "Three" <= s then Done(3, s[5..])
    else if "Four" <= s then Done(4, s[4..])
    else if "Five" <= s then Done(5, s[4..])
    else if "Six" <= s then Done(6, s[3..])
    else if "Seven" <= s then Done(7, s[5..])
    else if "Eight" <= s then Done(8, s[5..])
    else if "Nine" <= s then Done(9, s[4..])
    else if "Ten" <= s then Done(10, s[3..])
    else Fail
  }

  /** `etype`: the one elective type the grammar knows. */
  function EType(s: string): (r: Parsed<string>)
    ensures r.Done? <==> "Communication" <= s
    ensures r.Done? ==> r.value == "Communication" && s == r.value + r.rest
  {
    if "Communication" <= s then Done(s[..13], s[13..]) else Fail
  }

  // ---------------------------------------------------------------------------
  // The optional fields of a course listing. Each skips whitespace first;
  // an absent field leaves the input after that whitespace.

  function CreditField(s: string): (bool, string) {
    var s0 := SkipWs(s);
    match CreditOnly(s0)
    case Fail => (false, s0)
    case Done(v, rest) => (v, rest)
  }

  function TitleField(s: string): (r: (Option<string>, string))
    ensures r.0.Some? ==> TitleWellFormed(r.0.value)
  {
    var s0 := SkipWs(s);
    Opt(Title(s0), s0)
  }

  function FootnoteField(s: string): (Option<Footnote>, string) {
    var s0 := SkipWs(s);
    Opt(FootnoteMark(s0), s0)
  }

  function NotesField(s: string): (seq<nat>, string) {
    var s0 := SkipWs(s);
    var (notes, rest) := Opt(Notes(s0), s0);
    (notes.GetOr([]), rest)
  }

  /** `course_listing`: code and number are required; the other fields take
      their defaults (not credit-only, no title, no footnote, no notes) when
      absent. */
  function CourseListing(s: string): (r: Parsed<CourseEntry>)
    ensures r.Done? ==> r.value.Course? && WellFormed(r.value)
    ensures r.Fail? <==> DeptCode(SkipWs(s)).Fail? || CourseNumber(SkipWs(DeptCode(SkipWs(s)).rest)).Fail?
  {
    match DeptCode(SkipWs(s))
    case Fail => Fail
    case Done(dept, s1) =>
      match CourseNumber(SkipWs(s1))
      case Fail => Fail
      case Done(number, s2) =>
        var (credit, s3) := CreditField(s2);
        var (title, s4) := TitleField(s3);
        var (footnote, s5) := FootnoteField(s4);
        var (notes, s6) := NotesField(s5);
        Done(Course(dept, number, title, credit, footnote, notes), s6)
  }

  // ---------------------------------------------------------------------------
  // The fields of an elective-slots declaration.

  function SlotsField(s: string): (r: (nat, string))
    ensures 1 <= r.0 <= 10
    ensures NumberWord(SkipWs(s)).Fail? ==> r.0 == 1
    ensures NumberWord(SkipWs(s)).Done? ==> r.0 == NumberWord(SkipWs(s)).value
  {
    var s0 := SkipWs(s);
    var (slots, rest) := Opt(NumberWord(s0), s0);
    (slots.GetOr(1), rest)
  }

  function ETypeField(s: string): (r: (Option<string>, string))
    ensures r.0.Some? ==> r.0.value == "Communication"
  {
    var s0 := SkipWs(s);
    Opt(EType(s0), s0)
  }

  /** "Elective" with an optional plural "s" directly after it. */
  function ElectiveWord(s: string): (r: Parsed<()>)
    ensures r.Done? <==> "Elective" <= SkipWs(s)
  {
    var s0 := SkipWs(s);
    if "Elective" <= s0 then
      var s1 := s0[8..];
      Done((), if s1 != [] && s1[0] == 's' then s1[1..] else s1)
    else Fail
  }

  /** `elective_slots`: a slot count (1 when no number word is written), an
      optional type, the word "Elective(s)" and optional notes. */
  function ElectiveSlots(s: string): (r: Parsed<CourseEntry>)
    ensures r.Done? ==> r.value.Electives? && WellFormed(r.value)
  {
    var (slots, s1) := SlotsField(s);
    var (etype, s2) := ETypeField(s1);
    match ElectiveWord(s2)
    case Fail => Fail
    case Done(_, s3) =>
      var (notes, s4) := NotesField(s3);
      Done(Electives(slots, etype, notes), s4)
  }

  /** `course_entry`: a course listing if one matches, otherwise elective
      slots. A course listing that matches is final even if text follows it. */
  function Entry(s: string): (r: Parsed<CourseEntry>)
    ensures r.Done? ==> WellFormed(r.value)
    ensures r.Done? && r.value.Electives? ==> CourseListing(s).Fail?
    ensures CourseListing(s).Done? ==> r == CourseListing(s)
  {
    match CourseListing(s)
    case Done(e, rest) => Done(e, rest)
    case Fail => ElectiveSlots(s)
  }

  /** `CourseEntry::parse`: trim the cell, parse it, and insist that nothing
      is left over. */
  function Parse(text: string): (r: Result<CourseEntry, ParseError>)
    ensures r.Ok? ==> WellFormed(r.value) && Entry(Trim(text)) == Done(r.value, [])
    ensures r.Err? && r.error.Leftover? ==>
              r.error.remaining != [] && Entry(Trim(text)).Done? && Entry(Trim(text)).rest == r.error.remaining
    ensures r.Err? && r.error.NoMatch? <==> Entry(Trim(text)).Fail?
  {
    ParseTrimmed(Trim(text))
  }

  /** `course_entry` on the trimmed cell, which must be read whole. */
  function ParseTrimmed(t: string): (r: Result<CourseEntry, ParseError>)
    ensures r.Ok? ==> WellFormed(r.value) && Entry(t) == Done(r.value, [])
    ensures r.Err? && r.error.Leftover? ==> r.error.remaining != [] && Entry(t).Done? && Entry(t).rest == r.error.remaining
    ensures r.Err? && r.error.NoMatch? <==> Entry(t).Fail?
  {
    match Entry(t)
    case Fail => Err(NoMatch)
    case Done(e, rest) => if rest == [] then Ok(e) else Err(Leftover(rest))
  }

  /** A course listing that matches but leaves text behind makes the cell
      fail with that text; the elective alternative is not tried. */
  lemma ListingLeftoverRefused(text: string, e: CourseEntry, u: string)
    requires CourseListing(Trim(text)) == Done(e, u) && u != []
    ensures Parse(text) == Err(Leftover(u))
  {
    assert Entry(Trim(text)) == Done(e, u);
  }

  /** Whitespace around the text does not change how it parses. */
  lemma ParseIgnoresOuterWhitespace(a: string, text: string, c: string)
    requires IsWhitespaceString(a) && IsWhitespaceString(c)
    ensures Parse(a + text + c) == Parse(text)
  {
    TrimPadded(a, text, c);
    ParseSameTrim(a + text + c, text);
  }

  lemma ParseSameTrim(x: string, y: string)
    requires Trim(x) == Trim(y)
    ensures Parse(x) == Parse(y)
  {
  }
}
