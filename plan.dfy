/** Building a course-plan template from the calendar's curriculum table:
    turning a parsed cell into course names, scanning the table's rows into
    terms, and splicing co-op work terms into an eight-term plan. */
module Scraper {
  import opened Text
  import CE = CourseEntries
  import TE = TermEntries
  import CR = CourseRendering

  /** A term of the plan: its label and the names of its courses, in order. */
  datatype Term = Term(name: string, courses: seq<string>)

  /** The co-op work/study streams: which terms are spent at work. */
  datatype Stream = Four | Eight

  /** A row of the curriculum table: one that opens a term (a term header
      cell and a course cell) or one that adds a course to the open term. */
  datatype Row = Header(termText: string, courseText: string) | Continuation(courseText: string)

  /** Why a table could not be turned into a plan. */
  datatype ScanError = BadTermHeader(text: string) | BadCourseCell(text: string) | NoOpenTerm

  datatype InsertError = WrongTermCount(count: nat)

  // ---------------------------------------------------------------------------
  // extract_courses

  /** "{dept} {number}". */
  function CourseName(e: CE.CourseEntry): string
    requires e.Course?
  {
    e.departmentCode + " " + e.courseNumber
  }

  /** "[Type ]Elective[ i]": the index is written only when there are
      several slots. */
  function ElectiveName(etype: Option<string>, slots: nat, i: nat): string {
    ElectivePrefix(etype) + (if slots == 1 then "" else " " + NatToDecimal(i))
  }

  /** "[Type ]Elective". */
  function ElectivePrefix(etype: Option<string>): string {
    (if etype.Some? then etype.value + " " else "") + "Elective"
  }

  /** The names a parsed cell contributes to its term. */
  function CourseNames(e: CE.CourseEntry): (names: seq<string>)
    ensures |names| == if e.Course? then 1 else e.slots
  {
    match e
    case Course(_, _, _, _, _, _) => [CourseName(e)]
    case Electives(slots, etype, _) => seq(slots, k requires 0 <= k => ElectiveName(etype, slots, k + 1))
  }

  /** `extract_courses`: a cell that does not parse is an error. */
  function ExtractCourses(text: string): (r: Result<seq<string>, CE.ParseError>)
    ensures r.Ok? <==> CE.Parse(text).Ok?
    ensures r.Err? ==> r.error == CE.Parse(text).error
    ensures r.Ok? ==> r.value == CourseNames(CE.Parse(text).value)
  {
    match CE.Parse(text)
    case Ok(e) => Ok(CourseNames(e))
    case Err(err) => Err(err)
  }

  /** A course cell as the calendar writes it yields the one name "{dept}
      {number}". */
  lemma ExtractRenderedCourse(a: string, e: CE.CourseEntry, l: CR.Layout, j: CR.Joiner, c: string)
    requires e.Course? && CE.WellFormed(e) && CR.LayoutValid(l)
    requires IsWhitespaceString(a) && IsWhitespaceString(c)
    ensures ExtractCourses(a + CR.RenderCourse(e, l, j) + c) == Ok([CourseName(e)])
  {
    CR.ParseRenderCourse(a, e, l, j, c);
  }

  /** An elective-slots cell yields one name per slot. */
  lemma ExtractRenderedElectives(a: string, e: CE.CourseEntry, spellOne: bool, plural: bool, j: CR.Joiner, c: string)
    requires e.Electives? && CE.WellFormed(e)
    requires IsWhitespaceString(a) && IsWhitespaceString(c)
    ensures ExtractCourses(a + CR.RenderElectives(e, spellOne, plural, j) + c) == Ok(CourseNames(e))
    ensures |CourseNames(e)| == e.slots
  {
    CR.ParseRenderElectives(a, e, spellOne, plural, j, c);
  }

  /** The department code and number, read back from a course name: the
      text before and after its first space. */
  function SplitCourseName(n: string): (string, string) {
    if n == [] then ("", "")
    else if n[0] == ' ' then ("", n[1..])
    else
      var (a, b) := SplitCourseName(n[1..]);
      ([n[0]] + a, b)
  }

  lemma {:induction false} SplitAt(a: string, b: string)
    requires ' ' !in a
    ensures SplitCourseName(a + " " + b) == (a, b)
  {
    if a == [] {
      assert a + " " + b == " " + b;
    } else {
      assert (a + " " + b)[1..] == a[1..] + " " + b;
      SplitAt(a[1..], b);
      assert [a[0]] + a[1..] == a;
    }
  }

  /** A course contributes one name, from which its code and number are
      recovered: title, credit, footnote and notes are dropped. */
  lemma CourseNameRoundTrip(e: CE.CourseEntry)
    requires e.Course? && CE.WellFormed(e)
    ensures CourseNames(e) == [CourseName(e)]
    ensures SplitCourseName(CourseName(e)) == (e.departmentCode, e.courseNumber)
  {
    NotIn(e.departmentCode, IsUppercase, ' ');
    SplitAt(e.departmentCode, e.courseNumber);
  }

  /** A single slot is named without an index. */
  lemma SingleElectiveName(e: CE.CourseEntry)
    requires e.Electives? && e.slots == 1
    ensures e.etype.None? ==> CourseNames(e) == ["Elective"]
    ensures e.etype.Some? ==> CourseNames(e) == [e.etype.value + " Elective"]
  {
    var n := CourseNames(e)[0];
    assert CourseNames(e) == [n];
    assert n == ElectiveName(e.etype, 1, 1);
    assert n == ElectivePrefix(e.etype) + "";
    if e.etype.Some? {
      TypedElective(e.etype.value);
    } else {
      EmptyAround("Elective");
    }
  }

  lemma EmptyAround(t: string)
    ensures "" + t + "" == t
  {
  }

  lemma TypedElective(t: string)
    ensures t + " " + "Elective" + "" == t + " Elective"
  {
    assert " Elective" == " " + "Elective";
  }

  lemma PrefixCancel(p: string, a: string, b: string)
    requires p + a == p + b
    ensures a == b
  {
    assert a == (p + a)[|p|..];
  }

  lemma PrefixDistinct(p: string, a: string, b: string)
    requires a != b
    ensures p + a != p + b
  {
    if p + a == p + b {
      PrefixCancel(p, a, b);
    }
  }

  /** Several slots are numbered 1..N in order: the text after the prefix
      and a space is the decimal of the slot's position counted from 1. */
  lemma ElectiveIndex(e: CE.CourseEntry, k: nat)
    requires e.Electives? && e.slots > 1 && k < e.slots
    ensures var n := CourseNames(e)[k];
            var m := |ElectivePrefix(e.etype)|;
            m + 1 < |n| && n[..m] == ElectivePrefix(e.etype) && n[m] == ' '
            && AllChars(n[m + 1..], IsDigit) && DecimalValue(n[m + 1..]) == k + 1
            && n[m + 1..] == NatToDecimal(k + 1)
  {
    var n := CourseNames(e)[k];
    var p := ElectivePrefix(e.etype);
    var d := NatToDecimal(k + 1);
    assert n == ElectiveName(e.etype, e.slots, k + 1);
    assert n == p + (" " + d);
    assert n[..|p|] == p && n[|p|] == ' ' && n[|p| + 1..] == d;
  }

  /** Hence no two of several slots share a name. */
  lemma ElectiveNamesDistinct(e: CE.CourseEntry, i: nat, j: nat)
    requires e.Electives? && e.slots > 1 && i < j < e.slots
    ensures CourseNames(e)[i] != CourseNames(e)[j]
  {
    ElectiveIndex(e, i);
    ElectiveIndex(e, j);
  }

  // ---------------------------------------------------------------------------
  // coop_term and insert_coop_terms

  /** `coop_term`: "Co-op n" with the course "COOP n" and, when there is
      one, the n-th professional-development course. */
  function CoopTerm(num: nat, pd: seq<string>): (t: Term)
    requires num >= 1
    ensures 1 <= |t.courses| <= 2
    ensures t.courses[0] == "COOP " + NatToDecimal(num)
    ensures |t.courses| == 2 <==> num <= |pd|
    ensures |t.courses| == 2 ==> t.courses[1] == pd[num - 1]
    ensures t.name == "Co-op " + NatToDecimal(num)
  {
    var courses := ["COOP " + NatToDecimal(num)];
    var courses := if num - 1 < |pd| then courses + [pd[num - 1]] else courses;
    Term("Co-op " + NatToDecimal(num), courses)
  }

  /** Distinct co-op terms have distinct labels. */
  lemma CoopTermNamesDistinct(m: nat, n: nat, pd: seq<string>)
    requires 1 <= m && 1 <= n && m != n
    ensures CoopTerm(m, pd).name != CoopTerm(n, pd).name
  {
    if CoopTerm(m, pd).name == CoopTerm(n, pd).name {
      PrefixCancel("Co-op ", NatToDecimal(m), NatToDecimal(n));
    }
  }

  /** `insert_coop_terms`: six co-op terms spliced into an eight-term plan
      by the stream's fixed pattern. A plan of any other length is refused. */
  function InsertCoopTerms(terms: seq<Term>, stream: Stream, pd: seq<string>): (r: Result<seq<Term>, InsertError>)
    ensures r.Err? <==> |terms| != 8
    ensures r.Err? ==> r.error == WrongTermCount(|terms|)
  {
    if |terms| != 8 then Err(WrongTermCount(|terms|))
    else
      match stream
      case Four => Ok(FourStreamPlan(terms, pd))
      case Eight => Ok(EightStreamPlan(terms, pd))
  }

  /** The four-stream splice: alternating from the first academic term,
      ending with two academic terms. */
  function FourStreamPlan(terms: seq<Term>, pd: seq<string>): seq<Term>
    requires |terms| == 8
  {
    [terms[0], CoopTerm(1, pd), terms[1], CoopTerm(2, pd), terms[2], CoopTerm(3, pd), terms[3],
     CoopTerm(4, pd), terms[4], CoopTerm(5, pd), terms[5], CoopTerm(6, pd), terms[6], terms[7]]
  }

  /** The eight-stream splice: two academic terms, then alternating. */
  function EightStreamPlan(terms: seq<Term>, pd: seq<string>): seq<Term>
    requires |terms| == 8
  {
    [terms[0], terms[1], CoopTerm(1, pd), terms[2], CoopTerm(2, pd), terms[3], CoopTerm(3, pd),
     terms[4], CoopTerm(4, pd), terms[5], CoopTerm(5, pd), terms[6], CoopTerm(6, pd), terms[7]]
  }

  /** The published sequences: A = academic term, C = co-op term. */
  function Letters(stream: Stream): string {
    match stream
    case Four => "ACACACACACACAA"
    case Eight => "AACACACACACACA"
  }

  /** Where the i-th academic term (from 0) goes. */
  function StudyPosition(stream: Stream, i: nat): nat {
    match stream
    case Four => if i < 7 then 2 * i else 13
    case Eight => if i < 2 then i else 2 * i - 1
  }

  /** Where co-op term n (from 1) goes. */
  function WorkPosition(stream: Stream, n: nat): nat
    requires n >= 1
  {
    match stream
    case Four => 2 * n - 1
    case Eight => 2 * n
  }

  /** Each kind of term is placed in ascending order, inside the fourteen
      positions, and no two terms share one. */
  lemma PositionsAscend(stream: Stream, i: nat, j: nat, m: nat, n: nat)
    requires i < j < 8 && 1 <= m < n <= 6
    ensures StudyPosition(stream, i) < StudyPosition(stream, j) < 14
    ensures WorkPosition(stream, m) < WorkPosition(stream, n) < 14
    ensures StudyPosition(stream, i) != WorkPosition(stream, m) && StudyPosition(stream, j) != WorkPosition(stream, n)
    ensures StudyPosition(stream, i) != WorkPosition(stream, n) && StudyPosition(stream, j) != WorkPosition(stream, m)
  {
  }

  /** The positions follow the published pattern: academic terms at the
      A's and co-op terms at the C's. With eight A's and six C's among
      fourteen letters, every position is used exactly once. */
  lemma PositionsFollowLetters(stream: Stream, i: nat, n: nat)
    requires i < 8 && 1 <= n <= 6
    ensures |Letters(stream)| == 14
    ensures StudyPosition(stream, i) < 14 && Letters(stream)[StudyPosition(stream, i)] == 'A'
    ensures WorkPosition(stream, n) < 14 && Letters(stream)[WorkPosition(stream, n)] == 'C'
  {
  }

  lemma LetterCounts(stream: Stream)
    ensures multiset(Letters(stream))['A'] == 8 && multiset(Letters(stream))['C'] == 6
    ensures |Letters(stream)| == 14
  {
    match stream
    case Four => FourCounts(Letters(Four));
    case Eight => EightCounts(Letters(Eight));
  }

  lemma FourCounts(p: string)
    requires p == "ACACACACACACAA"
    ensures multiset(p)['A'] == 8 && multiset(p)['C'] == 6 && |p| == 14
  {
  }

  lemma EightCounts(p: string)
    requires p == "AACACACACACACA"
    ensures multiset(p)['A'] == 8 && multiset(p)['C'] == 6 && |p| == 14
  {
  }

  /** Each input term appears at its academic position. */
  lemma InsertPlacesStudy(terms: seq<Term>, stream: Stream, pd: seq<string>, i: nat)
    requires |terms| == 8 && i < 8
    ensures InsertCoopTerms(terms, stream, pd).Ok?
    ensures |InsertCoopTerms(terms, stream, pd).value| == 14
    ensures InsertCoopTerms(terms, stream, pd).value[StudyPosition(stream, i)] == terms[i]
  {
    match stream
    case Four => FourStudy(terms, pd, i);
    case Eight => EightStudy(terms, pd, i);
  }

  lemma FourStudy(terms: seq<Term>, pd: seq<string>, i: nat)
    requires |terms| == 8 && i < 8
    ensures |FourStreamPlan(terms, pd)| == 14
    ensures FourStreamPlan(terms, pd)[StudyPosition(Four, i)] == terms[i]
  {
    var p := FourStreamPlan(terms, pd);
    if i == 0 { assert p[0] == terms[0]; }
    else if i == 1 { assert p[2] == terms[1]; }
    else if i == 2 { assert p[4] == terms[2]; }
    else if i == 3 { assert p[6] == terms[3]; }
    else if i == 4 { assert p[8] == terms[4]; }
    else if i == 5 { assert p[10] == terms[5]; }
    else if i == 6 { assert p[12] == terms[6]; }
    else { assert p[13] == terms[7]; }
  }

  lemma EightStudy(terms: seq<Term>, pd: seq<string>, i: nat)
    requires |terms| == 8 && i < 8
    ensures |EightStreamPlan(terms, pd)| == 14
    ensures EightStreamPlan(terms, pd)[StudyPosition(Eight, i)] == terms[i]
  {
    var p := EightStreamPlan(terms, pd);
    if i == 0 { assert p[0] == terms[0]; }
    else if i == 1 { assert p[1] == terms[1]; }
    else if i == 2 { assert p[3] == terms[2]; }
    else if i == 3 { assert p[5] == terms[3]; }
    else if i == 4 { assert p[7] == terms[4]; }
    else if i == 5 { assert p[9] == terms[5]; }
    else if i == 6 { assert p[11] == terms[6]; }
    else { assert p[13] == terms[7]; }
  }

  /** Co-op term n appears at the n-th co-op position. */
  lemma InsertPlacesWork(terms: seq<Term>, stream: Stream, pd: seq<string>, n: nat)
    requires |terms| == 8 && 1 <= n <= 6
    ensures InsertCoopTerms(terms, stream, pd).Ok?
    ensures |InsertCoopTerms(terms, stream, pd).value| == 14
    ensures InsertCoopTerms(terms, stream, pd).value[WorkPosition(stream, n)] == CoopTerm(n, pd)
  {
    match stream
    case Four => FourWork(terms, pd, n);
    case Eight => EightWork(terms, pd, n);
  }

  lemma FourWork(terms: seq<Term>, pd: seq<string>, n: nat)
    requires |terms| == 8 && 1 <= n <= 6
    ensures |FourStreamPlan(terms, pd)| == 14
    ensures FourStreamPlan(terms, pd)[WorkPosition(Four, n)] == CoopTerm(n, pd)
  {
    var p := FourStreamPlan(terms, pd);
    if n == 1 { assert p[1] == CoopTerm(1, pd); }
    else if n == 2 { assert p[3] == CoopTerm(2, pd); }
    else if n == 3 { assert p[5] == CoopTerm(3, pd); }
    else if n == 4 { assert p[7] == CoopTerm(4, pd); }
    else if n == 5 { assert p[9] == CoopTerm(5, pd); }
    else { assert p[11] == CoopTerm(6, pd); }
  }

  lemma EightWork(terms: seq<Term>, pd: seq<string>, n: nat)
    requires |terms| == 8 && 1 <= n <= 6
    ensures |EightStreamPlan(terms, pd)| == 14
    ensures EightStreamPlan(terms, pd)[WorkPosition(Eight, n)] == CoopTerm(n, pd)
  {
    var p := EightStreamPlan(terms, pd);
    if n == 1 { assert p[2] == CoopTerm(1, pd); }
    else if n == 2 { assert p[4] == CoopTerm(2, pd); }
    else if n == 3 { assert p[6] == CoopTerm(3, pd); }
    else if n == 4 { assert p[8] == CoopTerm(4, pd); }
    else if n == 5 { assert p[10] == CoopTerm(5, pd); }
    else { assert p[12] == CoopTerm(6, pd); }
  }

  /** Four-stream ends with two academic terms in a row; eight-stream
      starts with two. */
  lemma StreamAdjacency(terms: seq<Term>, pd: seq<string>)
    requires |terms| == 8
    ensures InsertCoopTerms(terms, Four, pd).value[12..] == terms[6..]
    ensures InsertCoopTerms(terms, Eight, pd).value[..2] == terms[..2]
  {
  }

  // ---------------------------------------------------------------------------
  // The row scan

  /** The scan's state: the terms closed so far, the open term, and the
      calendar year of the open term. */
  datatype ScanState = ScanState(done: seq<Term>, open: Option<Term>, year: nat)

  /** A row with its cells read: the term cell through the term-entry
      grammar, the course cell through `extract_courses`. Each cell's text
      is kept for the error it may produce. */
  datatype Cells =
    | HeaderCells(termText: string, entry: Result<TE.TermEntry, TE.ParseError>, courseText: string, names: Result<seq<string>, CE.ParseError>)
    | ContinuationCells(courseText: string, names: Result<seq<string>, CE.ParseError>)

  /** What the loop reads from a row. */
  function ReadRow(row: Row): (c: Cells)
    ensures c.HeaderCells? <==> row.Header?
    ensures c.courseText == row.courseText && c.names == ExtractCourses(row.courseText)
    ensures c.HeaderCells? ==> c.termText == row.termText && c.entry == TE.Parse(row.termText)
  {
    match row
    case Header(termText, courseText) => HeaderCells(termText, TE.Parse(termText), courseText, ExtractCourses(courseText))
    case Continuation(courseText) => ContinuationCells(courseText, ExtractCourses(courseText))
  }

  /** How a row is read; the scraper reads with `ReadRow`. */
  type Reader = Row -> Cells

  /** The rows of a table, read. */
  function ReadRows(read: Reader, rows: seq<Row>): (cells: seq<Cells>)
    ensures |cells| == |rows|
    ensures forall k :: 0 <= k < |rows| ==> cells[k] == read(rows[k])
  {
    seq(|rows|, k requires 0 <= k < |rows| => read(rows[k]))
  }

  /** The terms closed so far, and the open term closed after them. */
  function Close(st: ScanState): seq<Term> {
    if st.open.Some? then st.done + [st.open.value] else st.done
  }

  /** The calendar year of a term: one more than the previous term's when
      the term is a Winter term. */
  function NextYear(entry: TE.TermEntry, year: nat): (y: nat)
    ensures y == year || y == year + 1
    ensures y == year + 1 <==> TE.IsCalendarYearStart(entry)
  {
    if TE.IsCalendarYearStart(entry) then year + 1 else year
  }

  /** How a header's term is labelled from its term entry and calendar
      year: the scraper uses `format_with_year`. The scan's own lemmas hold
      for any labelling. */
  type Labeller = (TE.TermEntry, nat) -> string

  /** One row of the scan. A header closes the open term, reads its term
      cell (a Winter term starts a new calendar year) and opens a new term
      with the row's courses; a continuation adds its courses to the open
      term, which must exist. */
  function Step(format: Labeller, st: ScanState, c: Cells): (r: Result<ScanState, ScanError>)
    ensures r.Ok? <==> CellsParse(c) && (c.HeaderCells? || st.open.Some?)
  {
    match c
    case HeaderCells(termText, entry, courseText, names) =>
      if entry.Err? then Err(BadTermHeader(termText))
      else
        var year := NextYear(entry.value, st.year);
        if names.Err? then Err(BadCourseCell(courseText))
        else Ok(ScanState(Close(st), Some(Term(format(entry.value, year), names.value)), year))
    case ContinuationCells(courseText, names) =>
      if st.open.None? then Err(NoOpenTerm)
      else if names.Err? then Err(BadCourseCell(courseText))
      else Ok(ScanState(st.done, Some(Term(st.open.value.name, st.open.value.courses + names.value)), st.year))
  }

  /** The scan over the first n rows, from no terms and the first term's
      year. */
  function Run(format: Labeller, cells: seq<Cells>, n: nat, firstYear: nat): Result<ScanState, ScanError>
    requires n <= |cells|
  {
    if n == 0 then Ok(ScanState([], None, firstYear))
    else
      match Run(format, cells, n - 1, firstYear)
      case Err(e) => Err(e)
      case Ok(st) => Step(format, st, cells[n - 1])
  }

  /** The plan the table describes: the scan, then the last open term closed. */
  function BuildPlan(rows: seq<Row>, firstYear: nat): Result<seq<Term>, ScanError> {
    match Run(TE.FormatWithYear, ReadRows(ReadRow, rows), |rows|, firstYear)
    case Err(e) => Err(e)
    case Ok(st) => Ok(Close(st))
  }

  /** Once a row fails, the scan stops with that error. */
  lemma {:induction false} RunStops(format: Labeller, cells: seq<Cells>, i: nat, firstYear: nat)
    requires i <= |cells| && Run(format, cells, i, firstYear).Err?
    ensures Run(format, cells, |cells|, firstYear) == Run(format, cells, i, firstYear)
    decreases |cells| - i
  {
    if i < |cells| {
      RunStops(format, cells, i + 1, firstYear);
    }
  }

  /** The loop of the scraper's main routine over the rows of the table:
      each row is read (its term cell through the term-entry grammar, its
      course cell through `extract_courses`) and applied to the terms so
      far, the open term and the year. */
  method ScanRows(rows: seq<Row>, firstTermYear: nat) returns (r: Result<seq<Term>, ScanError>)
    ensures r == BuildPlan(rows, firstTermYear)
  {
    r := ScanTable(ReadRow, TE.FormatWithYear, rows, firstTermYear);
  }

  /** The loop itself, for any way of reading a row and labelling a term. */
  method ScanTable(read: Reader, format: Labeller, rows: seq<Row>, firstTermYear: nat) returns (r: Result<seq<Term>, ScanError>)
    ensures r.Ok? <==> Run(format, ReadRows(read, rows), |rows|, firstTermYear).Ok?
    ensures r.Ok? ==> r.value == Close(Run(format, ReadRows(read, rows), |rows|, firstTermYear).value)
    ensures r.Err? ==> r.error == Run(format, ReadRows(read, rows), |rows|, firstTermYear).error
  {
    ghost var cells := ReadRows(read, rows);
    var terms: seq<Term> := [];
    var current: Option<Term> := None;
    var year := firstTermYear;
    for i := 0 to |rows|
      invariant Run(format, cells, i, firstTermYear) == Ok(ScanState(terms, current, year))
    {
      ghost var st := ScanState(terms, current, year);
      var c := read(rows[i]);
      assert cells[i] == c;
      match c {
      case HeaderCells(termText, entry, courseText, names) =>
        if current.Some? {
          terms := terms + [current.value];
        }
        if entry.Err? {
          HeaderBadTerm(format, cells, i, firstTermYear, st);
          return Err(BadTermHeader(termText));
        }
        if TE.IsCalendarYearStart(entry.value) {
          year := year + 1;
        }
        if names.Err? {
          HeaderBadCell(format, cells, i, firstTermYear, st);
          return Err(BadCourseCell(courseText));
        }
        HeaderOpens(format, cells, i, firstTermYear, st);
        current := Some(Term(format(entry.value, year), names.value));
      case ContinuationCells(courseText, names) =>
        if current.None? {
          ContinuationUnopened(format, cells, i, firstTermYear, st);
          return Err(NoOpenTerm);
        }
        if names.Err? {
          ContinuationBadCell(format, cells, i, firstTermYear, st);
          return Err(BadCourseCell(courseText));
        }
        ContinuationExtends(format, cells, i, firstTermYear, st);
        current := Some(Term(current.value.name, current.value.courses + names.value));
      }
    }
    if current.Some? {
      terms := terms + [current.value];
    }
    r := Ok(terms);
  }

  /** A header whose term cell does not parse ends the scan. */
  lemma HeaderBadTerm(format: Labeller, cells: seq<Cells>, i: nat, firstYear: nat, st: ScanState)
    requires i < |cells| && cells[i].HeaderCells? && Run(format, cells, i, firstYear) == Ok(st)
    requires cells[i].entry.Err?
    ensures Run(format, cells, |cells|, firstYear) == Err(BadTermHeader(cells[i].termText))
  {
    RunStops(format, cells, i + 1, firstYear);
  }

  /** A header whose course cell does not parse ends the scan. */
  lemma HeaderBadCell(format: Labeller, cells: seq<Cells>, i: nat, firstYear: nat, st: ScanState)
    requires i < |cells| && cells[i].HeaderCells? && Run(format, cells, i, firstYear) == Ok(st)
    requires cells[i].entry.Ok? && cells[i].names.Err?
    ensures Run(format, cells, |cells|, firstYear) == Err(BadCourseCell(cells[i].courseText))
  {
    RunStops(format, cells, i + 1, firstYear);
  }

  /** A header closes the open term and opens the row's term, labelled with
      the year after any Winter increment. */
  lemma HeaderOpens(format: Labeller, cells: seq<Cells>, i: nat, firstYear: nat, st: ScanState)
    requires i < |cells| && cells[i].HeaderCells? && Run(format, cells, i, firstYear) == Ok(st)
    requires cells[i].entry.Ok? && cells[i].names.Ok?
    ensures var year := NextYear(cells[i].entry.value, st.year);
            Run(format, cells, i + 1, firstYear)
              == Ok(ScanState(Close(st), Some(Term(format(cells[i].entry.value, year), cells[i].names.value)), year))
  {
  }

  /** A continuation with no open term ends the scan. */
  lemma ContinuationUnopened(format: Labeller, cells: seq<Cells>, i: nat, firstYear: nat, st: ScanState)
    requires i < |cells| && cells[i].ContinuationCells? && Run(format, cells, i, firstYear) == Ok(st)
    requires st.open.None?
    ensures Run(format, cells, |cells|, firstYear) == Err(NoOpenTerm)
  {
    RunStops(format, cells, i + 1, firstYear);
  }

  /** A continuation whose cell does not parse ends the scan. */
  lemma ContinuationBadCell(format: Labeller, cells: seq<Cells>, i: nat, firstYear: nat, st: ScanState)
    requires i < |cells| && cells[i].ContinuationCells? && Run(format, cells, i, firstYear) == Ok(st)
    requires st.open.Some? && cells[i].names.Err?
    ensures Run(format, cells, |cells|, firstYear) == Err(BadCourseCell(cells[i].courseText))
  {
    RunStops(format, cells, i + 1, firstYear);
  }

  /** A continuation appends the row's courses to the open term. */
  lemma ContinuationExtends(format: Labeller, cells: seq<Cells>, i: nat, firstYear: nat, st: ScanState)
    requires i < |cells| && cells[i].ContinuationCells? && Run(format, cells, i, firstYear) == Ok(st)
    requires st.open.Some? && cells[i].names.Ok?
    ensures Run(format, cells, i + 1, firstYear)
              == Ok(ScanState(st.done, Some(Term(st.open.value.name, st.open.value.courses + cells[i].names.value)), st.year))
  {
  }

  // ---------------------------------------------------------------------------
  // What the scan produces

  /** All course names of a list of terms, term after term. */
  function Flatten(terms: seq<Term>): seq<string> {
    if terms == [] then [] else Flatten(terms[..|terms| - 1]) + terms[|terms| - 1].courses
  }

  lemma FlattenSnoc(terms: seq<Term>, t: Term)
    ensures Flatten(terms + [t]) == Flatten(terms) + t.courses
  {
    assert (terms + [t])[..|terms|] == terms;
  }

  /** The header rows among the first n. */
  function HeaderCount(cells: seq<Cells>, n: nat): nat
    requires n <= |cells|
  {
    if n == 0 then 0 else HeaderCount(cells, n - 1) + (if cells[n - 1].HeaderCells? then 1 else 0)
  }

  /** Whether a row is a header naming a Winter term. */
  predicate StartsYear(c: Cells) {
    c.HeaderCells? && c.entry.Ok? && TE.IsCalendarYearStart(c.entry.value)
  }

  /** The Winter headers among the first n rows. */
  function WinterCount(cells: seq<Cells>, n: nat): nat
    requires n <= |cells|
  {
    if n == 0 then 0 else WinterCount(cells, n - 1) + (if StartsYear(cells[n - 1]) then 1 else 0)
  }

  /** The names a course cell gives (none if it does not parse). */
  function CellNames(c: Cells): seq<string> {
    if c.names.Ok? then c.names.value else []
  }

  /** The names the course cells of the first n rows give, row after row. */
  function RowCourses(cells: seq<Cells>, n: nat): seq<string>
    requires n <= |cells|
  {
    if n == 0 then [] else RowCourses(cells, n - 1) + CellNames(cells[n - 1])
  }

  /** The courses of a scan state: those of the closed terms, then those of
      the open one. */
  function StateCourses(st: ScanState): seq<string> {
    Flatten(st.done) + (if st.open.Some? then st.open.value.courses else [])
  }

  /** Every cell of the row parses. */
  predicate CellsParse(c: Cells) {
    (c.HeaderCells? ==> c.entry.Ok?) && c.names.Ok?
  }

  /** The first n rows are ones the scan accepts: every cell parses, and the
      first row (if any) opens a term. */
  predicate AcceptablePrefix(cells: seq<Cells>, n: nat)
    requires n <= |cells|
  {
    (n == 0 || cells[0].HeaderCells?) && forall k :: 0 <= k < n ==> CellsParse(cells[k])
  }

  /** A table the scan accepts: its first row is a header, and every term
      cell and course cell parses. */
  predicate Acceptable(rows: seq<Row>) {
    (rows == [] || rows[0].Header?)
    && forall k :: 0 <= k < |rows| ==>
         (rows[k].Header? ==> TE.Parse(rows[k].termText).Ok?) && CE.Parse(rows[k].courseText).Ok?
  }

  /** One step of the scan, read off: a header closes the open term and
      opens a new one labelled with the (possibly advanced) year; a
      continuation extends the open term. */
  lemma StepEffect(format: Labeller, st: ScanState, c: Cells)
    ensures Step(format, st, c).Ok? <==> CellsParse(c) && (c.HeaderCells? || st.open.Some?)
    ensures Step(format, st, c).Ok? && c.HeaderCells? ==>
              var st' := Step(format, st, c).value;
              && st'.done == Close(st)
              && st'.year == st.year + (if StartsYear(c) then 1 else 0)
              && st'.open == Some(Term(format(c.entry.value, st'.year), CellNames(c)))
    ensures Step(format, st, c).Ok? && c.ContinuationCells? ==>
              var st' := Step(format, st, c).value;
              && st.open.Some?
              && st'.done == st.done
              && st'.year == st.year
              && st'.open == Some(Term(st.open.value.name, st.open.value.courses + CellNames(c)))
  {
  }

  lemma CloseCourses(st: ScanState)
    ensures Flatten(Close(st)) == StateCourses(st)
  {
    if st.open.Some? {
      FlattenSnoc(st.done, st.open.value);
    }
  }

  /** What the scan keeps: one term per header row (the last one still
      open), a year counter advanced once per Winter header, and every
      course in row order. */
  lemma RunInvariant(format: Labeller, cells: seq<Cells>, n: nat, firstYear: nat)
    requires n <= |cells| && Run(format, cells, n, firstYear).Ok?
    ensures var st := Run(format, cells, n, firstYear).value;
            && (st.open.None? <==> n == 0)
            && |st.done| + (if st.open.Some? then 1 else 0) == HeaderCount(cells, n)
            && st.year == firstYear + WinterCount(cells, n)
            && StateCourses(st) == RowCourses(cells, n)
  {
    RunTerms(format, cells, n, firstYear);
    RunYear(format, cells, n, firstYear);
    RunCourses(format, cells, n, firstYear);
  }

  lemma {:induction false} RunTerms(format: Labeller, cells: seq<Cells>, n: nat, firstYear: nat)
    requires n <= |cells| && Run(format, cells, n, firstYear).Ok?
    ensures var st := Run(format, cells, n, firstYear).value;
            && (st.open.None? <==> n == 0)
            && |st.done| + (if st.open.Some? then 1 else 0) == HeaderCount(cells, n)
  {
    if n > 0 {
      RunTerms(format, cells, n - 1, firstYear);
      StepEffect(format, Run(format, cells, n - 1, firstYear).value, cells[n - 1]);
    }
  }

  lemma {:induction false} RunYear(format: Labeller, cells: seq<Cells>, n: nat, firstYear: nat)
    requires n <= |cells| && Run(format, cells, n, firstYear).Ok?
    ensures Run(format, cells, n, firstYear).value.year == firstYear + WinterCount(cells, n)
  {
    if n > 0 {
      RunYear(format, cells, n - 1, firstYear);
      StepEffect(format, Run(format, cells, n - 1, firstYear).value, cells[n - 1]);
    }
  }

  lemma {:induction false} RunCourses(format: Labeller, cells: seq<Cells>, n: nat, firstYear: nat)
    requires n <= |cells| && Run(format, cells, n, firstYear).Ok?
    ensures StateCourses(Run(format, cells, n, firstYear).value) == RowCourses(cells, n)
  {
    if n > 0 {
      RunCourses(format, cells, n - 1, firstYear);
      StepCourses(format, Run(format, cells, n - 1, firstYear).value, cells[n - 1]);
    }
  }

  /** A step adds the row's courses after all the others. */
  lemma StepCourses(format: Labeller, st: ScanState, c: Cells)
    requires Step(format, st, c).Ok?
    ensures StateCourses(Step(format, st, c).value) == StateCourses(st) + CellNames(c)
  {
    StepEffect(format, st, c);
    if c.HeaderCells? {
      CloseCourses(st);
    } else {
      ExtendCourses(Flatten(st.done), st.open.value.courses, CellNames(c));
    }
  }

  lemma ExtendCourses(done: seq<string>, open: seq<string>, names: seq<string>)
    ensures done + (open + names) == done + open + names
  {
  }

  /** A header row labels its term with the year after any Winter increment. */
  lemma HeaderLabelsTerm(format: Labeller, cells: seq<Cells>, n: nat, firstYear: nat)
    requires 0 < n <= |cells| && cells[n - 1].HeaderCells? && Run(format, cells, n, firstYear).Ok?
    ensures var st := Run(format, cells, n, firstYear).value;
            var entry := cells[n - 1].entry;
            && entry.Ok? && st.open.Some?
            && st.open.value.name == format(entry.value, st.year)
            && st.year == firstYear + WinterCount(cells, n)
  {
    RunYear(format, cells, n, firstYear);
    StepEffect(format, Run(format, cells, n - 1, firstYear).value, cells[n - 1]);
  }

  /** The scan succeeds on the first n rows exactly when they are acceptable. */
  lemma {:induction false} RunAcceptsExactly(format: Labeller, cells: seq<Cells>, n: nat, firstYear: nat)
    requires n <= |cells|
    ensures Run(format, cells, n, firstYear).Ok? <==> AcceptablePrefix(cells, n)
  {
    if n > 0 {
      RunAcceptsExactly(format, cells, n - 1, firstYear);
      if Run(format, cells, n - 1, firstYear).Ok? {
        RunTerms(format, cells, n - 1, firstYear);
        StepEffect(format, Run(format, cells, n - 1, firstYear).value, cells[n - 1]);
      }
    }
  }

  /** The plan has one term per header row and lists every course of the
      table in row order. */
  lemma BuildPlanShape(rows: seq<Row>, firstYear: nat)
    requires BuildPlan(rows, firstYear).Ok?
    ensures |BuildPlan(rows, firstYear).value| == HeaderCount(ReadRows(ReadRow, rows), |rows|)
    ensures Flatten(BuildPlan(rows, firstYear).value) == RowCourses(ReadRows(ReadRow, rows), |rows|)
  {
    RunInvariant(TE.FormatWithYear, ReadRows(ReadRow, rows), |rows|, firstYear);
    CloseCourses(Run(TE.FormatWithYear, ReadRows(ReadRow, rows), |rows|, firstYear).value);
  }

  /** The plan is built exactly when the table is acceptable. */
  lemma BuildPlanAccepts(rows: seq<Row>, firstYear: nat)
    ensures BuildPlan(rows, firstYear).Ok? <==> Acceptable(rows)
  {
    var cells := ReadRows(ReadRow, rows);
    RunAcceptsExactly(TE.FormatWithYear, cells, |rows|, firstYear);
    assert AcceptablePrefix(cells, |rows|) <==> Acceptable(rows) by {
      forall k | 0 <= k < |rows|
        ensures CellsParse(cells[k]) <==> (rows[k].Header? ==> TE.Parse(rows[k].termText).Ok?) && CE.Parse(rows[k].courseText).Ok?
      {
        assert cells[k] == ReadRow(rows[k]);
      }
    }
  }

  /** A table whose first row adds to a term that was never opened fails
      with that error, whatever follows. */
  lemma ContinuationFirstFails(rows: seq<Row>, firstYear: nat)
    requires rows != [] && rows[0].Continuation?
    ensures BuildPlan(rows, firstYear) == Err(NoOpenTerm)
  {
    var cells := ReadRows(ReadRow, rows);
    assert cells[0] == ReadRow(rows[0]);
    RunStops(TE.FormatWithYear, cells, 1, firstYear);
  }
}
