# Degree-plan scraper: the calendar grammars and the plan builder

This project models the core of the DegreePlanner scraper in Dafny. The
scraper reads the "Academic Curriculum" table of a university calendar page
and turns it into a course-plan template: a list of terms, each with a label
such as "1A F22" and the names of its courses, in order. For co-op programs,
it then splices six work terms into the eight study terms, following the
program's study/work stream.

The model covers five parts of that core:

- **The course-cell grammar** (`CourseEntries`, in `scraper/src/course_entry.rs`).
  - A cell is either a course listing or an elective-slots declaration.
  - A course listing is a department code, a number, an optional "CR/NCR", an
    optional title, an optional footnote glyph and an optional
    "(see note(s) …)" block. An example is "CS 137 Programming Principles".
  - An elective-slots declaration is an optional number word, an optional
    "Communication", the word "Elective(s)" and optional notes. An example is
    "Two Electives".
  - Each nom parser becomes a function from the input to `Parsed<T>`, which
    is either `Fail` or `Done(value, rest)`. Alternation is ordered choice,
    and whitespace is skipped before every item of a sequence.
  - `CourseEntry::parse` becomes `Parse`. Where the scraper panics (no
    match, or text left over), `Parse` returns an error value instead.
- **Round trips of the course grammar** (`CourseRendering`).
  - The model writes a well-formed entry back as calendar text.
    - For a course listing, it covers any whitespace before the number, any
      non-empty whitespace before "CR/NCR" and the title (the same text
      before both), and any whitespace before the footnote and the notes.
    - Inside the notes block and in elective declarations, it writes single
      spaces only.
    - It covers all three notes joiners ("1, 2, 3", "1, 2 and 3" and
      "1, 2, and 3"), and singular and plural spellings.
  - It proves that `Parse` reads the entry back.
  - `CourseExamples` restates five of the repository's parser tests.
- **The term-header grammar and the term label** (`TermEntries`, in
  `scraper/src/term_entry.rs`).
  - The grammar reads headers such as "1A Fall". The header is first
    trimmed of Unicode whitespace. Between the code and the season, and after
    the season, the grammar skips only the combinator library's own
    separators: space, tab, carriage return and line feed. (The course
    grammar defines its own `ws!`, which skips any Unicode whitespace.)
  - `format_with_year` writes the label, for example "1A F23".
- **`extract_courses`, `coop_term` and `insert_coop_terms`** (`Scraper`, in
  `scraper/src/main.rs`).
- **The row scan** of the scraper's main routine (`Scraper.ScanTable`, a
  method with the source's loop).
  - A header row closes the open term. It reads the term cell; a Winter term
    advances the calendar year. It then opens a new term with the row's
    courses.
  - A continuation row appends its courses to the open term.
  - After the last row, the open term is closed.
  - The loop is proved equal to a recursive definition, `Run`/`BuildPlan`.
  - Lemmas about `Run`/`BuildPlan` state what the plan contains:
    - one term per header row;
    - every course in row order;
    - the year counter equals the first year plus the number of Winter headers;
    - exactly which tables are accepted.

The shared module `Text` holds:

- the character classes;
- whitespace skipping and trimming;
- take-while scanning;
- decimal rendering of naturals.

The `Text` functions are helpers, so the table lists only those that stand for a named part of the source.

The comment at term_entry.rs:85 speaks of the last two digits of the year,
but the code computes `year - year / 100 * 100` and prints it with `{}`. So
the year 2105 labels the Fall 1A term "1A F5", not "1A F05"; the model
follows the code (`TermEntries.FormatExamples`).

## Model

| member | source | states |
|---|---|---|
| Text.SkipWs | scraper/src/course_entry.rs:205 | `whitespace`: the result is a suffix of the input, the part dropped is all whitespace, and the result does not start with whitespace |
| Text.Trim | scraper/src/course_entry.rs:65-66 | the trimmed text neither starts nor ends with whitespace, and text that starts solid keeps its first character |
| Text.TrimPadded | scraper/src/course_entry.rs:65-66 | whitespace added around a text does not change its trimmed form |
| Text.TakeWhile1 | scraper/src/course_entry.rs:108-116 | `take_while1`: succeeds exactly when the first character qualifies; the value is the longest non-empty qualifying prefix and the rest starts with a non-qualifying character |
| Text.NatToDecimal | scraper/src/term_entry.rs:84-88 | the decimal text of a natural is non-empty, all digits, denotes the number, has no leading zero, and is one character exactly below 10 |
| Text.NatToDecimalInjective | scraper/src/main.rs:253-262 | distinct numbers have distinct decimal texts (what keeps numbered electives and co-op names apart) |
| CourseEntries.DeptCode | scraper/src/course_entry.rs:108-111 | succeeds exactly when the input starts with an uppercase letter; reads the maximal uppercase run |
| CourseEntries.CourseNumber | scraper/src/course_entry.rs:113-116 | succeeds exactly when the input starts with a digit; reads the maximal digit run |
| CourseEntries.CreditOnly | scraper/src/course_entry.rs:118-121 | succeeds exactly on a leading "CR/NCR", yielding `true` and the text after it |
| CourseEntries.Title | scraper/src/course_entry.rs:123-137 | succeeds exactly when the first character is a title character (letter, digit, whitespace, '-' or ':'); reads the maximal run of them, the rest is a suffix of the input, and the title is exactly the consumed prefix trimmed |
| CourseEntries.FootnoteMark | scraper/src/course_entry.rs:139-144 | succeeds exactly on a leading '*' or '+', consumes the glyph of the footnote it returns, and the longer "***"/"**" are preferred: a one- or two-star result is never followed by another '*' |
| CourseEntries.Nat | scraper/src/course_entry.rs:168-171 | succeeds exactly on a leading digit and consumes the maximal digit run |
| CourseEntries.CommaNats | scraper/src/course_entry.rs:146-166 | the `("," nat)*` repetition stops only where no further comma-number follows |
| CourseEntries.NotesOpen | scraper/src/course_entry.rs:146-150 | succeeds exactly when "(see note" follows the leading whitespace |
| CourseEntries.NotesClose | scraper/src/course_entry.rs:146-166 | succeeds exactly when ')' follows the leading whitespace |
| CourseEntries.Notes | scraper/src/course_entry.rs:146-166 | a notes block that parses lists at least one note |
| CourseEntries.NumberWord | scraper/src/course_entry.rs:187-198 | a number word read is one of One..Ten, and the input starts with that word |
| CourseEntries.EType | scraper/src/course_entry.rs:200-203 | succeeds exactly on a leading "Communication", which it returns |
| CourseEntries.TitleField | scraper/src/course_entry.rs:91-106 | a title read as a field of a listing is well formed: non-empty, title characters only, no whitespace at either end |
| CourseEntries.CourseListing | scraper/src/course_entry.rs:91-106 | a listing that parses is a well-formed `Course`; it fails exactly when the department code or the course number is missing |
| CourseEntries.SlotsField | scraper/src/course_entry.rs:173-185 | the slot count is between 1 and 10: 1 when no number word is written, and otherwise the number word's value |
| CourseEntries.ETypeField | scraper/src/course_entry.rs:173-185 | an elective type read is "Communication" |
| CourseEntries.ElectiveWord | scraper/src/course_entry.rs:173-185 | succeeds exactly when "Elective" follows the leading whitespace |
| CourseEntries.ElectiveSlots | scraper/src/course_entry.rs:173-185 | a declaration that parses is a well-formed `Electives` |
| CourseEntries.Entry | scraper/src/course_entry.rs:86-89 | ordered choice: an `Electives` result only when no course listing matched, and a listing that matches is the result, rest included |
| CourseEntries.Parse | scraper/src/course_entry.rs:64-76 | accepted exactly when the entry grammar reads the whole trimmed cell, and the entry is well formed; a leftover error reports the non-empty text the grammar left; a no-match error exactly when the grammar fails |
| CourseEntries.ParseTrimmed | scraper/src/course_entry.rs:66-75 | on the trimmed text: accepted exactly when the grammar reads all of it; otherwise the leftover text or the no-match error, each exactly when it occurs |
| CourseEntries.ListingLeftoverRefused | scraper/src/course_entry.rs:64-89 | a cell whose course listing stops before the end of the trimmed text is refused, reporting the text left over |
| CourseEntries.ParseIgnoresOuterWhitespace | scraper/src/course_entry.rs:65-66 | whitespace around a cell does not change how it parses |
| CourseRendering.NotesRoundTrip | scraper/src/course_entry.rs:146-166 | every non-empty note list, written with any of the three joiners, parses back to the same list, leaving the text after ')' |
| CourseRendering.ParseRenderCourse | scraper/src/course_entry.rs:64-106 | every well-formed course listing, written in any valid layout and joiner and padded with whitespace, parses back to exactly that entry |
| CourseRendering.ParseRenderElectives | scraper/src/course_entry.rs:64-89 | every well-formed elective-slots entry, in singular or plural, with or without "One", padded with whitespace, parses back to exactly that entry |
| CourseRendering.NumberNameRead | scraper/src/course_entry.rs:187-198 | each number word is read as its own number, although the words are tried in order |
| CourseRendering.CourseListingRejectsWord | scraper/src/course_entry.rs:86-89 | a cell that starts with a capitalised word is not a course listing, so the entry parser's result is the elective-slots reading |
| CourseRendering.GlyphRead | scraper/src/course_entry.rs:139-144 | each footnote glyph is read as its own footnote when no further '*' follows it |
| CourseExamples.ParseProgrammingPrinciples | scraper/src/course_entry.rs:229-236 | "CS 137\u{a0}Programming Principles" parses to CS 137 with that title; the non-breaking space separates like a space |
| CourseExamples.ParseCommunicationElective | scraper/src/course_entry.rs:253-257 | "Communication Elective (see note 6)" parses to one Communication slot with note 6 |
| CourseExamples.ParseCreditOnly | scraper/src/course_entry.rs:284-291 | "TPM 000 CR/NCR" parses to a credit-only course without title |
| CourseExamples.ParseUserInterfaces | scraper/src/course_entry.rs:292-299 | "CS 349 User Interfaces ***" parses with the three-star footnote, not a shorter one |
| CourseExamples.ParseSerialComma | scraper/src/course_entry.rs:323-327 | "Two Electives (see notes 1, 2, 3, and 4)" parses to two slots with notes [1, 2, 3, 4] |
| TermEntries.Short | scraper/src/term_entry.rs:23-30 | the season abbreviation is one letter, the initial of the season's word |
| TermEntries.ShortInjective | scraper/src/term_entry.rs:23-30 | the abbreviations tell the seasons apart |
| TermEntries.Show | scraper/src/term_entry.rs:45-58 | a term number displays as a level digit 1-4 followed by 'A' or 'B' |
| TermEntries.ShowInjective | scraper/src/term_entry.rs:45-58 | distinct term numbers display differently |
| TermEntries.ParseTermNumber | scraper/src/term_entry.rs:97-106 | a code read is the display of the value returned, followed by the rest; failure means no code is a prefix |
| TermEntries.ParseSeason | scraper/src/term_entry.rs:108-112 | a season read is its word followed by the rest; failure means no season word is a prefix |
| TermEntries.ParseShow | scraper/src/term_entry.rs:97-106 | every term number's display reads back as that number |
| TermEntries.TermEntryRuleAccepts | scraper/src/term_entry.rs:91-95 | a code, separator characters (space, tab, CR, LF) and a season word read as that entry with nothing left |
| TermEntries.TermEntryRuleAcceptsOnly | scraper/src/term_entry.rs:91-95 | a trimmed text the rule reads completely is a code's display, separator characters and a season word, and nothing else |
| TermEntries.ParseAccepts | scraper/src/term_entry.rs:68-78 | completeness: any code and season, with any Unicode whitespace before and after and any separator characters between, parse to exactly that entry |
| TermEntries.Parse | scraper/src/term_entry.rs:68-78 | soundness: an accepted header is, once trimmed, exactly a code's display, separator characters and a season word; a leftover error reports non-empty text that does not start with a separator |
| TermEntries.ParseRejectsNbspSeparator | scraper/src/term_entry.rs:91-95 | a non-breaking space between the code and the season is not a separator: the header is refused |
| TermEntries.ParseExample | scraper/src/term_entry.rs:68-78 | "1A Fall" parses to term 1A in the Fall |
| TermEntries.ParseIgnoresOuterWhitespace | scraper/src/term_entry.rs:68-70 | whitespace around a header does not change how it parses |
| TermEntries.YearStartLabel | scraper/src/term_entry.rs:80-82 | a term starts the calendar year exactly when it is a Winter term, that is when its label's season letter is 'W' |
| TermEntries.FormatWithYear | scraper/src/term_entry.rs:84-88 | the label is the 2-character code, a space, the season letter and the unpadded decimal of year mod 100; it is 5 characters long exactly when year mod 100 < 10 |
| TermEntries.FormatWithYearInjective | scraper/src/term_entry.rs:84-88 | two labels are equal exactly when they name the same term in years with equal last two digits |
| TermEntries.FormatExamples | scraper/src/term_entry.rs:84-88 | 1A Fall is labelled "1A F23" in 2023 and "1A F5" in 2105 |
| Scraper.CourseNames | scraper/src/main.rs:248-264 | a course gives one name and an elective declaration as many names as it has slots |
| Scraper.ExtractCourses | scraper/src/main.rs:248-265 | succeeds exactly when the cell parses, and then returns the names of the parsed entry (`CourseNames`); otherwise it carries the parser's error |
| Scraper.ExtractRenderedCourse | scraper/src/main.rs:250-252 | any well-formed course listing, in any layout the renderer writes, yields the single name "{dept} {number}" |
| Scraper.ExtractRenderedElectives | scraper/src/main.rs:253-263 | any well-formed elective declaration yields its slot names, one per slot |
| Scraper.CourseNameRoundTrip | scraper/src/main.rs:250-252 | a course gives one name, and that name splits at its space back into the department code and the course number |
| Scraper.SingleElectiveName | scraper/src/main.rs:253-262 | a single slot is named "Elective", or "{type} Elective", with no number |
| Scraper.ElectiveIndex | scraper/src/main.rs:253-262 | with several slots, the k-th name is the prefix "[Type ]Elective", a space and the unpadded decimal of k + 1 (digits denoting k + 1, no leading zero): the slots are numbered 1..N in order |
| Scraper.ElectiveNamesDistinct | scraper/src/main.rs:253-262 | with several slots, no two slots share a name |
| Scraper.CoopTerm | scraper/src/main.rs:312-324 | the work term is named "Co-op n"; its first course is "COOP n"; a second course is present exactly when the list has an n-th entry, and then it is that entry |
| Scraper.CoopTermNamesDistinct | scraper/src/main.rs:312-324 | distinct co-op numbers give distinctly named terms |
| Scraper.InsertCoopTerms | scraper/src/main.rs:270-273 | fails exactly when the plan does not have 8 terms, reporting the count |
| Scraper.InsertPlacesStudy | scraper/src/main.rs:270-310 | with 8 terms the result has 14, and study term i sits at its stream's i-th study position |
| Scraper.InsertPlacesWork | scraper/src/main.rs:270-310 | with 8 terms, co-op term n sits at its stream's n-th work position |
| Scraper.PositionsAscend | scraper/src/main.rs:274-306 | the study positions and the work positions both ascend (terms and co-op terms keep their order) and never coincide |
| Scraper.PositionsFollowLetters | scraper/src/main.rs:274-306 | the study positions are the 'A' slots and the work positions the 'C' slots of the stream's pattern (Four: ACACACACACACAA; Eight: AACACACACACACA) |
| Scraper.LetterCounts | scraper/src/main.rs:274-306 | each stream's pattern has 14 slots: 8 study and 6 work |
| Scraper.StreamAdjacency | scraper/src/main.rs:274-306 | the Four stream ends with the last two study terms back to back; the Eight stream starts with the first two |
| Scraper.ScanRows | scraper/src/main.rs:182-223 | the loop's result is the plan the table describes (`BuildPlan`) |
| Scraper.ScanTable | scraper/src/main.rs:182-223 | the loop succeeds exactly when the scan does; then it returns the scanned terms with the last open term closed, and otherwise the scan's error |
| Scraper.NextYear | scraper/src/main.rs:198-200 | the year stays or goes up by one, and goes up exactly when the header is a Winter term |
| Scraper.Step | scraper/src/main.rs:192-218 | a row is accepted exactly when its cells parse and it is a header or a term is already open |
| Scraper.HeaderBadTerm | scraper/src/main.rs:197 | a header whose term cell does not parse ends the scan with that cell's error |
| Scraper.HeaderBadCell | scraper/src/main.rs:201-207 | a header whose course cell does not parse ends the scan with that cell's error |
| Scraper.HeaderOpens | scraper/src/main.rs:193-208 | a header closes the open term and opens one labelled with the year after any Winter increment and holding the row's courses |
| Scraper.ContinuationUnopened | scraper/src/main.rs:209-211 | a continuation before any header ends the scan (the source's `expect`) |
| Scraper.ContinuationBadCell | scraper/src/main.rs:213 | a continuation whose course cell does not parse ends the scan with that cell's error |
| Scraper.ContinuationExtends | scraper/src/main.rs:209-216 | a continuation appends its courses to the open term and changes nothing else |
| Scraper.RunStops | scraper/src/main.rs:185-219 | once a row fails, the scan ends with that row's error |
| Scraper.StepEffect | scraper/src/main.rs:192-218 | a row is accepted exactly when its cells parse and it is a header or a term is open, with the effect on closed terms, open term and year for each kind of row |
| Scraper.RunInvariant | scraper/src/main.rs:182-219 | after n rows: a term is open exactly when n > 0; closed plus open terms equal the header rows; the year is the first year plus the Winter headers; the courses so far are the rows' courses in row order |
| Scraper.HeaderLabelsTerm | scraper/src/main.rs:197-202 | a header's term is labelled from its entry and the first year plus the Winter headers up to and including it |
| Scraper.RunAcceptsExactly | scraper/src/main.rs:185-219 | the scan of n rows succeeds exactly when the first row is a header and every cell parses |
| Scraper.BuildPlanShape | scraper/src/main.rs:182-223 | the plan has one term per header row, and its courses, term after term, are the rows' courses in row order |
| Scraper.BuildPlanAccepts | scraper/src/main.rs:182-223 | a plan is built exactly when the first row is a header, every term cell parses as a term entry and every course cell parses as a course entry |
| Scraper.ContinuationFirstFails | scraper/src/main.rs:209-211 | a table that starts with a continuation row is refused |

## Left out

- The page fetch, HTML traversal, TOML configuration, JSON output, logging,
  the web server and the frontend are not part of this model.
- Rows are abstract: a row is a header (term text, course text) or a
  continuation (course text). So the model leaves out the skipping of text
  nodes between rows (main.rs:187-189), the column-count patterns
  (main.rs:191-193, 209-210) and their `unreachable!()` arm (main.rs:217).
- Character classes are ASCII plus U+00A0. Rust's Unicode
  `is_uppercase`, `is_alphabetic` and `is_whitespace` are not modelled beyond
  these.
- `u32` values become unbounded naturals. The model does not capture
  overflow: of a notes number or slot count, of the year counter, or of
  `slots + 1`.
- Panics become error values. A parse failure, text left over, a
  continuation with no open term, or a plan without 8 terms returns `Err`
  instead of aborting. The scan reports the first failing row; the error
  order within a row follows the source's evaluation order.
- `TermCourse { name }` is modelled as the name string itself.
- The per-program co-op exceptions (a TODO in main.rs:269) are not in the
  source, so they are not modelled either.
- Scraper.CoopTerm: requires `num >= 1`. At 0 the source's `num as usize - 1`
  would underflow, but `insert_coop_terms` only passes 1..6.
- Scraper.ScanTable: is stated for any row reader and any term labeller.
  `Scraper.ScanRows` instantiates it with the scraper's `ReadRow` and
  `format_with_year`. The lemmas about `Run` hold for every labeller.
- nom's `sep!` may insert whitespace skipping inside `tuple!` as well. The
  model reads "Elective"/"s" and "(see note"/"s" as contiguous, as the
  source's comments require. The nom library is not part of this model.
- CourseRendering.ParseRenderCourse and CourseRendering.ParseRenderElectives:
  the round trips are proved for the layouts the renderer writes. Texts that
  the grammar also accepts, with other spacing inside the notes block (as in
  "(see notes 1 , 2)") or in an elective declaration (as in
  "Two  Electives"), or with different whitespace before "CR/NCR" and the
  title, are not rendered, so no round trip is claimed for them.
