/** Calendar cells from the scraper's own unit tests, read through the
    round-trip lemmas: each cell is shown to be the rendering of the entry
    the parser is expected to produce. */
module CourseExamples {
  import opened Text
  import opened CourseEntries
  import opened CourseRendering

  lemma Unpadded(t: string)
    ensures [] + t + [] == t
  {
  }

  /** A rendered elective-slots cell, with no padding, parses back. */
  lemma ParseRendered(text: string, e: CourseEntry, spellOne: bool, plural: bool, j: Joiner)
    requires e.Electives? && WellFormed(e)
    requires text == RenderElectives(e, spellOne, plural, j)
    ensures Parse(text) == Ok(e)
  {
    Unpadded(text);
    ParseRenderElectives([], e, spellOne, plural, j, []);
  }

  /** A rendered course cell, with no padding, parses back. */
  lemma ParseRenderedCourse(text: string, e: CourseEntry, l: Layout, j: Joiner)
    requires e.Course? && WellFormed(e) && LayoutValid(l)
    requires text == RenderCourse(e, l, j)
    ensures Parse(text) == Ok(e)
  {
    Unpadded(text);
    ParseRenderCourse([], e, l, j, []);
  }

  lemma TitleOnlyTail(e: CourseEntry, l: Layout, j: Joiner)
    requires e.Course? && !e.creditOnly && e.title.Some? && e.notes == []
    ensures e.footnote.None? ==> CourseTail(e, l, j) == l.fields + e.title.value
    ensures e.footnote.Some? ==> CourseTail(e, l, j) == l.fields + e.title.value + (l.footnote + Glyph(e.footnote.value))
  {
  }

  lemma PrinciplesText(text: string)
    requires text == "CS 137\U{00A0}Programming Principles"
    ensures text == "CS" + " " + "137" + ([Nbsp] + "Programming Principles")
  {
  }

  lemma PrinciplesTitle(t: string)
    requires t == "Programming Principles"
    ensures TitleWellFormed(t)
  {
  }

  /** The non-breaking space between number and title is skipped like any
      other whitespace. */
  lemma ParseProgrammingPrinciples(text: string)
    requires text == "CS 137\U{00A0}Programming Principles"
    ensures Parse(text) == Ok(Course("CS", "137", Some("Programming Principles"), false, None, []))
  {
    var title := "Programming Principles";
    var e := Course("CS", "137", Some(title), false, None, []);
    var l := Layout(" ", [Nbsp], "", "");
    PrinciplesTitle(title);
    PrinciplesRender(text, title, e, l);
    ParseRenderedCourse(text, e, l, CommaJoin);
  }

  lemma PrinciplesRender(text: string, title: string, e: CourseEntry, l: Layout)
    requires text == "CS 137\U{00A0}Programming Principles" && title == "Programming Principles"
    requires e == Course("CS", "137", Some(title), false, None, []) && l == Layout(" ", [Nbsp], "", "")
    ensures text == RenderCourse(e, l, CommaJoin)
  {
    TitleOnlyTail(e, l, CommaJoin);
    PrinciplesText(text);
  }

  lemma InterfacesText(text: string)
    requires text == "CS 349 User Interfaces ***"
    ensures text == "CS" + " " + "349" + (" " + "User Interfaces" + (" " + "***"))
  {
  }

  lemma InterfacesTitle(t: string)
    requires t == "User Interfaces"
    ensures TitleWellFormed(t)
  {
  }

  /** The footnote glyph after the title is not part of it, and the
      whitespace before the glyph is trimmed from the title. */
  lemma ParseUserInterfaces(text: string)
    requires text == "CS 349 User Interfaces ***"
    ensures Parse(text) == Ok(Course("CS", "349", Some("User Interfaces"), false, Some(LabNotScheduled), []))
  {
    var title := "User Interfaces";
    var e := Course("CS", "349", Some(title), false, Some(LabNotScheduled), []);
    var l := Layout(" ", " ", " ", "");
    InterfacesTitle(title);
    InterfacesRender(text, title, e, l);
    ParseRenderedCourse(text, e, l, CommaJoin);
  }

  lemma InterfacesRender(text: string, title: string, e: CourseEntry, l: Layout)
    requires text == "CS 349 User Interfaces ***" && title == "User Interfaces"
    requires e == Course("CS", "349", Some(title), false, Some(LabNotScheduled), []) && l == Layout(" ", " ", " ", "")
    ensures text == RenderCourse(e, l, CommaJoin)
  {
    TitleOnlyTail(e, l, CommaJoin);
    InterfacesText(text);
  }

  /** A credit-only listing has no title. */
  lemma ParseCreditOnly(text: string)
    requires text == "TPM 000 CR/NCR"
    ensures Parse(text) == Ok(Course("TPM", "000", None, true, None, []))
  {
    var e := Course("TPM", "000", None, true, None, []);
    var l := Layout(" ", " ", "", "");
    assert text == [] + RenderCourse(e, l, CommaJoin) + [];
    ParseRenderCourse([], e, l, CommaJoin, []);
  }

  lemma SerialNotesText(n: string)
    requires n == "(see notes 1, 2, 3, and 4)"
    ensures NotesText([1, 2, 3, 4], CommaAndJoin) == n
  {
    var ns: seq<nat> := [1, 2, 3, 4];
    assert ns[1..] == [2, 3, 4];
    assert NatToDecimal(1) == "1";
    SerialTail();
    SerialNotesPieces(n);
  }

  lemma SerialNotesPieces(n: string)
    requires n == "(see notes 1, 2, 3, and 4)"
    ensures n == "(see note" + "s" + " " + "1" + ", 2, 3, and 4" + ")"
  {
  }

  lemma SerialTail()
    ensures NotesTail([2, 3, 4], CommaAndJoin) == ", 2, 3, and 4"
  {
    var ms: seq<nat> := [2, 3, 4];
    assert ms[..2] == [2, 3];
    assert NatToDecimal(4) == "4";
    SerialCommaList();
  }

  lemma SerialCommaList()
    ensures CommaList([2, 3]) == ", 2, 3"
  {
    var xs: seq<nat> := [2, 3];
    assert xs[1..] == [3] && xs[1..][1..] == [];
    assert NatToDecimal(2) == "2" && NatToDecimal(3) == "3";
  }

  lemma SerialPieces(text: string, n: string)
    requires text == "Two Electives (see notes 1, 2, 3, and 4)" && n == "(see notes 1, 2, 3, and 4)"
    ensures text == "Two " + "Electives" + " " + n
  {
  }

  lemma Nest(a: string, b: string, c: string, d: string)
    ensures a + b + c + d == a + ("" + (b + (c + d)))
  {
  }

  /** Notes joined by commas with a serial comma before "and". */
  lemma ParseSerialComma(text: string)
    requires text == "Two Electives (see notes 1, 2, 3, and 4)"
    ensures Parse(text) == Ok(Electives(2, None, [1, 2, 3, 4]))
  {
    var e := Electives(2, None, [1, 2, 3, 4]);
    var n := "(see notes 1, 2, 3, and 4)";
    SerialPieces(text, n);
    Nest("Two ", "Electives", " ", n);
    SerialRender(e, n);
    ParseRendered(text, e, true, true, CommaAndJoin);
  }

  lemma SerialRender(e: CourseEntry, n: string)
    requires e == Electives(2, None, [1, 2, 3, 4]) && n == "(see notes 1, 2, 3, and 4)"
    ensures RenderElectives(e, true, true, CommaAndJoin) == "Two " + ("" + ("Electives" + (" " + n)))
  {
    SerialNotesText(n);
  }

  lemma CommunicationText(text: string)
    requires text == "Communication Elective (see note 6)"
    ensures text == "" + ("Communication " + ("Elective" + (" " + ("(see note" + " " + "6" + "" + ")"))))
  {
  }

  lemma CommunicationRender(e: CourseEntry)
    requires e == Electives(1, Some("Communication"), [6])
    ensures RenderElectives(e, false, false, CommaJoin) == "" + ("Communication " + ("Elective" + (" " + ("(see note" + " " + "6" + "" + ")"))))
  {
    assert NatToDecimal(6) == "6";
    assert [6][1..] == [];
  }

  /** A single elective of a given type, with one note. */
  lemma ParseCommunicationElective(text: string)
    requires text == "Communication Elective (see note 6)"
    ensures Parse(text) == Ok(Electives(1, Some("Communication"), [6]))
  {
    var e := Electives(1, Some("Communication"), [6]);
    CommunicationRender(e);
    CommunicationText(text);
    ParseRendered(text, e, false, false, CommaJoin);
  }
}
