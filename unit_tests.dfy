/** The library's two unit tests, stated about the searches' specification
    (the search methods' postconditions equate their results with it). */
module MinigrepTests {
  import opened Text
  import opened Minigrep

  /** A pattern with a character that the text lacks does not occur in it. */
  lemma MissingCharacter(text: string, pattern: string, k: nat)
    requires k < |pattern| && pattern[k] !in text
    ensures !Contains(text, pattern)
  {
    forall i | 0 <= i <= |text| - |pattern| ensures !OccursAt(text, pattern, i) {
      assert text[i..i + |pattern|][k] == text[i + k];
    }
  }

  /** A pattern whose first character occurs once in the text, not followed
      by the pattern's second character, does not occur in it. */
  lemma OnlyCandidateFails(a: string, b: string, pattern: string)
    requires |pattern| >= 2 && pattern[0] !in a && pattern[0] !in b
    requires b == [] || b[0] != pattern[1]
    ensures !Contains(a + [pattern[0]] + b, pattern)
  {
    var text := a + [pattern[0]] + b;
    forall i | 0 <= i <= |text| - |pattern| ensures !OccursAt(text, pattern, i) {
      var window := text[i..i + |pattern|];
      if i < |a| {
        assert window[0] == a[i];
      } else if i > |a| {
        assert window[0] == b[i - |a| - 1];
      } else {
        assert window[1] == b[0];
      }
    }
  }

  /** A lower-case letter that occurs in a text neither as itself nor as
      its capital does not occur in the lowercased text. */
  lemma LowerLacks(s: string, c: char)
    requires 'a' <= c <= 'z' && c !in s && (c as int - 32) as char !in s
    ensures c !in Lower(s)
  {
    forall i | 0 <= i < |s| ensures Lower(s)[i] != c {
      assert s[i] != c && s[i] != (c as int - 32) as char;
    }
  }

  /** Four lines, none holding a newline or ending in '\r', each followed by "\n", split back into those lines. */
  lemma LinesOfFour(l0: string, l1: string, l2: string, l3: string)
    requires '\n' !in l0 && '\n' !in l1 && '\n' !in l2 && '\n' !in l3
    requires !EndsWithCarriageReturn(l0) && !EndsWithCarriageReturn(l1)
    requires !EndsWithCarriageReturn(l2) && !EndsWithCarriageReturn(l3)
    ensures Lines((l0 + "\n") + ((l1 + "\n") + ((l2 + "\n") + (l3 + "\n")))) == [l0, l1, l2, l3]
  {
    var ls := [l0, l1, l2, l3];
    TerminatedCons(l3, [], "\n");
    assert [l3] + [] == [l3] && [l2] + [l3] == [l2, l3];
    assert [l1] + [l2, l3] == [l1, l2, l3] && [l0] + [l1, l2, l3] == ls;
    assert Terminated([l3], "\n") == l3 + "\n";
    TerminatedCons(l2, [l3], "\n");
    TerminatedCons(l1, [l2, l3], "\n");
    TerminatedCons(l0, [l1, l2, l3], "\n");
    assert Terminated(ls, "\n") == (l0 + "\n") + ((l1 + "\n") + ((l2 + "\n") + (l3 + "\n")));
    forall i | 0 <= i < |ls| ensures '\n' !in ls[i] && !EndsWithCarriageReturn(ls[i]) {
      if i == 0 { } else if i == 1 { } else if i == 2 { } else { }
    }
    LinesOfTerminated(ls, "\n");
  }

  /** What `Filter` keeps of one line. */
  function Kept(line: string, query: string, ignoreCase: bool): seq<string> {
    if Matches(line, query, ignoreCase) then [line] else []
  }

  /** `Filter` on four lines, one line at a time. */
  lemma FilterOfFour(l0: string, l1: string, l2: string, l3: string, query: string, ignoreCase: bool)
    ensures Filter([l0, l1, l2, l3], query, ignoreCase) ==
            Kept(l0, query, ignoreCase) + Kept(l1, query, ignoreCase)
            + Kept(l2, query, ignoreCase) + Kept(l3, query, ignoreCase)
  {
    assert [l0, l1, l2, l3][..3] == [l0, l1, l2];
    assert [l0, l1, l2][..2] == [l0, l1];
    assert [l0, l1][..1] == [l0];
    assert [l0][..0] == [];
    assert Filter([l0], query, ignoreCase) == Kept(l0, query, ignoreCase);
    assert Filter([l0, l1], query, ignoreCase) == Kept(l0, query, ignoreCase) + Kept(l1, query, ignoreCase);
    assert Filter([l0, l1, l2], query, ignoreCase)
        == Kept(l0, query, ignoreCase) + Kept(l1, query, ignoreCase) + Kept(l2, query, ignoreCase);
  }

  /** The lines of the tests' texts hold no newline and do not end in '\r'. */
  lemma TestLinesWellFormed()
    ensures '\n' !in "Rust:" && !EndsWithCarriageReturn("Rust:")
    ensures '\n' !in "safe, fast, productive" && !EndsWithCarriageReturn("safe, fast, productive")
    ensures '\n' !in "Pick three." && !EndsWithCarriageReturn("Pick three.")
    ensures '\n' !in "Duct tape." && !EndsWithCarriageReturn("Duct tape.")
    ensures '\n' !in "Pick three" && !EndsWithCarriageReturn("Pick three")
    ensures '\n' !in "Trust me." && !EndsWithCarriageReturn("Trust me.")
  {
  }

  // Which lines of `case_sensitive_search`'s text contain "duct".
  lemma SensitiveMatch0() ensures !Matches("Rust:", "duct", false) {
    MissingCharacter("Rust:", "duct", 0);
  }
  lemma SensitiveMatch1() ensures Matches("safe, fast, productive", "duct", false) {
    assert OccursAt("safe, fast, productive", "duct", 15);
  }
  lemma SensitiveMatch2() ensures !Matches("Pick three.", "duct", false) {
    MissingCharacter("Pick three.", "duct", 0);
  }
  lemma SensitiveMatch3() ensures !Matches("Duct tape.", "duct", false) {
    MissingCharacter("Duct tape.", "duct", 0);
  }

  /** The test `case_sensitive_search`. */
  lemma CaseSensitiveSearchExample()
    ensures Filter(Lines("Rust:\n" + "safe, fast, productive\n" + "Pick three.\n" + "Duct tape.\n"), "duct", false)
            == ["safe, fast, productive"]
  {
    SensitiveExampleLines();
    SensitiveExampleFilter();
  }

  lemma SensitiveExampleLines()
    ensures Lines("Rust:\n" + "safe, fast, productive\n" + "Pick three.\n" + "Duct tape.\n")
            == ["Rust:", "safe, fast, productive", "Pick three.", "Duct tape."]
  {
    var l0, l1, l2, l3 := "Rust:", "safe, fast, productive", "Pick three.", "Duct tape.";
    TestLinesWellFormed();
    assert "Rust:\n" + "safe, fast, productive\n" + "Pick three.\n" + "Duct tape.\n"
        == (l0 + "\n") + ((l1 + "\n") + ((l2 + "\n") + (l3 + "\n")));
    LinesOfFour(l0, l1, l2, l3);
  }

  lemma SensitiveExampleFilter()
    ensures Filter(["Rust:", "safe, fast, productive", "Pick three.", "Duct tape."], "duct", false)
            == ["safe, fast, productive"]
  {
    SensitiveMatch0();
    SensitiveMatch1();
    SensitiveMatch2();
    SensitiveMatch3();
    FilterOfFour("Rust:", "safe, fast, productive", "Pick three.", "Duct tape.", "duct", false);
  }

  // Which lines of `case_insensitive_search`'s text contain "RuSt" once both are lowercased.
  lemma LowerQuery() ensures Lower("RuSt") == "rust" {
  }
  lemma InsensitiveMatch0() ensures Matches("Rust:", "RuSt", true) {
    LowerQuery();
    assert OccursAt("Rust:", "Rust", 0);
    ContainsLower("Rust:", "Rust");
    assert Lower("Rust") == "rust";
  }
  lemma SafeLineLacksRust() ensures !Contains("safe, fast, productive", "rust") {
    assert "safe, fast, productive" == "safe, fast, p" + ['r'] + "oductive";
    OnlyCandidateFails("safe, fast, p", "oductive", "rust");
  }
  lemma SafeLineIsLowercase() ensures Lower("safe, fast, productive") == "safe, fast, productive" {
    LowerOfLowercase("safe, fast, productive");
  }
  lemma InsensitiveMatch1() ensures !Matches("safe, fast, productive", "RuSt", true) {
    LowerQuery();
    SafeLineIsLowercase();
    SafeLineLacksRust();
  }
  lemma InsensitiveMatch2() ensures !Matches("Pick three", "RuSt", true) {
    LowerQuery();
    LowerLacks("Pick three", 'u');
    MissingCharacter(Lower("Pick three"), "rust", 1);
  }
  lemma TrustLineHasRust() ensures Contains("Trust me.", "rust") {
    assert OccursAt("Trust me.", "rust", 1);
  }
  lemma InsensitiveMatch3() ensures Matches("Trust me.", "RuSt", true) {
    LowerQuery();
    TrustLineHasRust();
    ContainsLower("Trust me.", "rust");
    LowerOfLowercase("rust");
  }

  /** The test `case_insensitive_search`: the matching lines come back with
      their original capitals. */
  lemma CaseInsensitiveSearchExample()
    ensures Filter(Lines("Rust:\n" + "safe, fast, productive\n" + "Pick three\n" + "Trust me.\n"), "RuSt", true)
            == ["Rust:", "Trust me."]
  {
    InsensitiveExampleLines();
    InsensitiveExampleFilter();
  }

  lemma InsensitiveExampleLines()
    ensures Lines("Rust:\n" + "safe, fast, productive\n" + "Pick three\n" + "Trust me.\n")
            == ["Rust:", "safe, fast, productive", "Pick three", "Trust me."]
  {
    var l0, l1, l2, l3 := "Rust:", "safe, fast, productive", "Pick three", "Trust me.";
    TestLinesWellFormed();
    assert "Rust:\n" + "safe, fast, productive\n" + "Pick three\n" + "Trust me.\n"
        == (l0 + "\n") + ((l1 + "\n") + ((l2 + "\n") + (l3 + "\n")));
    LinesOfFour(l0, l1, l2, l3);
  }

  lemma InsensitiveExampleFilter()
    ensures Filter(["Rust:", "safe, fast, productive", "Pick three", "Trust me."], "RuSt", true)
            == ["Rust:", "Trust me."]
  {
    InsensitiveMatch0();
    InsensitiveMatch1();
    InsensitiveMatch2();
    InsensitiveMatch3();
    FilterOfFour("Rust:", "safe, fast, productive", "Pick three", "Trust me.", "RuSt", true);
  }

  /** `case_sensitive_search` as the test runs it: through `search`. */
  method CaseSensitiveSearchTest() returns (results: seq<string>)
    ensures results == ["safe, fast, productive"]
  {
    results := Search("duct", "Rust:\n" + "safe, fast, productive\n" + "Pick three.\n" + "Duct tape.\n");
    CaseSensitiveSearchExample();
  }

  /** `case_insensitive_search` as the test runs it: through `search_case_insensitive`. */
  method CaseInsensitiveSearchTest() returns (results: seq<string>)
    ensures results == ["Rust:", "Trust me."]
  {
    results := SearchCaseInsensitive("RuSt", "Rust:\n" + "safe, fast, productive\n" + "Pick three\n" + "Trust me.\n");
    CaseInsensitiveSearchExample();
  }
}
