/** minigrep's library: building the configuration from the command line,
    the case-sensitive and case-insensitive line searches, and the run step
    that picks one of them and writes the matching lines out. */
module Minigrep {
  import opened Text

  /** The validated invocation: what to look for, where, and how. */
  datatype Config = Config(query: string, filePath: string, ignoreCase: bool)

  /** What looking up the IGNORE_CASE environment variable yields. */
  datatype EnvVar = NotPresent | NotUnicode | Present(value: string)

  /** The outcome of reading the input file into memory. */
  datatype FileRead = Read(contents: string) | ReadFailed(cause: string)

  datatype Result<T> = Ok(value: T) | Err(message: string)

  const UsageError: string := "Not enough arguements!\nUsage: minigrep <key> <file_path>"

  /** `Config::build`: `args` is the whole command line, program name first.
      Fewer than three arguments is a usage error; otherwise the query and
      the path are the first two arguments after the program name, and the
      search ignores case exactly when IGNORE_CASE is set to a Unicode value. */
  function Build(args: seq<string>, ignoreCaseVar: EnvVar): (r: Result<Config>)
    ensures r.Err? <==> |args| < 3
    ensures r.Err? ==> r.message == UsageError
    ensures r.Ok? ==> r.value.query == args[1] && r.value.filePath == args[2]
    ensures r.Ok? ==> (r.value.ignoreCase <==> ignoreCaseVar.Present?)
  {
    if |args| < 3 then Err(UsageError)
    else Ok(Config(args[1], args[2], ignoreCaseVar.Present?))
  }

  /** Arguments after the file path do not change the configuration. */
  lemma BuildIgnoresExtraArguments(args: seq<string>, extra: seq<string>, ignoreCaseVar: EnvVar)
    requires |args| >= 3
    ensures Build(args + extra, ignoreCaseVar) == Build(args[..3], ignoreCaseVar)
  {
    assert (args + extra)[1] == args[..3][1] && (args + extra)[2] == args[..3][2];
  }

  /** Whether `search` (ignoreCase false) or `search_case_insensitive`
      (ignoreCase true) keeps `line`. */
  predicate Matches(line: string, query: string, ignoreCase: bool): (r: bool)
    ensures !ignoreCase ==> (r <==> exists i :: OccursAt(line, query, i))
    ensures ignoreCase ==> (r <==> exists i :: OccursAt(Lower(line), Lower(query), i))
  {
    if ignoreCase then
      var lowerLine, lowerQuery := Lower(line), Lower(query);
      assert forall i :: OccursAt(lowerLine, lowerQuery, i) <==> OccursAt(Lower(line), Lower(query), i);
      Contains(lowerLine, lowerQuery)
    else Contains(line, query)
  }

  /** The lines of `ls` that match, in their original order. */
  function Filter(ls: seq<string>, query: string, ignoreCase: bool): (r: seq<string>)
    ensures |r| <= |ls|
  {
    if ls == [] then []
    else
      var kept := Filter(ls[..|ls| - 1], query, ignoreCase);
      var last := ls[|ls| - 1];
      if Matches(last, query, ignoreCase) then kept + [last] else kept
  }

  /** Every matching line is kept as often as it occurs, and no other line is kept. */
  lemma {:induction false} FilterMultiplicity(ls: seq<string>, query: string, ignoreCase: bool)
    ensures forall line :: multiset(Filter(ls, query, ignoreCase))[line] ==
                           if Matches(line, query, ignoreCase) then multiset(ls)[line] else 0
  {
    if ls != [] {
      var init, last := ls[..|ls| - 1], ls[|ls| - 1];
      FilterMultiplicity(init, query, ignoreCase);
      assert ls == init + [last];
    }
  }

  /** A line is in the result exactly when it is one of the lines and matches. */
  lemma FilterMembership(ls: seq<string>, query: string, ignoreCase: bool)
    ensures forall line :: line in Filter(ls, query, ignoreCase) <==>
                           line in ls && Matches(line, query, ignoreCase)
  {
    FilterMultiplicity(ls, query, ignoreCase);
    forall line ensures line in Filter(ls, query, ignoreCase) <==>
                        line in ls && Matches(line, query, ignoreCase) {
      assert line in Filter(ls, query, ignoreCase) <==> line in multiset(Filter(ls, query, ignoreCase));
      assert line in ls <==> line in multiset(ls);
    }
  }

  /** Filtering keeps file order: the matches of an earlier block of lines
      come before those of a later one. */
  lemma {:induction false} FilterAppend(a: seq<string>, b: seq<string>, query: string, ignoreCase: bool)
    ensures Filter(a + b, query, ignoreCase) == Filter(a, query, ignoreCase) + Filter(b, query, ignoreCase)
    decreases |b|
  {
    if b == [] {
      assert a + b == a;
    } else {
      var init := b[..|b| - 1];
      assert (a + b)[..|a + b| - 1] == a + init;
      FilterAppend(a, init, query, ignoreCase);
    }
  }

  /** When every line matches, nothing is dropped. */
  lemma {:induction false} FilterKeepsAll(ls: seq<string>, query: string, ignoreCase: bool)
    requires forall i :: 0 <= i < |ls| ==> Matches(ls[i], query, ignoreCase)
    ensures Filter(ls, query, ignoreCase) == ls
  {
    if ls != [] {
      FilterKeepsAll(ls[..|ls| - 1], query, ignoreCase);
    }
  }

  /** When no line matches, the result is empty. */
  lemma {:induction false} FilterKeepsNone(ls: seq<string>, query: string, ignoreCase: bool)
    requires forall i :: 0 <= i < |ls| ==> !Matches(ls[i], query, ignoreCase)
    ensures Filter(ls, query, ignoreCase) == []
  {
    if ls != [] {
      FilterKeepsNone(ls[..|ls| - 1], query, ignoreCase);
    }
  }

  /** `r` is made of the elements of `ls` at the strictly increasing positions `idx`. */
  predicate SelectsAt(r: seq<string>, ls: seq<string>, idx: seq<int>) {
    && |idx| == |r|
    && (forall k :: 0 <= k < |idx| ==> 0 <= idx[k] < |ls| && r[k] == ls[idx[k]])
    && (forall k, m :: 0 <= k < m < |idx| ==> idx[k] < idx[m])
  }

  /** `idx` holds exactly the positions of the lines of `ls` that match. */
  predicate MatchPositions(ls: seq<string>, query: string, ignoreCase: bool, idx: seq<int>) {
    forall i :: 0 <= i < |ls| ==> (Matches(ls[i], query, ignoreCase) <==> i in idx)
  }

  lemma SelectsAtAppend(r: seq<string>, init: seq<string>, idx: seq<int>, line: string)
    requires SelectsAt(r, init, idx)
    ensures SelectsAt(r + [line], init + [line], idx + [|init|])
    ensures SelectsAt(r, init + [line], idx)
  {
  }

  lemma MatchPositionsAppend(init: seq<string>, line: string, query: string, ignoreCase: bool, idx: seq<int>)
    requires MatchPositions(init, query, ignoreCase, idx)
    requires forall k :: 0 <= k < |idx| ==> idx[k] < |init|
    ensures MatchPositions(init + [line], query, ignoreCase,
                           if Matches(line, query, ignoreCase) then idx + [|init|] else idx)
  {
    var ls := init + [line];
    assert forall i :: 0 <= i < |init| ==> ls[i] == init[i];
    assert |init| !in idx;
  }

  /** The result is a subsequence of the lines, taken at exactly the
      positions of the matching lines. */
  lemma {:induction false} FilterPositions(ls: seq<string>, query: string, ignoreCase: bool)
    ensures exists idx :: SelectsAt(Filter(ls, query, ignoreCase), ls, idx) &&
                          MatchPositions(ls, query, ignoreCase, idx)
  {
    if ls == [] {
      assert SelectsAt(Filter(ls, query, ignoreCase), ls, []);
    } else {
      var n := |ls| - 1;
      var init, line := ls[..n], ls[n];
      var kept := Filter(init, query, ignoreCase);
      assert ls == init + [line];
      FilterPositions(init, query, ignoreCase);
      var idx :| SelectsAt(kept, init, idx) && MatchPositions(init, query, ignoreCase, idx);
      SelectsAtAppend(kept, init, idx, line);
      MatchPositionsAppend(init, line, query, ignoreCase, idx);
      if Matches(line, query, ignoreCase) {
        assert SelectsAt(Filter(ls, query, ignoreCase), ls, idx + [n]);
      } else {
        assert SelectsAt(Filter(ls, query, ignoreCase), ls, idx);
      }
    }
  }

  /** Two predicates that agree on every line select the same lines. */
  lemma {:induction false} FilterAgrees(ls: seq<string>, q1: string, c1: bool, q2: string, c2: bool)
    requires forall i :: 0 <= i < |ls| ==> (Matches(ls[i], q1, c1) <==> Matches(ls[i], q2, c2))
    ensures Filter(ls, q1, c1) == Filter(ls, q2, c2)
  {
    if ls != [] {
      FilterAgrees(ls[..|ls| - 1], q1, c1, q2, c2);
    }
  }

  /** `search`: the lines of `contents`, in order, that contain `query`. */
  method Search(query: string, contents: string) returns (results: seq<string>)
    ensures results == Filter(Lines(contents), query, false)
    ensures forall line :: line in results <==> line in Lines(contents) && Contains(line, query)
  {
    results := [];
    var lines := Lines(contents);
    for i := 0 to |lines|
      invariant results == Filter(lines[..i], query, false)
    {
      var line := lines[i];
      assert lines[..i + 1][..i] == lines[..i];
      if Contains(line, query) {
        results := results + [line];
      }
    }
    assert lines[..|lines|] == lines;
    FilterMembership(lines, query, false);
  }

  /** `search_case_insensitive`: the lines of `contents`, in order, whose
      lowercase form contains the lowercase query; the lines are returned as
      they are in `contents`, not lowercased. */
  method SearchCaseInsensitive(query: string, contents: string) returns (results: seq<string>)
    ensures results == Filter(Lines(contents), query, true)
    ensures forall line :: line in results <==> line in Lines(contents) && Contains(Lower(line), Lower(query))
  {
    results := [];
    var lowerQuery := Lower(query);
    var lines := Lines(contents);
    for i := 0 to |lines|
      invariant results == Filter(lines[..i], query, true)
    {
      var line := lines[i];
      assert lines[..i + 1][..i] == lines[..i];
      if Contains(Lower(line), lowerQuery) {
        results := results + [line];
      }
    }
    assert lines[..|lines|] == lines;
    FilterMembership(lines, query, true);
  }

  /** The output loop of `run`: each line, then a newline, in order.
      `written` is the text that reaches standard output. */
  method WriteLines(lines: seq<string>) returns (written: string)
    ensures written == Terminated(lines, "\n")
  {
    written := "";
    for i := 0 to |lines|
      invariant written == Terminated(lines[..i], "\n")
    {
      var line := lines[i];
      TerminatedAppend(lines[..i], line, "\n");
      assert lines[..i + 1] == lines[..i] + [line];
      written := written + line + "\n";
    }
    assert lines[..|lines|] == lines;
  }

  /** `run`: a failed read is returned as the error and nothing is written;
      otherwise the search that `config.ignoreCase` selects runs on the
      contents and every result is written followed by a newline. `written`
      is the text sent to standard output. `file` is the outcome of
      `fs::read_to_string(config.file_path)`, which the caller performs. */
  method Run(config: Config, file: FileRead) returns (r: Result<()>, written: string)
    ensures file.ReadFailed? ==> r == Err(file.cause) && written == ""
    ensures file.Read? ==> r == Ok(())
    ensures file.Read? ==>
              written == Terminated(Filter(Lines(file.contents), config.query, config.ignoreCase), "\n")
  {
    if file.ReadFailed? {
      return Err(file.cause), "";
    }
    var greplines;
    if config.ignoreCase {
      greplines := SearchCaseInsensitive(config.query, file.contents);
    } else {
      greplines := Search(config.query, file.contents);
    }
    written := WriteLines(greplines);
    r := Ok(());
  }

  /** An empty query matches every line, in both modes. */
  lemma EmptyQueryMatchesEveryLine(contents: string, ignoreCase: bool)
    ensures Filter(Lines(contents), "", ignoreCase) == Lines(contents)
  {
    var ls := Lines(contents);
    forall i | 0 <= i < |ls| ensures Matches(ls[i], "", ignoreCase) {
      assert OccursAt(ls[i], "", 0) && OccursAt(Lower(ls[i]), Lower(""), 0);
    }
    FilterKeepsAll(ls, "", ignoreCase);
  }

  /** No returned line holds a newline, whichever search produced it. */
  lemma ResultsHaveNoNewline(contents: string, query: string, ignoreCase: bool)
    ensures forall line :: line in Filter(Lines(contents), query, ignoreCase) ==> '\n' !in line
  {
    FilterMembership(Lines(contents), query, ignoreCase);
    LinesHaveNoNewline(contents);
  }

  /** The case-insensitive search keeps at least what the case-sensitive one
      keeps, each line at least as often. */
  lemma InsensitiveKeepsSensitiveMatches(ls: seq<string>, query: string)
    ensures multiset(Filter(ls, query, false)) <= multiset(Filter(ls, query, true))
  {
    FilterMultiplicity(ls, query, false);
    FilterMultiplicity(ls, query, true);
    forall line | Matches(line, query, false) ensures Matches(line, query, true) {
      ContainsLower(line, query);
    }
  }

  /** Only the lowercase form of the query matters to the case-insensitive search. */
  lemma InsensitiveIgnoresQueryCase(ls: seq<string>, query: string)
    ensures Filter(ls, query, true) == Filter(ls, Lower(query), true)
  {
    LowerIdempotent(query);
    FilterAgrees(ls, query, true, Lower(query), true);
  }

  /** On a query and lines without upper-case letters the two searches agree. */
  lemma SearchesAgreeOnLowercase(ls: seq<string>, query: string)
    requires forall i :: 0 <= i < |query| ==> !IsUpper(query[i])
    requires forall i, j :: 0 <= i < |ls| && 0 <= j < |ls[i]| ==> !IsUpper(ls[i][j])
    ensures Filter(ls, query, true) == Filter(ls, query, false)
  {
    LowerOfLowercase(query);
    forall i | 0 <= i < |ls| ensures Lower(ls[i]) == ls[i] {
      LowerOfLowercase(ls[i]);
    }
    FilterAgrees(ls, query, true, query, false);
  }
}
