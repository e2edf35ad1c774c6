/** The pieces of Rust's `str` that the search relies on: splitting into
    lines (`str::lines`), substring containment (`str::contains`) and
    lowercasing (`str::to_lowercase`, restricted to ASCII letters). */
module Text {

  /** Index of the first '\n' in `s`, or `|s|` when `s` has none. */
  function NewlineIndex(s: string): (k: nat)
    ensures k <= |s|
    ensures forall i :: 0 <= i < k ==> s[i] != '\n'
    ensures k < |s| ==> s[k] == '\n'
  {
    if s == [] || s[0] == '\n' then 0 else 1 + NewlineIndex(s[1..])
  }

  /** The first newline is the only index with the properties NewlineIndex promises. */
  lemma NewlineIndexUnique(s: string, k: nat)
    requires k <= |s|
    requires forall i :: 0 <= i < k ==> s[i] != '\n'
    requires k < |s| ==> s[k] == '\n'
    ensures NewlineIndex(s) == k
  {
  }

  /** Where the first newline of `s + t` lies. */
  lemma NewlineIndexAppend(s: string, t: string)
    ensures NewlineIndex(s + t) ==
            if NewlineIndex(s) < |s| then NewlineIndex(s) else |s| + NewlineIndex(t)
  {
    var n := NewlineIndex(s);
    if n < |s| {
      NewlineIndexUnique(s + t, n);
    } else {
      var m := NewlineIndex(t);
      forall i | 0 <= i < |s| + m ensures (s + t)[i] != '\n' {
        if i >= |s| {
          assert (s + t)[i] == t[i - |s|];
        }
      }
      NewlineIndexUnique(s + t, |s| + m);
    }
  }

  predicate EndsWithCarriageReturn(line: string) {
    |line| > 0 && line[|line| - 1] == '\r'
  }

  /** Drops the '\r' of a "\r\n" terminator from a line whose '\n' is already gone. */
  function StripCarriageReturn(line: string): string {
    if EndsWithCarriageReturn(line) then line[..|line| - 1] else line
  }

  /** Rust's `str::lines` (the behaviour since Rust 1.77): the text is cut
      after every '\n'; each piece loses its '\n' and then, only if it had
      one, a single '\r' before it. A final piece without '\n' is kept as it
      is, so a terminating newline does not produce an extra empty line. */
  function Lines(s: string): seq<string>
    decreases |s|
  {
    if s == [] then []
    else
      var k := NewlineIndex(s);
      if k == |s| then [s]
      else [StripCarriageReturn(s[..k])] + Lines(s[k + 1..])
  }

  /** A text without '\n' is one line, kept exactly, even when it ends in '\r':
      only a '\r' directly before a '\n' is dropped. */
  lemma UnterminatedLineKept(s: string)
    requires s != [] && '\n' !in s
    ensures Lines(s) == [s]
  {
    NewlineIndexUnique(s, |s|);
  }

  /** Each line followed by the terminator `eol`: the text that `Lines` splits. */
  function Terminated(ls: seq<string>, eol: string): (r: string)
    ensures ls == [] ==> r == []
    ensures ls != [] ==> |eol| <= |r|
  {
    if ls == [] then [] else ls[0] + eol + Terminated(ls[1..], eol)
  }

  /** A non-empty output ends with the terminator. */
  lemma {:induction false} TerminatedEndsWithTerminator(ls: seq<string>, eol: string)
    requires ls != []
    ensures Terminated(ls, eol)[|Terminated(ls, eol)| - |eol|..] == eol
  {
    var rest := Terminated(ls[1..], eol);
    var r := ls[0] + eol + rest;
    if ls[1..] == [] {
      assert r[|r| - |eol|..] == eol;
    } else {
      TerminatedEndsWithTerminator(ls[1..], eol);
      assert r[|r| - |eol|..] == rest[|rest| - |eol|..];
    }
  }

  lemma {:induction false} TerminatedAppend(ls: seq<string>, line: string, eol: string)
    ensures Terminated(ls + [line], eol) == Terminated(ls, eol) + line + eol
  {
    if ls == [] {
      assert ls + [line] == [line];
    } else {
      assert (ls + [line])[1..] == ls[1..] + [line];
      TerminatedAppend(ls[1..], line, eol);
    }
  }

  /** No line produced by `Lines` contains a newline. */
  lemma {:induction false} LinesHaveNoNewline(s: string)
    ensures forall line :: line in Lines(s) ==> '\n' !in line
    decreases |s|
  {
    if s != [] {
      var k := NewlineIndex(s);
      if k < |s| {
        LinesHaveNoNewline(s[k + 1..]);
        var first := StripCarriageReturn(s[..k]);
        forall j | 0 <= j < |first| ensures first[j] != '\n' {
          assert first[j] == s[j];
        }
      }
    }
  }

  /** Counting the newlines of a text that starts with its first line. */
  lemma NewlineCountAfterFirst(s: string)
    requires NewlineIndex(s) < |s|
    ensures multiset(s)['\n'] == 1 + multiset(s[NewlineIndex(s) + 1..])['\n']
  {
    var k := NewlineIndex(s);
    var head, rest := s[..k], s[k + 1..];
    assert '\n' !in multiset(head) by {
      forall j | 0 <= j < k ensures head[j] != '\n' { }
    }
    assert s[k..] == [s[k]] + rest;
    assert s == head + s[k..];
    calc {
      multiset(s);
      multiset(head) + multiset(s[k..]);
      multiset(head) + multiset([s[k]]) + multiset(rest);
    }
  }

  /** There is one line per '\n', plus one for an unterminated final line. */
  lemma {:induction false} LinesCount(s: string)
    ensures |Lines(s)| == multiset(s)['\n'] + if s != [] && s[|s| - 1] != '\n' then 1 else 0
    decreases |s|
  {
    if s != [] {
      var k := NewlineIndex(s);
      if k == |s| {
        assert '\n' !in s by {
          forall j | 0 <= j < k ensures s[j] != '\n' { }
        }
      } else {
        var rest := s[k + 1..];
        NewlineCountAfterFirst(s);
        assert s[|s| - 1] == if rest == [] then '\n' else rest[|rest| - 1];
        LinesCount(rest);
      }
    }
  }

  /** A line without '\n', terminated by `eol`, comes back as the first line;
      what follows the terminator is split on its own. */
  lemma LinesOfTerminatedLine(line: string, eol: string, rest: string)
    requires eol == "\n" || eol == "\r\n"
    requires '\n' !in line
    requires eol == "\n" ==> !EndsWithCarriageReturn(line)
    ensures Lines(line + eol + rest) == [line] + Lines(rest)
  {
    var s := line + eol + rest;
    var head := line + eol[..|eol| - 1];
    assert s == head + "\n" + rest;
    forall j | 0 <= j < |head| ensures s[j] != '\n' {
      assert s[j] == head[j];
      if j < |line| { assert head[j] == line[j]; }
    }
    NewlineIndexUnique(s, |head|);
    assert s[..|head|] == head;
    assert s[|head| + 1..] == rest;
    assert StripCarriageReturn(head) == line;
  }

  /** Terminating lines with "\n" or "\r\n" and splitting them again gives the
      lines back; with a bare "\n" a line must not end in '\r', which would be
      read as part of a "\r\n" terminator. */
  lemma {:induction false} LinesOfTerminated(ls: seq<string>, eol: string)
    requires eol == "\n" || eol == "\r\n"
    requires forall i :: 0 <= i < |ls| ==> '\n' !in ls[i]
    requires eol == "\n" ==> forall i :: 0 <= i < |ls| ==> !EndsWithCarriageReturn(ls[i])
    ensures Lines(Terminated(ls, eol)) == ls
  {
    if ls != [] {
      var rest := Terminated(ls[1..], eol);
      assert Terminated(ls, eol) == ls[0] + eol + rest;
      LinesOfTerminatedLine(ls[0], eol, rest);
      LinesOfTerminated(ls[1..], eol);
      assert ls == [ls[0]] + ls[1..];
    }
  }

  /** The first line of `s`, when `s` contains a newline, and the lines after it. */
  lemma {:induction false} LinesAfterFirst(s: string)
    requires NewlineIndex(s) < |s|
    ensures Lines(s) == [StripCarriageReturn(s[..NewlineIndex(s)])] + Lines(s[NewlineIndex(s) + 1..])
  {
  }

  lemma TerminatedCons(line: string, ls: seq<string>, eol: string)
    ensures Terminated([line] + ls, eol) == line + eol + Terminated(ls, eol)
  {
    assert ([line] + ls)[1..] == ls;
  }

  /** Splitting a text of '\n'-terminated lines that holds no '\r' and
      terminating the lines with "\n" again gives the text back. */
  lemma {:induction false} TerminatedOfLines(s: string)
    requires s == [] || s[|s| - 1] == '\n'
    requires '\r' !in s
    ensures Terminated(Lines(s), "\n") == s
    decreases |s|
  {
    if s != [] {
      var k := NewlineIndex(s);
      assert s[|s| - 1] == '\n';
      var head, rest := s[..k], s[k + 1..];
      assert s == head + "\n" + rest;
      assert '\r' !in rest;
      TerminatedOfLines(rest);
      LinesAfterFirst(s);
      assert StripCarriageReturn(head) == head by {
        if k > 0 { assert head[k - 1] == s[k - 1]; }
      }
      TerminatedCons(head, Lines(rest), "\n");
    }
  }

  /** The terminating newline is optional: it adds no empty line. */
  lemma {:induction false} FinalNewlineOptional(s: string)
    requires s != [] && s[|s| - 1] != '\n' && s[|s| - 1] != '\r'
    ensures Lines(s + "\n") == Lines(s)
    decreases |s|
  {
    var k, t := NewlineIndex(s), s + "\n";
    NewlineIndexAppend(s, "\n");
    if k == |s| {
      LinesAfterFirst(t);
      assert t[..k] == s && t[k + 1..] == [];
      assert StripCarriageReturn(s) == s;
    } else {
      var rest := s[k + 1..];
      assert t[..k] == s[..k];
      assert t[k + 1..] == rest + "\n";
      assert rest[|rest| - 1] == s[|s| - 1];
      FinalNewlineOptional(rest);
      LinesAfterFirst(s);
      LinesAfterFirst(t);
    }
  }

  /** `pattern` occurs in `text` starting at index `i`. */
  predicate OccursAt(text: string, pattern: string, i: int) {
    0 <= i <= |text| - |pattern| && text[i..i + |pattern|] == pattern
  }

  /** The occurrences in `text[1..]` are those in `text` after index 0, shifted by one. */
  lemma OccursInTail(text: string, pattern: string)
    requires text != []
    ensures forall j :: OccursAt(text[1..], pattern, j) ==> OccursAt(text, pattern, j + 1)
    ensures forall i :: 1 <= i && OccursAt(text, pattern, i) ==> OccursAt(text[1..], pattern, i - 1)
  {
    forall j | OccursAt(text[1..], pattern, j) ensures OccursAt(text, pattern, j + 1) {
      assert text[1..][j..j + |pattern|] == text[j + 1..j + 1 + |pattern|];
    }
    forall i | 1 <= i && OccursAt(text, pattern, i) ensures OccursAt(text[1..], pattern, i - 1) {
      assert text[1..][i - 1..i - 1 + |pattern|] == text[i..i + |pattern|];
    }
  }

  /** Rust's `str::contains` with a string pattern: `pattern` occurs in
      `text` as a contiguous run of characters. */
  function Contains(text: string, pattern: string): (r: bool)
    ensures r <==> exists i :: OccursAt(text, pattern, i)
    decreases |text|
  {
    if |text| < |pattern| then false
    else if pattern <= text then
      assert OccursAt(text, pattern, 0);
      true
    else
      OccursInTail(text, pattern);
      assert !OccursAt(text, pattern, 0);
      Contains(text[1..], pattern)
  }

  predicate IsUpper(c: char) {
    'A' <= c <= 'Z'
  }

  /** `char::to_lowercase` on ASCII letters; every other character is kept. */
  function LowerChar(c: char): char {
    if IsUpper(c) then (c as int + 32) as char else c
  }

  /** `str::to_lowercase`, folding ASCII letters only. */
  function Lower(s: string): (r: string)
    ensures |r| == |s|
    ensures forall i :: 0 <= i < |s| ==> r[i] == LowerChar(s[i])
  {
    if s == [] then [] else [LowerChar(s[0])] + Lower(s[1..])
  }

  /** Lowercasing twice is lowercasing once. */
  lemma LowerIdempotent(s: string)
    ensures Lower(Lower(s)) == Lower(s)
  {
    assert forall i :: 0 <= i < |s| ==> !IsUpper(Lower(s)[i]);
  }

  /** A text without upper-case letters is its own lowercase form. */
  lemma LowerOfLowercase(s: string)
    requires forall i :: 0 <= i < |s| ==> !IsUpper(s[i])
    ensures Lower(s) == s
  {
  }

  /** Lowercasing keeps every occurrence: a pattern found in a text is also
      found, lowercased, in the lowercased text. */
  lemma ContainsLower(text: string, pattern: string)
    requires Contains(text, pattern)
    ensures Contains(Lower(text), Lower(pattern))
  {
    var i :| OccursAt(text, pattern, i);
    var lt := Lower(text);
    forall j | 0 <= j < |pattern| ensures lt[i..i + |pattern|][j] == Lower(pattern)[j] {
      assert text[i + j] == pattern[j];
    }
    assert lt[i..i + |pattern|] == Lower(pattern);
  }
}
