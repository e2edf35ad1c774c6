# minigrep in Dafny

A model of the library of `minigrep`, the small grep from the Rust book.
`Config::build` checks the command line and records the query, the file
path and whether case is ignored. `search` keeps the lines of the file
contents that contain the query. `search_case_insensitive` does the same
after lowercasing both the line and the query, and returns the original
lines. `run` reads the file, picks one of the searches and writes every
result line, followed by a newline, to standard output.

The project has three modules.

- `Text` (`text.dfy`) holds the parts of Rust's `str` that the searches use:
  - `Lines`, the line splitting of `str::lines`;
  - `Contains`, the substring test of `str::contains`;
  - `Lower`, the lowercasing of `str::to_lowercase`, on ASCII letters only.
- `Minigrep` (`minigrep.dfy`) holds the library itself.
  - `Build` models `Config::build`.
  - `Search` and `SearchCaseInsensitive` are methods whose loops mirror the
    source's `for` loops that push onto a `Vec`.
  - `WriteLines` is the loop of `run` that writes each result line to the
    buffered standard output. `Run` reads nothing itself: it takes the
    outcome of the file read, picks a search and calls `WriteLines`.
  - Each search is proved equal to the pure specification `Filter`, and the
    text `Run` writes is proved equal to `Terminated` of it. The lemmas
    about `Filter` carry the properties.
- `MinigrepTests` (`unit_tests.dfy`) states the two unit tests of
  `src/lib.rs` as lemmas about `Filter` and `Lines`. The searches'
  postconditions equate their results with these. The methods
  `CaseSensitiveSearchTest` and `CaseInsensitiveSearchTest` call `Search`
  and `SearchCaseInsensitive` on the tests' texts, as the tests' `assert_eq!`
  calls do, and promise the expected results.

Two behaviours of the code are easy to misread; the model follows the code:

- `IGNORE_CASE` is not honoured merely because it is present. It is
  honoured only when it is set to a valid Unicode value, since
  `env::var(...).is_ok()` is false for a value that is not Unicode. `Build`
  therefore takes the variable's lookup result, `EnvVar`, not a bare "is
  set" flag.
- `str::lines` has the behaviour of Rust 1.77 and later. Earlier releases
  also dropped a trailing `'\r'` from a final line without `'\n'`. A line
  loses its `'\n'`, and then one `'\r'` only if a `'\n'` was removed. A final line
  without `'\n'` keeps a trailing `'\r'`. A result line can therefore end
  in `'\r'` (text `"a\r"`, or `"a\r\r\n"`), so "no result line ends in
  `'\r'`" is not a property of the program. What holds, and is proved, is
  the following:
  - no line contains `'\n'`;
  - a `'\r'` directly before a `'\n'` is removed;
  - lines without `'\n'`, terminated by `"\r\n"`, or by `"\n"` when none
    of them ends in `'\r'`, split back into the same lines.

## Model

| member | source | states |
|---|---|---|
| Minigrep.Build | src/lib.rs:13-24 | fails exactly when there are fewer than three arguments, with the usage message; otherwise query is `args[1]`, file path is `args[2]`, and case is ignored exactly when IGNORE_CASE is present with a Unicode value |
| Minigrep.BuildIgnoresExtraArguments | src/lib.rs:14-23 | arguments after the file path do not change the result of `build` |
| Minigrep.Matches | src/lib.rs:31 | the test of each loop (lines 31 and 44): without ignoring case, the query occurs somewhere in the line; ignoring case, the lowercased query occurs somewhere in the lowercased line |
| Minigrep.Filter | src/lib.rs:30-36 | the search result is never longer than the line sequence it filters |
| Minigrep.FilterMultiplicity | src/lib.rs:30-33 | each matching line is kept as many times as it occurs, and a non-matching line never |
| Minigrep.FilterMembership | src/lib.rs:30-33 | a line is in the result if and only if it is one of the lines and matches |
| Minigrep.FilterPositions | src/lib.rs:30-36 | the result is the subsequence of the lines at exactly the positions of the matching lines, in increasing order |
| Minigrep.FilterAppend | src/lib.rs:30-36 | file order is kept: the matches of the first part of the lines precede those of the rest |
| Minigrep.FilterKeepsAll | src/lib.rs:30-36 | when every line matches, the result is all the lines |
| Minigrep.FilterKeepsNone | src/lib.rs:30-36 | when no line matches, the result is empty |
| Minigrep.FilterAgrees | src/lib.rs:31 | two match tests that agree on every line select the same lines |
| Minigrep.Search | src/lib.rs:27-37 | the loop's result is the in-order filter of `lines(contents)` by "contains the query"; a line is returned if and only if it is a line of the contents containing the query |
| Minigrep.SearchCaseInsensitive | src/lib.rs:39-50 | the loop's result is the in-order filter of `lines(contents)` by "lowercased line contains lowercased query"; the lines are returned as they are in the contents |
| Minigrep.WriteLines | src/lib.rs:64-67 | the text written is each result line followed by a newline, in order |
| Minigrep.Run | src/lib.rs:52-71 | a failed read is returned as the error and nothing is written; otherwise the search chosen by `ignore_case` runs and its lines are written, each ended by a newline |
| Minigrep.EmptyQueryMatchesEveryLine | src/lib.rs:31 | an empty query returns every line, in both modes |
| Minigrep.ResultsHaveNoNewline | src/lib.rs:30 | no line returned by either search contains a newline |
| Minigrep.InsensitiveKeepsSensitiveMatches | src/lib.rs:41-44 | with the model's ASCII-only lowercasing, every line the case-sensitive search returns, the case-insensitive one returns at least as often |
| Minigrep.InsensitiveIgnoresQueryCase | src/lib.rs:41 | the case-insensitive search depends only on the lowercase form of the query |
| Minigrep.SearchesAgreeOnLowercase | src/lib.rs:41-44 | with the model's ASCII-only lowercasing: with no letters 'A'..'Z' in the query or the lines, both searches return the same lines |
| Text.Lines | src/lib.rs:30 | `str::lines` (also used at line 43) as of Rust 1.77: the text is cut after every '\n'; each piece loses its '\n' and then one '\r' only when a '\n' was removed; a final piece without '\n' is kept unchanged (a definition; its properties are the lemmas below) |
| Text.NewlineIndex | src/lib.rs:30 | the index found is the first newline, or the end of the text when it has none |
| Text.LinesHaveNoNewline | src/lib.rs:30 | no line produced by `lines` contains a newline |
| Text.LinesCount | src/lib.rs:30 | there is one line per newline, plus one for an unterminated last line |
| Text.UnterminatedLineKept | src/lib.rs:30 | a non-empty text without a newline is a single line, kept exactly, including a trailing carriage return |
| Text.LinesOfTerminatedLine | src/lib.rs:30 | a line without '\n', followed by `"\r\n"`, or by `"\n"` when it does not end in '\r', comes back first, and the rest is split on its own |
| Text.LinesOfTerminated | src/lib.rs:30 | lines without '\n', terminated by `"\r\n"`, or by `"\n"` when none ends in '\r', split back into the same lines |
| Text.TerminatedOfLines | src/lib.rs:30 | a newline-terminated text without carriage returns is rebuilt exactly by terminating its lines |
| Text.FinalNewlineOptional | src/lib.rs:30 | for a non-empty text not ending in '\n' or '\r', adding a final newline changes no line |
| Text.Terminated | src/lib.rs:64-67 | the text written for a list of lines, each followed by the terminator; no lines give no text, and otherwise the text is at least as long as the terminator |
| Text.TerminatedEndsWithTerminator | src/lib.rs:64-67 | the text written for at least one line ends with the terminator |
| Text.TerminatedAppend | src/lib.rs:64-67 | writing one more line appends that line and a newline to the output |
| Text.Contains | src/lib.rs:31 | the result is true if and only if the pattern occurs at some position of the text |
| Text.Lower | src/lib.rs:41 | lowercasing keeps the length and lowercases each character in place |
| Text.LowerIdempotent | src/lib.rs:41-44 | lowercasing twice is lowercasing once |
| Text.LowerOfLowercase | src/lib.rs:41-44 | with the model's ASCII-only lowercasing, a text without letters 'A'..'Z' is its own lowercase form |
| Text.ContainsLower | src/lib.rs:44 | with the model's ASCII-only lowercasing, an occurrence of the pattern survives lowercasing of both text and pattern |
| MinigrepTests.CaseSensitiveSearchExample | src/lib.rs:79-90 | searching "duct" in the four-line poem returns only "safe, fast, productive" |
| MinigrepTests.CaseInsensitiveSearchExample | src/lib.rs:93-104 | searching "RuSt" ignoring case returns "Rust:" and "Trust me.", with their capitals |
| MinigrepTests.CaseSensitiveSearchTest | src/lib.rs:87-89 | `search("duct", text)` on the test's text returns `["safe, fast, productive"]` |
| MinigrepTests.CaseInsensitiveSearchTest | src/lib.rs:101-103 | `search_case_insensitive("RuSt", text)` on the test's text returns `["Rust:", "Trust me."]` |

## Left out

- Reading the file (`fs::read_to_string`) is not modelled. `Run` receives
  its outcome as a parameter: the contents, or the error.
- The buffered writer over the locked standard output is not modelled.
  `Run` returns the text written as an out-parameter.
- The `unwrap` panics on failed writes and flushes are not modelled.
- The byte count of a partial `write`, which the source ignores, is not
  modelled.
- `env::var("IGNORE_CASE")` is not read from a process environment. `Build`
  takes the lookup's result as a parameter.
- Lower: folds ASCII letters only. Unicode `to_lowercase`, which can change
  a string's length, is not modelled.
- ContainsLower: holds for ASCII folding only. With Rust's `to_lowercase`, a
  word-final `'Σ'` becomes `'ς'` but a lone `'Σ'` becomes `'σ'`, so `"Σ"`
  occurs in `"ΑΣ"` while `"σ"` does not occur in `"ας"`.
- InsensitiveKeepsSensitiveMatches: holds for ASCII folding only. With
  Rust's `to_lowercase`, `search("Σ", "ΑΣ")` returns `["ΑΣ"]` while
  `search_case_insensitive("Σ", "ΑΣ")` returns nothing.
- SearchesAgreeOnLowercase: holds for ASCII folding only. Its requires
  excludes only 'A'..'Z', so the line `"É"` with the query `"é"` meets it.
  In the program the case-insensitive search keeps that line and the
  case-sensitive one drops it.
- LowerOfLowercase: holds for ASCII folding only. Its requires excludes only
  'A'..'Z', so `"É"` meets it, though Rust's `to_lowercase` turns it into
  `"é"`.
- `src/main.rs` is not part of this model: argument collection, error
  printing and the process exit code.
- Strings are modelled as sequences of characters, not as UTF-8 bytes.
  Borrowed slices (`&str`) are modelled as values.
- TerminatedOfLines: requires that the text holds no `'\r'` at all, which is
  stronger than needed. For a text ending in `'\n'` the exact condition is
  that no `'\r'` comes directly before a `'\n'`.
