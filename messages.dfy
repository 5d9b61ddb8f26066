/** The message builders of src/main.cpp:159-190 and the text the error
    handler at src/main.cpp:85 writes, with readers that recover what each
    message reports. */
module Messages {
  import opened Results
  import opened Paths
  import opened Text

  /** An exception's `what()` text. The library's messages and
      `openErrorMsg` are all at least ten characters long. */
  type Message = s: string | |s| >= 10 witness "0123456789"

  /** A header line followed by two quoted path lines. */
  function TwoPathMsg(header: string, first: Path, second: Path): (m: string)
    ensures header + "\n" <= m && m[|m| - 1] == '\n'
  {
    header + "\n"
    + "  \"" + PathString(first) + "\"\n"
    + "  \"" + PathString(second) + "\"\n"
  }

  /** searchMsg (src/main.cpp:159-163): the header line, then each
      directory quoted on a line of its own; the text ends a line. */
  function SearchMsg(first: Path, second: Path): (m: string)
    ensures "Searching for differences between:\n" <= m && m[|m| - 1] == '\n'
  {
    TwoPathMsg("Searching for differences between:", first, second)
  }

  /** openErrorMsg (src/main.cpp:165-167): it starts with the ten
      characters "Failed to " and, unlike the other messages, does not end
      a line. */
  function OpenErrorMsg(path: Path): (m: Message)
    ensures m[..10] == "Failed to " && m[|m| - 1] == '.'
  {
    "Failed to open \"" + PathString(path) + "\"."
  }

  /** missingMsg (src/main.cpp:169-171): the quoted path, then
      " does not exist."; the text ends a line. */
  function MissingMsg(path: Path): (m: string)
    ensures |m| > 0 && m[0] == '"' && m[|m| - 1] == '\n'
  {
    "\"" + PathString(path) + "\" does not exist.\n"
  }

  /** mismatchMsg (src/main.cpp:173-177): the header line, then each file
      quoted on a line of its own; the text ends a line. */
  function MismatchMsg(first: Path, second: Path): (m: string)
    ensures "Not a match:\n" <= m && m[|m| - 1] == '\n'
  {
    TwoPathMsg("Not a match:", first, second)
  }

  /** The suffix a count's noun takes: none when the count is 1. */
  function Plural(n: nat, suffix: string): string {
    if n == 1 then "" else suffix
  }

  /** One summary line without its terminator: `lead`, the count, the noun
      with its plural suffix, then `tail`. */
  function CountLine(lead: string, n: nat, noun: string, suffix: string, tail: string): string {
    lead + Decimal(n) + noun + Plural(n, suffix) + tail
  }

  /** resultsMsg (src/main.cpp:179-190). "missing" has no plural suffix.
      The text begins with the error count and ends a line. */
  function ResultsMsg(count: nat, missing: nat, matches: nat, mismatches: nat, errors: nat): (m: string)
    ensures "Finished with " <= m && m[|m| - 1] == '\n'
  {
    CountLine("Finished with ", errors, " error", "s", "") + "\n"
    + CountLine("Examined ", count, " file", "s", ":") + "\n"
    + CountLine("  ", missing, " missing", "", "") + "\n"
    + CountLine("  ", matches, " match", "es", "") + "\n"
    + CountLine("  ", mismatches, " mismatch", "es", "") + "\n"
  }

  /** What `printLog(ex.what() + '\n', logger)` writes: `'\n'` is the
      integer 10, so the pointer advances past the first ten characters
      and no newline is appended. */
  function ErrorLogText(what: Message): (t: string)
    ensures what == what[..10] + t
  {
    what[10..]
  }

  /** The error handler logs an open failure as "open \"<path>\"." with
      the leading "Failed to " cut off and no line terminator. */
  lemma OpenErrorLogged(path: Path)
    ensures ErrorLogText(OpenErrorMsg(path)) == "open \"" + PathString(path) + "\"."
    ensures var t := ErrorLogText(OpenErrorMsg(path)); t[|t| - 1] == '.'
  {
    var s := PathString(path);
    assert OpenErrorMsg(path) == "Failed to " + ("open \"" + s + "\".");
  }

  // Readers of the messages

  /** The quoted text of a line `  "<text>"`. */
  function Unquote(line: string): Option<string> {
    if |line| >= 4 && line[..3] == "  \"" && line[|line| - 1] == '"'
    then Some(line[3..|line| - 1]) else None
  }

  /** The two quoted paths of a three-line message under `header`. */
  function ParseTwoPaths(header: string, m: string): Option<(string, string)> {
    var ls := Lines(m);
    if |ls| == 3 && ls[0] == header && m == Unlines(ls) then
      match (Unquote(ls[1]), Unquote(ls[2]))
      case (Some(a), Some(b)) => Some((a, b))
      case _ => None
    else None
  }

  /** The path named by a missing-file message. */
  function ParseMissing(m: string): Option<string> {
    var tail := "\" does not exist.\n";
    if |m| >= 1 + |tail| && m[0] == '"' && m[|m| - |tail|..] == tail
    then Some(m[1..|m| - |tail|]) else None
  }

  /** The count a summary line reports after `prefix`. */
  function ParseCount(line: string, prefix: string): Option<nat> {
    if prefix <= line then
      var digits := TakeDigits(line[|prefix|..]);
      if digits == [] then None else Some(ParseDecimal(digits))
    else None
  }

  /** The five counts of a summary, in the order count, missing, matches,
      mismatches, errors. */
  function ParseResults(m: string): Option<(nat, nat, nat, nat, nat)> {
    var ls := Lines(m);
    if |ls| == 5 && m == Unlines(ls) then
      match (ParseCount(ls[0], "Finished with "), ParseCount(ls[1], "Examined "),
             ParseCount(ls[2], "  "), ParseCount(ls[3], "  "), ParseCount(ls[4], "  "))
      case (Some(e), Some(c), Some(mi), Some(ma), Some(mm)) => Some((c, mi, ma, mm, e))
      case _ => None
    else None
  }

  lemma QuotedLine(s: string)
    ensures Unquote("  \"" + s + "\"") == Some(s)
  {
    var line := "  \"" + s + "\"";
    assert line[..3] == "  \"";
    assert line[3..|line| - 1] == s;
  }

  lemma TwoPathsRoundTrip(header: string, a: string, b: string)
    requires '\n' !in header && '\n' !in a && '\n' !in b
    ensures ParseTwoPaths(header, header + "\n" + "  \"" + a + "\"\n" + "  \"" + b + "\"\n") == Some((a, b))
  {
    var la, lb := "  \"" + a + "\"", "  \"" + b + "\"";
    var m := header + "\n" + "  \"" + a + "\"\n" + "  \"" + b + "\"\n";
    UnlinesThree(header, la, lb);
    assert m == header + "\n" + (la + "\n" + (lb + "\n"));
    LinesUnlines([header, la, lb]);
    QuotedLine(a);
    QuotedLine(b);
  }

  lemma UnlinesThree(l0: string, l1: string, l2: string)
    ensures Unlines([l0, l1, l2]) == l0 + "\n" + (l1 + "\n" + (l2 + "\n"))
  {
    assert [l0, l1, l2][1..] == [l1, l2];
    assert [l1, l2][1..] == [l2];
    assert Unlines([l2]) == l2 + "\n" + Unlines([]);
    assert l2 + "\n" + "" == l2 + "\n";
  }

  lemma UnlinesFive(l0: string, l1: string, l2: string, l3: string, l4: string)
    ensures Unlines([l0, l1, l2, l3, l4])
            == l0 + "\n" + (l1 + "\n" + (l2 + "\n" + (l3 + "\n" + (l4 + "\n"))))
  {
    assert [l0, l1, l2, l3, l4][1..] == [l1, l2, l3, l4];
    UnlinesThree(l2, l3, l4);
    assert [l1, l2, l3, l4][1..] == [l2, l3, l4];
  }

  /** The search message names both directories, one per quoted line. */
  lemma SearchMsgRoundTrip(first: Path, second: Path)
    requires '\n' !in PathString(first) && '\n' !in PathString(second)
    ensures ParseTwoPaths("Searching for differences between:", SearchMsg(first, second))
            == Some((PathString(first), PathString(second)))
  {
    TwoPathsRoundTrip("Searching for differences between:", PathString(first), PathString(second));
  }

  /** The mismatch message names the source file and then its counterpart. */
  lemma MismatchMsgRoundTrip(first: Path, second: Path)
    requires '\n' !in PathString(first) && '\n' !in PathString(second)
    ensures ParseTwoPaths("Not a match:", MismatchMsg(first, second))
            == Some((PathString(first), PathString(second)))
  {
    TwoPathsRoundTrip("Not a match:", PathString(first), PathString(second));
  }

  /** The missing-file message names the missing path, for any path. */
  lemma MissingMsgRoundTrip(path: Path)
    ensures ParseMissing(MissingMsg(path)) == Some(PathString(path))
  {
    var m := MissingMsg(path);
    var tail := "\" does not exist.\n";
    assert m == "\"" + PathString(path) + tail;
    assert m[|m| - |tail|..] == tail;
    assert m[1..|m| - |tail|] == PathString(path);
  }

  lemma ParseCountOf(lead: string, n: nat, noun: string, suffix: string, tail: string)
    requires noun != [] && !IsDigit(noun[0])
    ensures ParseCount(CountLine(lead, n, noun, suffix, tail), lead) == Some(n)
  {
    var rest := noun + Plural(n, suffix) + tail;
    var line := CountLine(lead, n, noun, suffix, tail);
    assert line == lead + (Decimal(n) + rest);
    assert line[|lead|..] == Decimal(n) + rest;
    TakeDigitsOf(Decimal(n), rest);
    DecimalRoundTrip(n);
  }

  lemma NoNewlineInDecimal(n: nat)
    ensures '\n' !in Decimal(n)
  {
    var d := Decimal(n);
    assert forall i :: 0 <= i < |d| ==> d[i] != '\n';
  }

  lemma NoNewlineInCountLine(lead: string, n: nat, noun: string, suffix: string, tail: string)
    requires '\n' !in lead && '\n' !in noun && '\n' !in suffix && '\n' !in tail
    ensures '\n' !in CountLine(lead, n, noun, suffix, tail)
  {
    NoNewlineInDecimal(n);
  }

  lemma EndsWithTail(a: string, b: string, tail: string)
    ensures EndsWith(a + tail, b + tail) <==> EndsWith(a, b)
  {
    if |b| <= |a| {
      assert (a + tail)[|a + tail| - |b + tail|..] == a[|a| - |b|..] + tail;
      if EndsWith(a + tail, b + tail) {
        assert a[|a| - |b|..] == (a + tail)[|a + tail| - |b + tail|..][..|b|];
      }
    }
  }

  /** A noun followed by its plural suffix ends in noun + suffix exactly
      when the count is not 1. */
  lemma PluralEnds(lead: string, n: nat, noun: string, suffix: string, tail: string)
    requires noun != [] && suffix != [] && noun[|noun| - 1] != suffix[|suffix| - 1]
    ensures EndsWith(CountLine(lead, n, noun, suffix, tail), noun + suffix + tail) <==> n != 1
  {
    var s := lead + Decimal(n) + noun + Plural(n, suffix);
    EndsWithTail(s, noun + suffix, tail);
    if n == 1 {
      assert s == lead + Decimal(n) + noun;
      assert s[|s| - 1] == noun[|noun| - 1];
    } else {
      assert s[|s| - |noun + suffix|..] == noun + suffix;
    }
  }

  /** The five lines of the summary, without their terminators. */
  function SummaryLines(count: nat, missing: nat, matches: nat, mismatches: nat, errors: nat): seq<string> {
    [ CountLine("Finished with ", errors, " error", "s", ""),
      CountLine("Examined ", count, " file", "s", ":"),
      CountLine("  ", missing, " missing", "", ""),
      CountLine("  ", matches, " match", "es", ""),
      CountLine("  ", mismatches, " mismatch", "es", "") ]
  }

  lemma ConcatFive(l0: string, l1: string, l2: string, l3: string, l4: string)
    ensures l0 + "\n" + l1 + "\n" + l2 + "\n" + l3 + "\n" + l4 + "\n"
            == l0 + "\n" + (l1 + "\n" + (l2 + "\n" + (l3 + "\n" + (l4 + "\n"))))
  {
  }

  lemma NoNewlineInSummaryLines(count: nat, missing: nat, matches: nat, mismatches: nat, errors: nat)
    ensures var ls := SummaryLines(count, missing, matches, mismatches, errors);
            forall k :: 0 <= k < |ls| ==> '\n' !in ls[k]
  {
    NoNewlineInCountLine("Finished with ", errors, " error", "s", "");
    NoNewlineInCountLine("Examined ", count, " file", "s", ":");
    NoNewlineInCountLine("  ", missing, " missing", "", "");
    NoNewlineInCountLine("  ", matches, " match", "es", "");
    NoNewlineInCountLine("  ", mismatches, " mismatch", "es", "");
  }

  lemma ResultsMsgLines(count: nat, missing: nat, matches: nat, mismatches: nat, errors: nat)
    ensures var ls := SummaryLines(count, missing, matches, mismatches, errors);
            && ResultsMsg(count, missing, matches, mismatches, errors) == Unlines(ls)
            && Lines(Unlines(ls)) == ls
  {
    var ls := SummaryLines(count, missing, matches, mismatches, errors);
    UnlinesFive(ls[0], ls[1], ls[2], ls[3], ls[4]);
    ConcatFive(ls[0], ls[1], ls[2], ls[3], ls[4]);
    NoNewlineInSummaryLines(count, missing, matches, mismatches, errors);
    LinesUnlines(ls);
  }

  lemma PluralEndsAs(lead: string, n: nat, noun: string, suffix: string, tail: string, ending: string)
    requires noun != [] && suffix != [] && noun[|noun| - 1] != suffix[|suffix| - 1]
    requires ending == noun + suffix + tail
    ensures EndsWith(CountLine(lead, n, noun, suffix, tail), ending) <==> n != 1
  {
    PluralEnds(lead, n, noun, suffix, tail);
  }

  /** The plural endings of the summary lines, spelled out. */
  lemma SummaryEndings()
    ensures " error" + "s" + "" == " errors" && " file" + "s" + ":" == " files:"
    ensures " match" + "es" + "" == " matches" && " mismatch" + "es" + "" == " mismatches"
  {
    assert " error" + "s" == " errors" && " file" + "s" == " files";
    assert " match" + "es" == " matches" && " mismatch" + "es" == " mismatches";
  }

  /** The summary is exactly the five summary lines, each terminated by
      '\n' and none holding another '\n'. */
  lemma ResultsMsgShape(count: nat, missing: nat, matches: nat, mismatches: nat, errors: nat)
    ensures var m := ResultsMsg(count, missing, matches, mismatches, errors);
            && Lines(m) == SummaryLines(count, missing, matches, mismatches, errors)
            && |Lines(m)| == 5 && m == Unlines(Lines(m))
    ensures var ls := Lines(ResultsMsg(count, missing, matches, mismatches, errors));
            forall k :: 0 <= k < |ls| ==> '\n' !in ls[k]
  {
    ResultsMsgLines(count, missing, matches, mismatches, errors);
    NoNewlineInSummaryLines(count, missing, matches, mismatches, errors);
  }

  /** "error", "file", "match" and "mismatch" take their plural ending
      exactly when their count is not 1; the "missing" line never changes. */
  lemma ResultsMsgPlurals(count: nat, missing: nat, matches: nat, mismatches: nat, errors: nat)
    ensures var ls := SummaryLines(count, missing, matches, mismatches, errors);
            && (EndsWith(ls[0], " errors") <==> errors != 1)
            && (EndsWith(ls[1], " files:") <==> count != 1)
            && ls[2] == "  " + Decimal(missing) + " missing"
            && (EndsWith(ls[3], " matches") <==> matches != 1)
            && (EndsWith(ls[4], " mismatches") <==> mismatches != 1)
  {
    var ls := SummaryLines(count, missing, matches, mismatches, errors);
    SummaryEndings();
    PluralEndsAs("Finished with ", errors, " error", "s", "", " errors");
    PluralEndsAs("Examined ", count, " file", "s", ":", " files:");
    assert ls[2] == "  " + Decimal(missing) + " missing" + "" + "";
    PluralEndsAs("  ", matches, " match", "es", "", " matches");
    PluralEndsAs("  ", mismatches, " mismatch", "es", "", " mismatches");
  }

  lemma ResultsMsgRoundTrip(count: nat, missing: nat, matches: nat, mismatches: nat, errors: nat)
    ensures ParseResults(ResultsMsg(count, missing, matches, mismatches, errors))
            == Some((count, missing, matches, mismatches, errors))
  {
    ResultsMsgLines(count, missing, matches, mismatches, errors);
    var ls := SummaryLines(count, missing, matches, mismatches, errors);
    ParseCountOf("Finished with ", errors, " error", "s", "");
    ParseCountOf("Examined ", count, " file", "s", ":");
    ParseCountOf("  ", missing, " missing", "", "");
    ParseCountOf("  ", matches, " match", "es", "");
    ParseCountOf("  ", mismatches, " mismatch", "es", "");
    ParseFiveLines(ls, count, missing, matches, mismatches, errors);
  }

  lemma ParseFiveLines(ls: seq<string>, count: nat, missing: nat, matches: nat, mismatches: nat, errors: nat)
    requires |ls| == 5 && Lines(Unlines(ls)) == ls
    requires ParseCount(ls[0], "Finished with ") == Some(errors)
    requires ParseCount(ls[1], "Examined ") == Some(count)
    requires ParseCount(ls[2], "  ") == Some(missing)
    requires ParseCount(ls[3], "  ") == Some(matches)
    requires ParseCount(ls[4], "  ") == Some(mismatches)
    ensures ParseResults(Unlines(ls)) == Some((count, missing, matches, mismatches, errors))
  {
  }
}
