/** The comparison run of src/main.cpp:42-94 (`runDifferences`): every
    entry of the walk of the first directory is classified, counted and
    reported, and the run ends with the summary. */
module Traversal {
  import opened Results
  import opened Paths
  import opened Messages
  import opened Compare
  import opened Reporting
  import Cli

  /** How one entry of the walk ends. `Failed` is an exception caught by the
      per-entry handler; `counted` says whether `count` had already been
      incremented when it was thrown. `Aborted`: the comparison ran into
      undefined behaviour (`Compare.Undefined`), after `count` was
      incremented; the run goes no further. */
  datatype Outcome =
    | Skipped
    | Missing(alt: Path)
    | Mismatch(src: Path, alt: Path)
    | Matched
    | Failed(what: Message, counted: bool)
    | Aborted

  /** The five counters of `runDifferences`. */
  datatype Tally = Tally(count: nat, missing: nat, matches: nat, mismatches: nat, errors: nat)

  const NoFiles: Tally := Tally(0, 0, 0, 0, 0)

  /** The body of the per-entry `try` block (src/main.cpp:62-86) for the
      entry `src` of a walk of `first`, compared against `second`. */
  function Classify(fs: FileTree, first: Path, second: Path, src: Path): (o: Outcome)
    ensures o.Skipped? <==> IsDirectory(fs, src) == Ok(true)
    ensures o.Failed? && !o.counted <==> IsDirectory(fs, src).Err?
    ensures o.Missing? <==> IsDirectory(fs, src) == Ok(false)
                            && Exists(fs, FindCorrespondingFile(src, first, second)) == Ok(false)
    ensures o.Missing? ==> o.alt == FindCorrespondingFile(src, first, second)
    ensures o.Mismatch? ==> o == Mismatch(src, FindCorrespondingFile(src, first, second))
  {
    match IsDirectory(fs, src)
    case Err(what) => Failed(what, false)
    case Ok(isDir) =>
      if isDir then Skipped
      else
        var alt := FindCorrespondingFile(src, first, second);
        match Exists(fs, alt)
        case Err(what) => Failed(what, true)
        case Ok(present) =>
          if !present then Missing(alt)
          else
            match ExactMatch(fs, src, alt)
            case Err(what) => Failed(what, true)
            case Ok(Equal) => Matched
            case Ok(Unequal) => Mismatch(src, alt)
            case Ok(Undefined) => Aborted
  }

  /** The outcome of an entry read off the file tree: a directory is
      skipped; a failing status query is an error, counted only when it is
      not the first query. For any other entry, including one no longer in
      the tree: an absent counterpart is missing and no file is opened; a
      source or counterpart that cannot be opened is an error naming it;
      two readable files are a match, a mismatch or undefined behaviour as
      the comparison says. */
  lemma ClassifyOnTree(fs: FileTree, first: Path, second: Path, src: Path)
    ensures var alt, c := FindCorrespondingFile(src, first, second), Classify(fs, first, second, src);
            && (src in fs && fs[src] == Dir ==> c == Skipped)
            && (src in fs && fs[src].StatusError? ==> c == Failed(fs[src].what, false))
            && (src !in fs || fs[src].File? || fs[src] == Unopenable ==>
                  && (alt !in fs ==> c == Missing(alt))
                  && (alt in fs && fs[alt].StatusError? ==> c == Failed(fs[alt].what, true))
                  && (alt in fs && Open(fs, src).None? && !fs[alt].StatusError? ==>
                        c == Failed(OpenErrorMsg(src), true))
                  && (alt in fs && Open(fs, src).Some? && (fs[alt] == Dir || fs[alt] == Unopenable) ==>
                        c == Failed(OpenErrorMsg(alt), true))
                  && (alt in fs && Open(fs, src).Some? && fs[alt].File? ==>
                        var cmp := Compared(fs[src].bytes, fs[alt].bytes);
                        && (cmp == Equal ==> c == Matched)
                        && (cmp == Unequal ==> c == Mismatch(src, alt))
                        && (cmp == Undefined ==> c == Aborted)))
  {
  }

  /** The counters after one entry. A directory changes nothing; a missing
      counterpart, a match, a mismatch and an error each add one to their
      own counter, and to `count` unless the `is_directory` test threw. An
      aborted comparison has only incremented `count`. */
  function Record(t: Tally, o: Outcome): (r: Tally)
    ensures o.Skipped? ==> r == t
    ensures !o.Skipped? && !o.Aborted? ==>
              r.missing + r.matches + r.mismatches + r.errors
              == t.missing + t.matches + t.mismatches + t.errors + 1
    ensures r.count == t.count + (if o.Skipped? || (o.Failed? && !o.counted) then 0 else 1)
    ensures r.missing == t.missing + (if o.Missing? then 1 else 0)
    ensures r.matches == t.matches + (if o.Matched? then 1 else 0)
    ensures r.mismatches == t.mismatches + (if o.Mismatch? then 1 else 0)
    ensures r.errors == t.errors + (if o.Failed? then 1 else 0)
  {
    match o
    case Skipped => t
    case Missing(_) => t.(count := t.count + 1, missing := t.missing + 1)
    case Mismatch(_, _) => t.(count := t.count + 1, mismatches := t.mismatches + 1)
    case Matched => t.(count := t.count + 1, matches := t.matches + 1)
    case Failed(_, counted) =>
      t.(count := if counted then t.count + 1 else t.count, errors := t.errors + 1)
    case Aborted => t.(count := t.count + 1)
  }

  /** The outcomes of the given entries, in walk order. */
  function Outcomes(fs: FileTree, first: Path, second: Path, entries: seq<Path>): (os: seq<Outcome>)
    ensures |os| == |entries|
  {
    if entries == [] then []
    else
      var last := |entries| - 1;
      Outcomes(fs, first, second, entries[..last]) + [Classify(fs, first, second, entries[last])]
  }

  /** The outcome at each position is the outcome of the entry there. */
  lemma {:induction false} OutcomeAt(fs: FileTree, first: Path, second: Path, entries: seq<Path>, j: nat)
    requires j < |entries|
    ensures Outcomes(fs, first, second, entries)[j] == Classify(fs, first, second, entries[j])
  {
    var last := |entries| - 1;
    if j < last {
      OutcomeAt(fs, first, second, entries[..last], j);
    }
  }

  /** A sequence holding the outcome of each entry at that entry's position
      is the outcome sequence of the walk. */
  lemma OutcomesAre(fs: FileTree, first: Path, second: Path, entries: seq<Path>, os: seq<Outcome>)
    requires |os| == |entries|
    requires forall j :: 0 <= j < |entries| ==> os[j] == Classify(fs, first, second, entries[j])
    ensures os == Outcomes(fs, first, second, entries)
  {
    forall j | 0 <= j < |entries| ensures os[j] == Outcomes(fs, first, second, entries)[j] {
      OutcomeAt(fs, first, second, entries, j);
    }
  }

  /** The counters after the given outcomes, starting from zero. */
  function Summarise(os: seq<Outcome>): Tally {
    if os == [] then NoFiles else Record(Summarise(os[..|os| - 1]), os[|os| - 1])
  }

  /** How many entries were directories. */
  function Directories(os: seq<Outcome>): nat {
    if os == [] then 0 else Directories(os[..|os| - 1]) + (if os[|os| - 1].Skipped? then 1 else 0)
  }

  /** How many entries threw from the `is_directory` test, before `count`
      was incremented. */
  function Uncounted(os: seq<Outcome>): nat {
    if os == [] then 0
    else Uncounted(os[..|os| - 1]) + (if os[|os| - 1].Failed? && !os[|os| - 1].counted then 1 else 0)
  }

  /** How many comparisons ran into undefined behaviour. */
  function Aborts(os: seq<Outcome>): nat {
    if os == [] then 0 else Aborts(os[..|os| - 1]) + (if os[|os| - 1].Aborted? then 1 else 0)
  }

  /** Every entry that is not a directory (nor an aborted comparison) lands
      in exactly one of the four buckets, and `count` misses only the
      entries whose `is_directory` test threw. Hence, with no aborted
      comparison, `missing + matches + mismatches <= count <= missing +
      matches + mismatches + errors`, with equality on the right when that
      test never throws. */
  lemma {:induction false} TallyBounds(os: seq<Outcome>)
    ensures var t := Summarise(os);
            && t.missing + t.matches + t.mismatches + t.errors + Directories(os) + Aborts(os) == |os|
            && t.count + Uncounted(os) == t.missing + t.matches + t.mismatches + t.errors + Aborts(os)
            && Uncounted(os) <= t.errors
            && t.missing + t.matches + t.mismatches <= t.count
            && (Aborts(os) == 0 ==> t.count <= t.missing + t.matches + t.mismatches + t.errors)
            && (Aborts(os) == 0 && Uncounted(os) == 0 ==>
                  t.count == t.missing + t.matches + t.mismatches + t.errors)
  {
    if os != [] {
      TallyBounds(os[..|os| - 1]);
    }
  }

  /** The text one outcome sends to `printLog`: nothing for a directory, a
      match or an aborted comparison; a message naming the missing path or
      both mismatched files; the error handler's text, the exception
      message without its first ten characters. */
  function EntryLog(o: Outcome): (t: string)
    ensures o.Skipped? || o.Matched? || o.Aborted? ==> t == ""
    ensures o.Missing? ==> ParseMissing(t) == Some(PathString(o.alt))
    ensures o.Mismatch? && '\n' !in PathString(o.src) && '\n' !in PathString(o.alt) ==>
              ParseTwoPaths("Not a match:", t) == Some((PathString(o.src), PathString(o.alt)))
    ensures o.Failed? ==> o.what == o.what[..10] + t
  {
    match o
    case Skipped => ""
    case Missing(alt) => MissingMsgRoundTrip(alt); MissingMsg(alt)
    case Mismatch(src, alt) =>
      if '\n' !in PathString(src) && '\n' !in PathString(alt) then
        MismatchMsgRoundTrip(src, alt);
        MismatchMsg(src, alt)
      else MismatchMsg(src, alt)
    case Matched => ""
    case Failed(what, _) => ErrorLogText(what)
    case Aborted => ""
  }

  /** Everything the given outcomes log, in order. */
  function LogText(os: seq<Outcome>): string {
    if os == [] then "" else LogText(os[..|os| - 1]) + EntryLog(os[|os| - 1])
  }

  /** One more outcome adds its text to the log text and its count to the tally. */
  lemma Appended(os: seq<Outcome>, o: Outcome)
    ensures LogText(os + [o]) == LogText(os) + EntryLog(o)
    ensures Summarise(os + [o]) == Record(Summarise(os), o)
  {
    assert (os + [o])[..|os|] == os;
  }

  /** Two appends in a row are one append of the two texts. */
  lemma Extended(c0: string, c1: string, c2: string, x: string, y: string)
    requires c1 == c0 + x && c2 == c1 + y
    ensures c2 == c0 + (x + y)
  {
  }

  /** One turn of the loop of `runDifferences` keeps its invariant. */
  lemma Stepped(fs: FileTree, first: Path, second: Path, entries: seq<Path>, i: nat,
                outs: seq<Outcome>, o: Outcome, t: Tally, t': Tally,
                c0: string, c1: string, c2: string, l0: string, l1: string, l2: string, logger: bool)
    requires i < |entries| && outs == Outcomes(fs, first, second, entries[..i])
    requires o == Classify(fs, first, second, entries[i])
    requires t == Summarise(outs) && t' == Record(t, o)
    requires c1 == c0 + LogText(outs) && c2 == c1 + EntryLog(o)
    requires l1 == (if logger then l0 + LogText(outs) else l0)
    requires l2 == (if logger then l1 + EntryLog(o) else l1)
    ensures outs + [o] == Outcomes(fs, first, second, entries[..i + 1])
    ensures t' == Summarise(outs + [o])
    ensures c2 == c0 + LogText(outs + [o])
    ensures l2 == (if logger then l0 + LogText(outs + [o]) else l0)
  {
    assert entries[..i + 1][..i] == entries[..i];
    Appended(outs, o);
    Extended(c0, c1, c2, LogText(outs), EntryLog(o));
    if logger {
      Extended(l0, l1, l2, LogText(outs), EntryLog(o));
    }
  }

  /** What the writes of `runDifferences` add up to, starting from nothing:
      with the summary when the walk finished, without it when it aborted. */
  lemma Framed(header: string, text: string, summary: string)
    ensures "" + header + "\n" + text + "\n" + summary == header + "\n" + text + ("\n" + summary)
    ensures "" + header + text + summary == header + text + summary
    ensures "" + header + "\n" + text == header + "\n" + text + ""
    ensures "" + header + text == header + text + ""
  {
  }

  /** Two clock readings for one call of the spinner. */
  datatype Reading = Reading(now: int, reset: int)

  /** The per-entry `try` block and its handler (src/main.cpp:62-86):
      classifies `srcFile`, updates the counters and logs the outcome. */
  method ProcessEntry(fs: FileTree, first: Path, second: Path, srcFile: Path,
                      sink: Reporter, logger: bool, t: Tally)
    returns (t': Tally, halted: bool, ghost o: Outcome)
    modifies sink
    ensures o == Classify(fs, first, second, srcFile)
    ensures halted <==> o.Aborted?
    ensures t' == Record(t, o)
    ensures sink.console == old(sink.console) + EntryLog(o)
    ensures sink.log == if logger then old(sink.log) + EntryLog(o) else old(sink.log)
  {
    o := Classify(fs, first, second, srcFile);
    t', halted := t, false;
    var isDir := IsDirectory(fs, srcFile);
    if isDir.Err? {
      t' := t'.(errors := t'.errors + 1);
      sink.PrintLog(ErrorLogText(isDir.error), logger);
      return;
    }
    if isDir.value {
      assert sink.console + "" == sink.console && sink.log + "" == sink.log;
      return;
    }
    t' := t'.(count := t'.count + 1);
    var altFile := FindCorrespondingFile(srcFile, first, second);
    var present := Exists(fs, altFile);
    if present.Err? {
      t' := t'.(errors := t'.errors + 1);
      sink.PrintLog(ErrorLogText(present.error), logger);
    } else if !present.value {
      t' := t'.(missing := t'.missing + 1);
      sink.PrintLog(MissingMsg(altFile), logger);
    } else {
      var same := IsExactMatch(fs, srcFile, altFile);
      if same.Err? {
        t' := t'.(errors := t'.errors + 1);
        sink.PrintLog(ErrorLogText(same.error), logger);
      } else if same.value == Undefined {
        // The process is killed inside the comparison: nothing more is done.
        halted := true;
        assert sink.console + "" == sink.console && sink.log + "" == sink.log;
      } else if same.value == Unequal {
        t' := t'.(mismatches := t'.mismatches + 1);
        sink.PrintLog(MismatchMsg(srcFile, altFile), logger);
      } else {
        t' := t'.(matches := t'.matches + 1);
        assert sink.console + "" == sink.console && sink.log + "" == sink.log;
      }
    }
  }

  /** After the entries `walked`, the counters are their tally and the
      console and the log (which held `c0` and `l0` before the walk) have
      received exactly their log text, the log only when there is one. */
  ghost predicate Reported(fs: FileTree, first: Path, second: Path, walked: seq<Path>, t: Tally,
                           console: string, log: string, c0: string, l0: string, logger: bool)
  {
    var os := Outcomes(fs, first, second, walked);
    && t == Summarise(os)
    && console == c0 + LogText(os)
    && log == if logger then l0 + LogText(os) else l0
  }

  /** The position of the first entry whose comparison runs into undefined
      behaviour, or the number of entries when there is none. */
  function FirstFault(fs: FileTree, first: Path, second: Path, entries: seq<Path>): (k: nat)
    ensures k <= |entries|
  {
    if entries == [] then 0
    else if Classify(fs, first, second, entries[0]).Aborted? then 0
    else 1 + FirstFault(fs, first, second, entries[1..])
  }

  /** No entry before the first fault aborts, and the entry at it does. */
  lemma {:induction false} FirstFaultIsFirst(fs: FileTree, first: Path, second: Path, entries: seq<Path>, j: nat)
    requires j < |entries|
    ensures j < FirstFault(fs, first, second, entries) ==> !Classify(fs, first, second, entries[j]).Aborted?
    ensures j == FirstFault(fs, first, second, entries) ==> Classify(fs, first, second, entries[j]).Aborted?
  {
    if j > 0 && !Classify(fs, first, second, entries[0]).Aborted? {
      FirstFaultIsFirst(fs, first, second, entries[1..], j - 1);
    }
  }

  /** The entries the walk gets through: all of them, or those up to and
      including the first that aborts the run. */
  function Processed(fs: FileTree, first: Path, second: Path, entries: seq<Path>): (done: seq<Path>)
    ensures done <= entries
  {
    var k := FirstFault(fs, first, second, entries);
    if k < |entries| then entries[..k + 1] else entries
  }

  /** No entry before the first fault aborts its comparison. */
  lemma {:induction false} NoAbortsBefore(fs: FileTree, first: Path, second: Path, entries: seq<Path>, n: nat)
    requires n <= |entries| && n <= FirstFault(fs, first, second, entries)
    ensures Aborts(Outcomes(fs, first, second, entries[..n])) == 0
  {
    if n > 0 {
      var os := Outcomes(fs, first, second, entries[..n]);
      assert entries[..n][..n - 1] == entries[..n - 1];
      assert os[..n - 1] == Outcomes(fs, first, second, entries[..n - 1]);
      NoAbortsBefore(fs, first, second, entries, n - 1);
      FirstFaultIsFirst(fs, first, second, entries, n - 1);
      OutcomeAt(fs, first, second, entries[..n], n - 1);
    }
  }

  /** The counters a finished run prints: every file examined lands in
      one of the four buckets, and `count` lies between the buckets other
      than errors and all four. */
  lemma FinishedRunBounds(fs: FileTree, first: Path, second: Path, entries: seq<Path>)
    requires FirstFault(fs, first, second, entries) == |entries|
    ensures var t := Summarise(Walked(fs, first, second, entries));
            t.missing + t.matches + t.mismatches <= t.count <= t.missing + t.matches + t.mismatches + t.errors
  {
    assert entries[..|entries|] == entries;
    NoAbortsBefore(fs, first, second, entries, |entries|);
    TallyBounds(Walked(fs, first, second, entries));
  }

  /** The outcomes of the entries the walk gets through. */
  function Walked(fs: FileTree, first: Path, second: Path, entries: seq<Path>): seq<Outcome> {
    Outcomes(fs, first, second, Processed(fs, first, second, entries))
  }

  /** One turn of the loop of runDifferences: entry `i` is processed, so
      the counters and the text written so far extend from the first `i`
      entries to the first `i + 1`. Unless the entry aborted the run, the
      spinner is then stepped with the clock reading `r`. */
  method Visit(fs: FileTree, first: Path, second: Path, entries: seq<Path>, i: nat,
               sink: Reporter, logger: bool, spinner: Cli.Hourglass, r: Reading,
               t: Tally, ghost c0: string, ghost l0: string)
    returns (t': Tally, halted: bool)
    requires i < |entries| && spinner.Valid()
    requires Reported(fs, first, second, entries[..i], t, sink.console, sink.log, c0, l0, logger)
    modifies sink, spinner
    ensures spinner.Valid()
    ensures halted <==> Classify(fs, first, second, entries[i]).Aborted?
    ensures Reported(fs, first, second, entries[..i + 1], t', sink.console, sink.log, c0, l0, logger)
    ensures halted ==> spinner.past == old(spinner.past) && spinner.currentFrame == old(spinner.currentFrame)
    ensures !halted && Cli.ElapsedMs(old(spinner.past), r.now, spinner.ticksPerMs) < Cli.MsToWait ==>
              spinner.past == old(spinner.past) && spinner.currentFrame == old(spinner.currentFrame)
    ensures !halted && Cli.ElapsedMs(old(spinner.past), r.now, spinner.ticksPerMs) >= Cli.MsToWait ==>
              spinner.past == r.reset && spinner.currentFrame == Cli.Advance(old(spinner.currentFrame))
  {
    ghost var outs := Outcomes(fs, first, second, entries[..i]);
    ghost var c1, l1 := sink.console, sink.log;
    ghost var o;
    t', halted, o := ProcessEntry(fs, first, second, entries[i], sink, logger, t);
    Stepped(fs, first, second, entries, i, outs, o, t, t', c0, c1, sink.console, l0, l1, sink.log, logger);
    if !halted {
      var _ := spinner.Tick(r.now, r.reset);
    }
  }

  /** Where the loop stands after `i` turns: still running with no fault
      among the first `i` entries, or stopped just after the first fault. */
  lemma Advanced(fs: FileTree, first: Path, second: Path, entries: seq<Path>, i: nat, halted: bool)
    requires i < |entries| && i <= FirstFault(fs, first, second, entries)
    requires halted <==> Classify(fs, first, second, entries[i]).Aborted?
    ensures halted ==> i + 1 == FirstFault(fs, first, second, entries) + 1
    ensures !halted ==> i + 1 <= FirstFault(fs, first, second, entries)
  {
    FirstFaultIsFirst(fs, first, second, entries, i);
  }

  /** The loop of runDifferences (src/main.cpp:59-89): the entries are
      processed in walk order, and the spinner is stepped after each one,
      until the walk ends or a comparison aborts the run. */
  method WalkEntries(fs: FileTree, first: Path, second: Path, entries: seq<Path>,
                     sink: Reporter, logger: bool, spinner: Cli.Hourglass, clock: seq<Reading>)
    returns (tally: Tally, halted: bool)
    requires |clock| == |entries| && spinner.Valid()
    modifies sink, spinner
    ensures spinner.Valid()
    ensures halted <==> FirstFault(fs, first, second, entries) < |entries|
    ensures tally == Summarise(Walked(fs, first, second, entries))
    ensures sink.console == old(sink.console) + LogText(Walked(fs, first, second, entries))
    ensures sink.log == if logger then old(sink.log) + LogText(Walked(fs, first, second, entries))
                        else old(sink.log)
  {
    tally, halted := NoFiles, false;
    var i := 0;
    assert entries[..0] == [];
    assert sink.console + "" == sink.console && sink.log + "" == sink.log;
    while i < |entries| && !halted
      invariant 0 <= i <= |entries|
      invariant spinner.Valid()
      invariant halted ==> i == FirstFault(fs, first, second, entries) + 1
      invariant !halted ==> i <= FirstFault(fs, first, second, entries)
      invariant Reported(fs, first, second, entries[..i], tally, sink.console, sink.log,
                         old(sink.console), old(sink.log), logger)
    {
      tally, halted := Visit(fs, first, second, entries, i, sink, logger, spinner, clock[i],
                             tally, old(sink.console), old(sink.log));
      Advanced(fs, first, second, entries, i, halted);
      i := i + 1;
    }
    assert entries[..i] == Processed(fs, first, second, entries);
  }

  /** runDifferences (src/main.cpp:42-94). `entries` is the walk of `first`
      in the order the directory iterator yields it, and `clock` the clock
      readings the spinner takes after each entry. The result is the tally,
      whether a comparison aborted the run, and the text written to the
      console and to the log file. A run that aborts writes no summary. */
  method RunDifferences(fs: FileTree, first: Path, second: Path, output: Path,
                        entries: seq<Path>, spinner: Cli.Hourglass, clock: seq<Reading>)
    returns (tally: Tally, halted: bool, console: string, log: string)
    requires |clock| == |entries| && spinner.Valid()
    modifies spinner
    ensures spinner.Valid()
    ensures halted <==> FirstFault(fs, first, second, entries) < |entries|
    ensures !halted ==> Processed(fs, first, second, entries) == entries
    ensures tally == Summarise(Walked(fs, first, second, entries))
    ensures console == SearchMsg(first, second) + "\n"
                       + LogText(Walked(fs, first, second, entries))
                       + (if halted then ""
                          else "\n" + ResultsMsg(tally.count, tally.missing, tally.matches, tally.mismatches, tally.errors))
    ensures log == if IsEmpty(output) then ""
                   else SearchMsg(first, second)
                        + LogText(Walked(fs, first, second, entries))
                        + (if halted then ""
                           else ResultsMsg(tally.count, tally.missing, tally.matches, tally.mismatches, tally.errors))
  {
    var sink := new Reporter();
    var logger := !IsEmpty(output);

    var header := SearchMsg(first, second);
    sink.PrintLog(header, logger);
    sink.PrintLog("\n", false);

    tally, halted := WalkEntries(fs, first, second, entries, sink, logger, spinner, clock);
    ghost var text := LogText(Walked(fs, first, second, entries));
    if halted {
      Framed(header, text, "");
      return tally, halted, sink.console, sink.log;
    }

    var summary := ResultsMsg(tally.count, tally.missing, tally.matches, tally.mismatches, tally.errors);
    sink.PrintLog("\n", false);
    sink.PrintLog(summary, logger);
    Framed(header, text, summary);
    console, log := sink.console, sink.log;
  }

  /** Two trees used in the scenarios below, on the drive "C:\\". */
  const Left: Path := Path("C:\\", ["left"])
  const Right: Path := Path("C:\\", ["right"])

  function Under(dir: Path, s: seq<string>): Path {
    Path(dir.root, dir.comps + s)
  }

  /** `left` holds a.txt ("hi") and sub/b.txt ("x"); `right` holds a.txt
      ("hi") and sub/b.txt ("y"). */
  function TwoFileTrees(): FileTree {
    map[Left := Dir, Under(Left, ["a.txt"]) := File([0x68, 0x69]),
        Under(Left, ["sub"]) := Dir, Under(Left, ["sub", "b.txt"]) := File([0x78]),
        Right := Dir, Under(Right, ["a.txt"]) := File([0x68, 0x69]),
        Under(Right, ["sub"]) := Dir, Under(Right, ["sub", "b.txt"]) := File([0x79])]
  }

  /** a.txt has the same bytes on both sides. */
  lemma TwoFileTreesSame()
    ensures Classify(TwoFileTrees(), Left, Right, Under(Left, ["a.txt"])) == Matched
  {
    var fs, a, a' := TwoFileTrees(), Under(Left, ["a.txt"]), Under(Right, ["a.txt"]);
    CorrespondingOfDescendant(Left, Right, ["a.txt"]);
    assert a in fs && fs[a] == File([0x68, 0x69]);
    assert a' in fs && fs[a'] == File([0x68, 0x69]);
    ClassifyOnTree(fs, Left, Right, a);
  }

  /** sub is a directory. */
  lemma TwoFileTreesDirectory()
    ensures Classify(TwoFileTrees(), Left, Right, Under(Left, ["sub"])) == Skipped
  {
    var fs, sub := TwoFileTrees(), Under(Left, ["sub"]);
    assert |"left"| != |"right"|;
    assert sub.comps[0] != Under(Right, ["sub"]).comps[0];
    assert sub in fs && fs[sub] == Dir;
  }

  /** sub/b.txt differs in its first byte. */
  lemma TwoFileTreesDifferent()
    ensures Classify(TwoFileTrees(), Left, Right, Under(Left, ["sub", "b.txt"]))
            == Mismatch(Under(Left, ["sub", "b.txt"]), Under(Right, ["sub", "b.txt"]))
  {
    var fs, b, b' := TwoFileTrees(), Under(Left, ["sub", "b.txt"]), Under(Right, ["sub", "b.txt"]);
    CorrespondingOfDescendant(Left, Right, ["sub", "b.txt"]);
    assert b in fs && fs[b] == File([0x78]);
    assert b' in fs && fs[b'] == File([0x79]);
    var x: seq<bv8>, y: seq<bv8> := [0x78], [0x79];
    assert x[0] != y[0];
    assert Compared(x, y) == Unequal;
    ClassifyOnTree(fs, Left, Right, b);
  }

  /** How each entry of the walk of `left` in TwoFileTrees ends. */
  lemma TwoFileTreesOutcomes()
    ensures Outcomes(TwoFileTrees(), Left, Right,
                     [Under(Left, ["a.txt"]), Under(Left, ["sub"]), Under(Left, ["sub", "b.txt"])])
            == [Matched, Skipped, Mismatch(Under(Left, ["sub", "b.txt"]), Under(Right, ["sub", "b.txt"]))]
  {
    var entries := [Under(Left, ["a.txt"]), Under(Left, ["sub"]), Under(Left, ["sub", "b.txt"])];
    TwoFileTreesSame();
    TwoFileTreesDirectory();
    TwoFileTreesDifferent();
    OutcomesOfThree(TwoFileTrees(), Left, Right, entries[0], entries[1], entries[2]);
  }

  /** The outcomes of a three-entry walk, entry by entry. */
  lemma OutcomesOfThree(fs: FileTree, first: Path, second: Path, x: Path, y: Path, z: Path)
    ensures Outcomes(fs, first, second, [x, y, z])
            == [Classify(fs, first, second, x), Classify(fs, first, second, y), Classify(fs, first, second, z)]
  {
    OutcomesAre(fs, first, second, [x, y, z],
                [Classify(fs, first, second, x), Classify(fs, first, second, y), Classify(fs, first, second, z)]);
  }

  /** A match, a directory and a mismatch count two files. */
  lemma MatchDirectoryMismatch(src: Path, alt: Path)
    ensures Summarise([Matched, Skipped, Mismatch(src, alt)]) == Tally(2, 0, 1, 1, 0)
  {
    var os := [Matched, Skipped, Mismatch(src, alt)];
    assert os[..1] == [Matched] && os[..2] == [Matched, Skipped];
    assert [Matched][..0] == [] && [Matched, Skipped][..1] == [Matched];
    assert Summarise([Matched]) == Tally(1, 0, 1, 0, 0);
    assert Summarise([Matched, Skipped]) == Tally(1, 0, 1, 0, 0);
  }

  /** The walk of `left` in TwoFileTrees counts two files, one match and
      one mismatch. */
  lemma SameAndDifferentFiles()
    ensures Summarise(Outcomes(TwoFileTrees(), Left, Right,
                               [Under(Left, ["a.txt"]), Under(Left, ["sub"]), Under(Left, ["sub", "b.txt"])]))
            == Tally(2, 0, 1, 1, 0)
  {
    TwoFileTreesOutcomes();
    MatchDirectoryMismatch(Under(Left, ["sub", "b.txt"]), Under(Right, ["sub", "b.txt"]));
  }

  /** `left` holds only.txt and `right` is empty: one file, missing. */
  lemma OnlyInFirst()
    ensures var fs := map[Left := Dir, Under(Left, ["only.txt"]) := File([]), Right := Dir];
            Summarise(Outcomes(fs, Left, Right, [Under(Left, ["only.txt"])])) == Tally(1, 1, 0, 0, 0)
  {
    CorrespondingOfDescendant(Left, Right, ["only.txt"]);
  }
}
