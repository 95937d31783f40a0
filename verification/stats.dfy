/**
 * The run statistics of `src/stats.rs`: the display flags chosen from the
 * options, the four counters, whether anything was printed before the
 * summary, and which rows the summary table shows. Printing, colours and
 * number formatting are not modelled; the counters are unbounded.
 */
module Statistics {
  import opened Types
  import CommandLine

  datatype Stats = Stats(
    showRenames: bool,
    showSummary: bool,
    operationMode: string,
    basePath: string,
    errors: nat,
    renamedFiles: nat,
    renamedDirectories: nat,
    renamedSymlinks: nat,
    renameArrow: string,
    errorIcon: string,
    fileIcon: string,
    dirIcon: string,
    symlinkIcon: string)

  /** What a renamed entry was, as its `FileType` tells. */
  datatype FileKind = RegularFile | Directory | Symlink | OtherKind

  /** One row of the summary table: a label and a count. */
  datatype Row = Row(name: string, count: nat)

  const PLAIN_ARROW: string := "=>"
  const ICON_ARROW: string := "\U{21d2}"
  const ERROR_ICON: string := "\U{f00d} "
  const FILE_ICON: string := "\U{f15b} "
  const DIR_ICON: string := "\U{f07c} "
  const SYMLINK_ICON: string := "\U{f481} "

  /** Nothing counted, nothing shown, the plain arrow and no icons. */
  predicate Pristine(s: Stats) {
    && !s.showRenames && !s.showSummary
    && s.errors == 0 && s.renamedFiles == 0 && s.renamedDirectories == 0 && s.renamedSymlinks == 0
    && s.renameArrow == PLAIN_ARROW
    && s.errorIcon == [] && s.fileIcon == [] && s.dirIcon == [] && s.symlinkIcon == []
  }

  /** `Stats::new` */
  function New(): (r: Stats)
    ensures Pristine(r)
    ensures r.operationMode == [] && r.basePath == []
  {
    Stats(false, false, "", "", 0, 0, 0, 0, PLAIN_ARROW, "", "", "", "")
  }

  /** The four counters, in the order the summary lists them. */
  function Counters(s: Stats): seq<nat> {
    [s.errors, s.renamedFiles, s.renamedDirectories, s.renamedSymlinks]
  }

  /**
   * `Stats::set_cli_opts`: renames are listed from verbosity 2, the summary
   * from verbosity 1; the mode reads `RUN` or `DRY-RUN` (or stays as it was
   * when neither flag is set); the icons replace the plain strings only
   * when icons are enabled. The counters are not touched.
   */
  function SetCliOpts(s: Stats, opts: CommandLine.Cli): (r: Stats)
    ensures r.showRenames <==> opts.verbose >= 2
    ensures r.showSummary <==> opts.verbose >= 1
    ensures r.basePath == opts.basePath
    ensures r.operationMode == (if opts.run then CommandLine.RUN else if opts.dryRun then CommandLine.DRY_RUN else s.operationMode)
    ensures Counters(r) == Counters(s)
    ensures opts.icons ==>
      && r.renameArrow == ICON_ARROW && r.errorIcon == ERROR_ICON
      && r.fileIcon == FILE_ICON && r.dirIcon == DIR_ICON && r.symlinkIcon == SYMLINK_ICON
    ensures !opts.icons ==>
      && r.renameArrow == s.renameArrow && r.errorIcon == s.errorIcon
      && r.fileIcon == s.fileIcon && r.dirIcon == s.dirIcon && r.symlinkIcon == s.symlinkIcon
  {
    var shown := s.(
      showRenames := opts.verbose >= 2,
      showSummary := opts.verbose >= 1,
      basePath := opts.basePath,
      operationMode := if opts.run then CommandLine.RUN else if opts.dryRun then CommandLine.DRY_RUN else s.operationMode);
    if opts.icons then
      shown.(renameArrow := ICON_ARROW, errorIcon := ERROR_ICON, fileIcon := FILE_ICON,
             dirIcon := DIR_ICON, symlinkIcon := SYMLINK_ICON)
    else shown
  }

  /** Listing the renames implies showing the summary. */
  lemma RenamesImplySummary(s: Stats, opts: CommandLine.Cli)
    ensures SetCliOpts(s, opts).showRenames ==> SetCliOpts(s, opts).showSummary
  {
  }

  /**
   * After the options have been normalised, a dry run always shows the
   * summary, and the mode names the one flag that is set.
   */
  lemma NormalisedOptions(s: Stats, opts: CommandLine.Cli)
    requires CommandLine.Normalised(opts)
    ensures opts.dryRun ==> SetCliOpts(s, opts).showSummary
    ensures SetCliOpts(s, opts).operationMode == (if opts.run then CommandLine.RUN else CommandLine.DRY_RUN)
  {
  }

  /** `Stats::error`: counted only when the summary is shown. */
  function Error(s: Stats): (r: Stats)
    ensures r.errors == s.errors + (if s.showSummary then 1 else 0)
    ensures r == s.(errors := r.errors)
  {
    if s.showSummary then s.(errors := s.errors + 1) else s
  }

  /**
   * `Stats::rename`: with the summary shown, the counter of the entry's kind
   * goes up by one; an entry of another kind, or no summary, changes nothing.
   */
  function Rename(s: Stats, kind: FileKind): (r: Stats)
    ensures r.errors == s.errors
    ensures !s.showSummary || kind.OtherKind? ==> r == s
    ensures r.renamedFiles == s.renamedFiles + (if s.showSummary && kind.RegularFile? then 1 else 0)
    ensures r.renamedDirectories == s.renamedDirectories + (if s.showSummary && kind.Directory? then 1 else 0)
    ensures r.renamedSymlinks == s.renamedSymlinks + (if s.showSummary && kind.Symlink? then 1 else 0)
    ensures r == s.(renamedFiles := r.renamedFiles, renamedDirectories := r.renamedDirectories,
                    renamedSymlinks := r.renamedSymlinks)
  {
    if !s.showSummary then s
    else
      match kind
      case RegularFile => s.(renamedFiles := s.renamedFiles + 1)
      case Directory => s.(renamedDirectories := s.renamedDirectories + 1)
      case Symlink => s.(renamedSymlinks := s.renamedSymlinks + 1)
      case OtherKind => s
  }

  /** What happens during a run: an error, or a rename of an entry of some kind. */
  datatype Event = Failed | Renamed(kind: FileKind)

  /** The statistics after recording the events in order. */
  function Record(s: Stats, events: seq<Event>): Stats
    decreases |events|
  {
    if events == [] then s
    else
      var e := events[|events| - 1];
      var before := Record(s, events[..|events| - 1]);
      if e.Failed? then Error(before) else Rename(before, e.kind)
  }

  /** How many of the events are of the given shape. */
  function CountErrors(events: seq<Event>): nat {
    if events == [] then 0 else (if events[0].Failed? then 1 else 0) + CountErrors(events[1..])
  }

  function CountRenames(events: seq<Event>, kind: FileKind): nat {
    if events == [] then 0 else (if events[0] == Renamed(kind) then 1 else 0) + CountRenames(events[1..], kind)
  }

  lemma {:induction false} CountSnoc(events: seq<Event>, e: Event)
    ensures CountErrors(events + [e]) == CountErrors(events) + (if e.Failed? then 1 else 0)
    ensures forall k: FileKind :: CountRenames(events + [e], k) == CountRenames(events, k) + (if e == Renamed(k) then 1 else 0)
    decreases |events|
  {
    if events == [] {
      assert events + [e] == [e];
    } else {
      assert (events + [e])[1..] == events[1..] + [e];
      CountSnoc(events[1..], e);
    }
  }

  /**
   * With the summary shown, each counter ends up raised by exactly the
   * number of events of its kind; without it, nothing is counted at all.
   * The flags, the mode, the path and the icons never change.
   */
  lemma {:induction false} RecordCounts(s: Stats, events: seq<Event>)
    ensures var r := Record(s, events);
      var n := if s.showSummary then 1 else 0;
      && r.errors == s.errors + n * CountErrors(events)
      && r.renamedFiles == s.renamedFiles + n * CountRenames(events, RegularFile)
      && r.renamedDirectories == s.renamedDirectories + n * CountRenames(events, Directory)
      && r.renamedSymlinks == s.renamedSymlinks + n * CountRenames(events, Symlink)
      && r == s.(errors := r.errors, renamedFiles := r.renamedFiles,
                 renamedDirectories := r.renamedDirectories, renamedSymlinks := r.renamedSymlinks)
    decreases |events|
  {
    if events != [] {
      var init := events[..|events| - 1];
      var e := events[|events| - 1];
      assert events == init + [e];
      RecordCounts(s, init);
      CountSnoc(init, e);
    }
  }

  /**
   * `Stats::has_output`: an error was counted, or renames were listed and
   * at least one was counted.
   */
  predicate HasOutput(s: Stats)
    ensures HasOutput(s) <==>
      || s.errors != 0
      || (s.showRenames && (s.renamedFiles != 0 || s.renamedDirectories != 0 || s.renamedSymlinks != 0))
  {
    s.errors != 0 || (s.showRenames && s.renamedFiles + s.renamedDirectories + s.renamedSymlinks != 0)
  }

  /** The row shown when nothing was counted. */
  const NOTHING_ROW: Row := Row("Actions", 0)

  /** Every counter's row, in the order the summary lists them. */
  function CounterRows(s: Stats): (rows: seq<Row>)
    ensures |rows| == 4
    ensures forall i :: 0 <= i < 4 ==> rows[i].count == Counters(s)[i] && Rank(rows[i].name) == i
  {
    [Row("Errors", s.errors), Row("Files", s.renamedFiles),
     Row("Directories", s.renamedDirectories), Row("Symlinks", s.renamedSymlinks)]
  }

  /** Where a row's label stands in the fixed order; 4 for the "Actions" row. */
  function Rank(name: string): nat {
    if name == "Errors" then 0
    else if name == "Files" then 1
    else if name == "Directories" then 2
    else if name == "Symlinks" then 3
    else 4
  }

  /** The rows with a count that is not zero, in their order. */
  function NonZero(rows: seq<Row>): seq<Row> {
    if rows == [] then []
    else (if rows[0].count != 0 then [rows[0]] else []) + NonZero(rows[1..])
  }

  /**
   * The rows of the summary table in `Stats::print_summary`: none when the
   * summary is not shown; otherwise one per counter that is not zero, or the
   * single "Actions 0" row when all are zero.
   */
  function SummaryRows(s: Stats): (r: Option<seq<Row>>)
    ensures r.None? <==> !s.showSummary
    ensures r.Some? ==> |r.value| >= 1
  {
    if !s.showSummary then None
    else
      var rows := NonZero(CounterRows(s));
      Some(if rows == [] then [NOTHING_ROW] else rows)
  }

  /** A row is kept exactly when it is one of the rows and its count is not zero. */
  lemma {:induction false} NonZeroMembers(rows: seq<Row>)
    ensures forall x :: x in NonZero(rows) <==> x in rows && x.count != 0
    decreases |rows|
  {
    if rows != [] {
      NonZeroMembers(rows[1..]);
      assert rows == [rows[0]] + rows[1..];
    }
  }

  /** The rows are listed with strictly increasing rank. */
  predicate Ranked(rows: seq<Row>) {
    forall i, j :: 0 <= i < j < |rows| ==> Rank(rows[i].name) < Rank(rows[j].name)
  }

  /** Dropping rows keeps the others in their order. */
  lemma {:induction false} NonZeroRanked(rows: seq<Row>)
    requires Ranked(rows)
    ensures Ranked(NonZero(rows))
    decreases |rows|
  {
    if rows != [] {
      assert Ranked(rows[1..]);
      NonZeroRanked(rows[1..]);
      NonZeroMembers(rows[1..]);
      var rest := NonZero(rows[1..]);
      forall j | 0 <= j < |rest|
        ensures Rank(rows[0].name) < Rank(rest[j].name)
      {
        assert rest[j] in rows[1..];
        var k :| 0 <= k < |rows[1..]| && rows[1..][k] == rest[j];
        assert rows[k + 1] == rest[j];
      }
    }
  }

  /**
   * With the summary shown, the table lists exactly the counters that are
   * not zero, each with its own count, in the order Errors, Files,
   * Directories, Symlinks; it is the single "Actions 0" row exactly when
   * every counter is zero.
   */
  lemma SummaryRowsExactly(s: Stats)
    requires s.showSummary
    ensures var rows := SummaryRows(s).value;
      && ((forall i :: 0 <= i < 4 ==> Counters(s)[i] == 0) <==> rows == [NOTHING_ROW])
      && (rows != [NOTHING_ROW] ==>
            && Ranked(rows)
            && forall x :: x in rows <==> x in CounterRows(s) && x.count != 0)
  {
    var all := CounterRows(s);
    NonZeroMembers(all);
    NonZeroRanked(all);
    var rows := NonZero(all);
    if rows == [] {
      forall i | 0 <= i < 4
        ensures Counters(s)[i] == 0
      {
        assert all[i] in all;
      }
    } else {
      assert rows[0] in all;
      assert Rank(rows[0].name) < 4;
    }
  }

  /**
   * With renames listed, something was printed before the summary exactly
   * when the table shows a counted row rather than "Actions 0".
   */
  lemma HasOutputMatchesRows(s: Stats)
    requires s.showRenames && s.showSummary
    ensures HasOutput(s) <==> SummaryRows(s).value != [NOTHING_ROW]
  {
    SummaryRowsExactly(s);
    var c := Counters(s);
    assert c[0] == s.errors && c[1] == s.renamedFiles && c[2] == s.renamedDirectories && c[3] == s.renamedSymlinks;
  }

  /** A fresh `Stats` prints nothing before its summary, whose table is the single "Actions 0" row. */
  lemma NewShowsNothing(opts: CommandLine.Cli)
    ensures !HasOutput(New())
    ensures var s := SetCliOpts(New(), opts);
      && !HasOutput(s)
      && SummaryRows(s) == (if opts.verbose >= 1 then Some([NOTHING_ROW]) else None)
  {
    var s := SetCliOpts(New(), opts);
    if s.showSummary {
      SummaryRowsExactly(s);
    }
  }
}
