# frs core in Dafny

This project models the core of `frs`, a command-line tool that finds and renames files. Three parts are covered:

- **The select-map stream combinator.** The benchmarks and the tests use it to merge nested streams of numbers. Its primary stream yields items. Each item is mapped by a closure `f` to a future. The future may resolve to a secondary stream. The combinator yields the items of the primary stream and of every secondary stream until all of them are exhausted. Both versions are modelled: the current one (`src/utils/select_map.rs`) and the earlier one (`src/select_map.rs`). The earlier one never removes an exhausted secondary stream.
- **Option normalisation after parsing.** This is `Cli::post_automations`: it picks the operation mode (run or dry run) from the flags and the `FRS_DEFAULT_OP` environment variable, raises the verbosity of dry runs, and selects the default file types.
- **Run statistics and the `try_wrap_err!` macro.** The statistics are the display flags, the error and rename counters, the "has output" test and the rows of the summary table. The macro is for functions that return `Option<Result<_, _>>`, such as the helper in its tests. It makes such a function return `Some(Err(_))` early.

Modules:

- `Async` (`async.dfy`) models `Poll` and `Fuse`. A poll is a pair `Polled(report, after)`: what the inner stream answers and its state afterwards. A fused stream answers `Ready(None)` forever once it has ended.
- `SelectMapCore` (`select_map_core.dfy`) holds the combinator's state and the pass over the pending futures. Both versions share that pass.
- `SelectMap` and `LegacySelectMap` hold the two `poll_next` functions and what they amount to.
  - `poll_next` is a function of the state, `f` and an `Oracle`.
  - The oracle lists what the primary stream, each pending future and each secondary stream report during that one call. This replaces the async runtime.
- `IndexRemoval` proves an equivalence. The source collects positions and then removes them with `Vec::remove` in reverse order. That gives the same result as filtering the list with a keep-mask.
- `SelectMapDrain` gives concrete, always-ready streams: iterators, and select-maps nested in select-maps.
  - It proves that collecting such a stream yields exactly its content, as a multiset.
  - `SelectMapDrainExamples` applies this to the streams built by the test helpers in `test-utils/select_map.rs`.
- `CommandLine`, `Statistics` and `ErrorHandler` model `src/cli.rs`, `src/stats.rs` and `src/utils/error_handler.rs`.

## Model

| member | source | states |
|---|---|---|
| SelectMapCore.New | src/utils/select_map.rs:20-26 | `select_map` fuses the primary stream and starts with no pending future and no secondary stream |
| SelectMapCore.ScanPending | src/utils/select_map.rs:64-76 | after the first `n` futures, the collected positions are ascending and are exactly those of futures that were ready; the streams are the resolved ones in order; a pending future clears `all_done` |
| SelectMapCore.PendingPassOf | src/utils/select_map.rs:64-76 | the whole pass collects exactly the positions of non-pending futures, the resolved streams in order, and whether any future was pending |
| SelectMapCore.RemainingFutures | src/utils/select_map.rs:77-79 | removing the collected positions in reverse leaves exactly the still-pending futures, in their original order |
| SelectMapCore.ResolvedStreamsSnoc | src/utils/select_map.rs:69-73 | one more future adds its stream at the end when it resolved to `Some`, nothing otherwise |
| IndexRemoval.RemoveAt | src/utils/select_map.rs:78 | `Vec::remove` drops one element and shifts the later ones down by one |
| IndexRemoval.RemoveInReverse | src/utils/select_map.rs:77-79 | the reverse-order removal loops as written: each listed position removed, last first, leaving `len` minus the number of listed positions; which elements remain is stated by `IndexRemoval.RemoveInReverseIsKeep` and `IndexRemoval.RemoveInReverseFilters` |
| IndexRemoval.RemoveInReverseIsKeep | src/utils/select_map.rs:77-79 | removing the dropped positions last-first equals keeping the masked elements in order |
| IndexRemoval.RemoveInReverseFilters | src/utils/select_map.rs:89-93 | reverse removal of any ascending list of valid positions equals filtering out exactly those positions |
| IndexRemoval.RemoveListed | src/utils/select_map.rs:89-93 | the removal loop leaves exactly the elements whose position was not listed, one fewer per listed position |
| IndexRemoval.SameIndicesAreEqual | src/utils/select_map.rs:70-73 | supporting lemma: two ascending position lists with the same members are equal; used to identify the positions the scans collect with `Dropped` |
| SelectMap.ScanSecondaries | src/utils/select_map.rs:81-88 | the loop yields iff some stream yields, and then returns the first such stream's item with only the streams up to it polled; otherwise it records exactly the exhausted positions, ascending, and whether any stream was pending |
| SelectMap.PollNext | src/utils/select_map.rs:53-62 | the fused primary stream is polled exactly once per call |
| SelectMap.PrimaryItemReturned | src/utils/select_map.rs:55-59 | a primary item is returned at once; `f(item)` is queued at the end of the pending list; no secondary stream is touched |
| SelectMap.PendingFuturesKeptInOrder | src/utils/select_map.rs:64-79 | without a primary item, exactly the still-pending futures stay queued, in order |
| SelectMap.ResolvedStreamPolledAtOnce | src/utils/select_map.rs:69-84 | a stream resolved in this call is appended, fused, after the old secondaries and polled in the same call; if it is the first to yield, its item is returned and it stays in the list, moved on by one item |
| SelectMap.FirstSecondaryWins | src/utils/select_map.rs:82-84 | the first yielding secondary stream in list order supplies the item; streams after it are not polled; nothing is removed |
| SelectMap.EndedSecondariesRemoved | src/utils/select_map.rs:85-93 | when no secondary yields, exactly the streams that reported exhaustion are removed, the rest keep their order, and none left has ended |
| SelectMap.LiveKeptNotDone | src/utils/select_map.rs:89-93 | the streams kept after removal have not ended |
| SelectMap.EndedAreDropped | src/utils/select_map.rs:85 | the recorded positions are exactly those of the exhausted streams |
| SelectMap.TerminalExactly | src/utils/select_map.rs:95-98 | `Ready(None)` iff the primary stream is exhausted, no future is pending and every secondary reports exhaustion; an item iff the primary or some secondary yields |
| SelectMap.TerminalLeavesNothing | src/utils/select_map.rs:77-98 | after `Ready(None)` the pending and secondary lists are empty and the combinator is terminated |
| SelectMap.TerminalNoPending | src/utils/select_map.rs:60-79 | after `Ready(None)` no future is queued and the primary stream has ended |
| SelectMap.TerminalNoActive | src/utils/select_map.rs:85-93 | after `Ready(None)` no secondary stream is left |
| SelectMap.EndedSecondariesAllRemoved | src/utils/select_map.rs:85-93 | when every secondary reports exhaustion, all of them are removed |
| SelectMapCore.IsTerminated | src/utils/select_map.rs:121-128 | terminated means the primary stream has ended, no future is pending and every secondary stream has ended; what follows from it is stated by `SelectMap.TerminatedStaysTerminated` and `SelectMap.SizeHintOfTerminated` |
| SelectMap.TerminatedStaysTerminated | src/utils/select_map.rs:121-128 | a combinator for which `is_terminated` holds answers `Ready(None)` to any further poll and stays terminated |
| SelectMap.NewIsLazy | src/utils/select_map.rs:20-26 | a new combinator is not terminated; its first poll only consults the primary stream |
| SelectMap.SaturatingAdd | src/utils/select_map.rs:103 | `saturating_add` is the sum when it fits in `usize` and `usize::MAX` otherwise |
| SelectMap.FusedLower | src/utils/select_map.rs:103-106 | an ended fused stream's lower bound is zero; a live one reports its inner stream's |
| SelectMap.ActiveLowers | src/utils/select_map.rs:104-106 | one lower bound per secondary stream, taken through its `Fuse` |
| SelectMap.SizeHintOf | src/utils/select_map.rs:101-111 | `size_hint` as written: the primary's fused lower bound saturating-added to the sum of the secondaries' fused lower bounds, with no upper bound; its properties are stated by `SelectMap.SizeHintBounds` and `SelectMap.SizeHintOfTerminated` |
| SelectMap.SizeHintBounds | src/utils/select_map.rs:101-111 | no upper bound; the lower bound dominates the live primary and each live secondary; it is the exact sum when that fits in `usize` and `usize::MAX` when it does not; pending futures do not count |
| SelectMap.SizeHintOfTerminated | src/utils/select_map.rs:101-111 | a terminated combinator's size hint is `(0, None)` |
| SelectMap.SumAtLeastEach | src/utils/select_map.rs:104-107 | supporting lemma for `SizeHintBounds`: a sum of naturals is at least each term |
| SelectMap.SumOfZeros | src/utils/select_map.rs:104-107 | supporting lemma for `SizeHintOfTerminated`: a sum of zeros is zero |
| LegacySelectMap.ScanSecondaries | src/select_map.rs:75-81 | as in the current version, but an exhausted stream is only passed over |
| LegacySelectMap.PollNext | src/select_map.rs:48-57 | the fused primary stream is polled exactly once per call |
| LegacySelectMap.PrimaryItemReturned | src/select_map.rs:50-54 | a primary item is returned at once with `f(item)` queued |
| LegacySelectMap.PendingPassResolves | src/select_map.rs:58-73 | exactly the pending futures stay queued, in order, and the resolved streams are appended, fused and in order |
| LegacySelectMap.FirstSecondaryWins | src/select_map.rs:75-77 | the first yielding secondary stream in list order supplies the item; later ones are not polled |
| LegacySelectMap.SecondariesOnlyGrow | src/select_map.rs:75-81 | no secondary stream is ever removed: the list only grows, and an ended stream stays unchanged in place |
| LegacySelectMap.TerminalExactly | src/select_map.rs:82-85 | `Ready(None)` iff everything reports exhaustion; an item iff some source yields |
| LegacySelectMap.TerminalRepeats | src/select_map.rs:48-85 | after `Ready(None)` every secondary has ended but is kept; the next poll repeats `Ready(None)` and changes nothing |
| LegacySelectMap.TerminatedRepeats | src/select_map.rs:48-85 | on a terminated combinator every poll answers `Ready(None)` and changes nothing |
| SelectMapDrain.Range | test-utils/select_map.rs:8 | `a..=b` has `b - a + 1` elements, or none |
| SelectMapDrain.PollIter | test-utils/select_map.rs:8 | `stream::iter` yields its next element or reports exhaustion |
| SelectMapDrain.PollOfMerge | src/utils/select_map.rs:53-99 | polling a concrete select-map is one `poll_next` with the reports its sources give |
| SelectMapDrain.ReportsFromScanned | src/utils/select_map.rs:81-88 | the reports handed to the second loop are what each scanned secondary stream answers |
| SelectMapDrain.ResolvedFromPending | src/utils/select_map.rs:69-71 | every stream resolved in a call comes from one of the pending futures |
| SelectMapDrain.ContentOfMerge | src/utils/select_map.rs:35-41 | the items a select-map still holds are those of the primary, of every pending future's stream and of every secondary stream |
| SelectMapDrain.ResolvedContent | src/utils/select_map.rs:64-76 | resolving the pending futures moves their content into the new secondary streams without loss |
| SelectMapDrain.PrimaryItemContent | src/utils/select_map.rs:55-59 | taking a primary item removes exactly that item and adds `f(item)`'s content as a pending future |
| SelectMapDrain.ExhaustedPrimaryContent | src/utils/select_map.rs:60-79 | with the primary exhausted, the content is that of the scanned secondary streams |
| SelectMapDrain.ExhaustedPrimaryStep | src/utils/select_map.rs:60-79 | with the primary exhausted, a poll of always-ready futures leaves the primary ended and nothing pending |
| SelectMapDrain.SecondaryItemContent | src/utils/select_map.rs:81-84 | a secondary item is removed from the content and nothing else changes |
| SelectMapDrain.SecondariesEndedContent | src/utils/select_map.rs:85-98 | with the primary exhausted and no secondary yielding, the answer is `Ready(None)`, and nothing was or is left to produce |
| SelectMapDrain.MergePollsWell | src/utils/select_map.rs:53-99 | an always-ready select-map never answers `Pending`; it yields an item from its content or reports exhaustion when the content is empty |
| SelectMapDrain.AlwaysPollsWell | src/utils/select_map.rs:53-99 | the same holds for every concrete stream, nested select-maps included |
| SelectMapDrain.Drain | test-utils/select_map.rs:18-19 | `collect` gathers every held item exactly as often as it is held, and nothing else |
| SelectMapDrainExamples.DrainWithoutBranches | src/utils/select_map_test.rs:6-11 | with every future resolving to `None`, the sorted output is `1..=9` |
| SelectMapDrainExamples.DrainDecades | test-utils/select_map.rs:7-20 | mapping `k` to `10k..=10k+9`, the sorted output is `1..=99` |
| SelectMapDrainExamples.DrainDecadesUpTo | test-utils/select_map.rs:22-38 | mapping only `k <= limit` to a decade, the sorted output is `1..=10 limit + 9`, which is `1..=49` for the helper's limit 4 |
| SelectMapDrainExamples.DrainNestedDecades | test-utils/select_map.rs:40-63 | a nested select-map for every item gives `1..=999` |
| SelectMapDrainExamples.SortedDrain | src/utils/select_map_test.rs:8-10 | sorting the collected items gives exactly the expected range once the content is known |
| SelectMapDrainExamples.SortedUnique | src/utils/select_map_test.rs:9-10 | supporting lemma for `SortedDrain`: two sorted sequences with the same elements are equal |
| SelectMapDrainExamples.RangeIsSpan | src/utils/select_map_test.rs:10 | `a..=b` holds each integer from `a` to `b` once |
| CommandLine.ToUpperAscii | src/cli.rs:91 | upper-casing keeps the length, maps each lower-case ASCII letter to its capital and leaves every other character alone |
| CommandLine.RequestedMode | src/cli.rs:89-92 | the upper-cased variable, or `DRY-RUN` when it is unset |
| CommandLine.SetOperationMode | src/cli.rs:83-112 | `MultipleOperationModes` iff both flags are set; on success exactly one mode flag is set, a flag given on the command line is kept, and nothing else changes |
| CommandLine.UnknownModeRejected | src/cli.rs:104-109 | with at most one flag set, the call fails iff the value is neither `RUN` nor `DRY-RUN`, and the error carries the variable name and the upper-cased value |
| CommandLine.ExplicitModeWins | src/cli.rs:94-103 | a mode flag given on the command line wins over the variable |
| CommandLine.DefaultModeApplies | src/cli.rs:89-103 | without a mode flag the variable's mode is set, and dry run when it is unset |
| CommandLine.ModeIgnoresCase | src/cli.rs:91 | the variable's value is matched regardless of letter case |
| CommandLine.ToUpperIdempotent | src/cli.rs:91 | upper-casing twice equals upper-casing once |
| CommandLine.SetVerbosity | src/cli.rs:115-117 | verbosity is never lowered; a dry run gets at least 1; only a dry run at 0 is raised, to exactly 1; nothing else changes |
| CommandLine.SetVerbosityIdempotent | src/cli.rs:115-117 | applying it twice equals applying it once |
| CommandLine.SetTypes | src/cli.rs:120-125 | a type chosen on the command line leaves all three flags as they are; with none chosen, files and symlinks are selected, and directories iff the tree is not traversed |
| CommandLine.SetTypesIdempotent | src/cli.rs:120-125 | applying it twice equals applying it once |
| CommandLine.PostAutomations | src/cli.rs:75-80 | a mode error is returned before the other steps; otherwise the three steps run in order |
| CommandLine.PostAutomationsNormalises | src/cli.rs:75-80 | success yields exactly one mode, dry-run verbosity at least 1 and some file type; patterns and path are kept |
| CommandLine.NormalisedIsFixed | src/cli.rs:75-80 | already-normalised options pass through unchanged |
| CommandLine.PostAutomationsIdempotent | src/cli.rs:75-80 | normalising twice equals normalising once |
| Statistics.New | src/stats.rs:31-47 | nothing counted or shown, the plain arrow, no icons, empty mode and path |
| Statistics.SetCliOpts | src/stats.rs:49-65 | renames are listed iff verbosity >= 2 and the summary is shown iff >= 1; the mode follows the flags and is otherwise kept; icons replace the plain strings only when enabled; counters are untouched |
| Statistics.RenamesImplySummary | src/stats.rs:50-51 | listing renames implies showing the summary |
| Statistics.NormalisedOptions | src/stats.rs:50-57 | after normalisation a dry run always shows the summary, and the mode names the one flag set |
| Statistics.Error | src/stats.rs:67-72 | the error counter rises by one iff the summary is shown; nothing else changes |
| Statistics.Rename | src/stats.rs:74-93 | with the summary shown, exactly the counter for the entry's kind rises by one; otherwise, or for another kind, nothing changes |
| Statistics.RecordCounts | src/stats.rs:67-93 | over any sequence of events each counter rises by exactly the number of events of its kind when the summary is shown, and by zero otherwise; flags, icons, mode and path are kept |
| Statistics.CountSnoc | src/stats.rs:67-93 | one more event adds one to exactly its own count |
| Statistics.CounterRows | src/stats.rs:123-163 | one row per counter, with its count, in the order Errors, Files, Directories, Symlinks |
| Statistics.SummaryRows | src/stats.rs:104-166 | no table when the summary is not shown, otherwise at least one row |
| Statistics.SummaryRowsExactly | src/stats.rs:123-166 | the table lists exactly the non-zero counters in the fixed order, and is the single `Actions 0` row iff every counter is zero |
| Statistics.NonZeroMembers | src/stats.rs:124-163 | a row is listed iff it is a counter row with a non-zero count |
| Statistics.NonZeroRanked | src/stats.rs:124-163 | skipping rows keeps the others in their fixed order |
| Statistics.HasOutput | src/stats.rs:95-102 | `has_output` holds iff an error was counted, or renames are listed and some rename counter is not zero |
| Statistics.HasOutputMatchesRows | src/stats.rs:95-102 | with renames listed, `has_output` holds iff the table shows a counted row rather than `Actions 0` |
| Statistics.NewShowsNothing | src/stats.rs:31-47 | a fresh `Stats` has no output; its summary, when shown, is the single `Actions 0` row |
| ErrorHandler.TryWrapErr | src/utils/error_handler.rs:6-13 | an `Ok` value lets the caller continue with that value; an `Err` makes it return `Some(Err(error.into()))` at once |
| ErrorHandler.Then | src/utils/error_handler.rs:8-11 | code after the macro runs only on `Ok`, with the unwrapped value; on `Err` the converted error is returned instead |
| ErrorHandler.Widen | src/utils/error_handler_test.rs:3 | the `u16`-to-`u32` `From` conversion keeps the number |
| ErrorHandler.TryWrapErrOrNone | src/utils/error_handler_test.rs:3-6 | the helper returns `None` iff its argument is `Ok`, and otherwise the widened error |
| ErrorHandler.ErrorValueKept | src/utils/error_handler_test.rs:13-16 | an error comes back with the same number |
| ErrorHandler.TestedCases | src/utils/error_handler_test.rs:8-16 | `Ok(42)` gives `None`; `Err(42)` gives `Some(Err(42))` |

## Left out

- Wakers, `Context` and scheduling are not modelled. Each `poll_next` call is given what its sources report, and the concrete streams in `SelectMapDrain` are always ready. The timed test helpers differ only in their sleeps, so the balanced and unbalanced `1..=999` streams have the same content as `collected_999_stream`.
- Pinning, `Unpin` bounds and the boxing of futures carry no behaviour and are not modelled. A future is represented by what it resolves to.
- The capacity that `select_map` reserves (`Vec::with_capacity` from the primary's size hint) is not observable and is left out. The current and the earlier `select_map` are therefore both `SelectMapCore.New`.
- SelectMap.PollNext: its own contract states only what happens to the primary stream. What happens to the queue, the secondary list and the answer is stated by the lemmas that follow it in the table.
- LegacySelectMap.PollNext: likewise.
- SelectMap.SizeHintOf requires the sum of the secondary streams' lower bounds to fit in `usize`. On overflow, `Iterator::sum` panics in debug builds and wraps in release builds, and neither is modelled.
- SelectMap.SizeHintBounds covers only the lower bound of each inner stream's size hint. Upper bounds are never reported.
- The `u16` item type of the test helpers is modelled as `int`. The largest item, 999, cannot overflow.
- The helpers named in `src/utils/select_map_test.rs` (`collected_eliminated_single_recursive_stream` and the others, taking an argument) do not exist in `test-utils/select_map.rs`. The model follows the helpers that do exist, with a fixed primary stream `1..=9`. No helper there maps every item to `None`: `NoBranch` and `DrainWithoutBranches` are this model's reading of the missing `collected_eliminated_single_recursive_stream`, taken from its name and the test's `1..=9` expectation. For `stream_1_to_49`, the test expects `1..=59`, but `collected_49_stream` maps only items up to 4 to a decade. That gives `1..=49`, which is what `DrainDecadesUpTo(4, _)` proves. The `1..=59` expectation is not modelled, since the helper it calls is not available.
- CommandLine.ToUpperAscii: upper-cases ASCII letters only. `str::to_uppercase` also maps other Unicode letters, some to several characters. Only the ASCII strings `RUN` and `DRY-RUN` are accepted either way.
- Parsing of the command line (`structopt`) is not modelled. A `Cli` value is what the parser produced, and the environment variable is a parameter (`None` when unset or not Unicode).
- The `u8` verbosity is a `newtype` with its real range. Only `max` is applied to it, so it cannot overflow.
- Statistics.Error and Statistics.Rename: the counters are `Cell<u32>` in the source and unbounded here. Overflow after four billion events, and the `u32` sum in `has_output`, are not modelled.
- Statistics.HasOutput: a rename of an entry that is neither a file, a directory nor a symlink is printed when renames are listed (lines 75-81 of `src/stats.rs`) but counted nowhere, so `has_output` can be false although a rename line was printed. The model keeps this: `Rename` leaves the statistics unchanged for such an entry.
- Statistics: printing is not modelled. That covers the error messages, the rename lines, the colours, the `cli_table` layout and `human_format`'s number formatting. The summary is modelled by which rows it shows and their counts. The icons and the error raised when printing the table fails are left out.
- `src/fs.rs`, `src/replace.rs`, `src/main.rs`, `src/lib.rs` and the benchmarks are not part of this model: the directory walk, the pattern replacement and the program's wiring lie outside this core.
