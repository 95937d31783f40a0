/**
 * Draining the select-map combinator when every source is always ready.
 *
 * The test helpers build a primary stream `stream::iter(1..=9)` and map each
 * primary item `k` to a future that resolves to nothing, to
 * `stream::iter(10k..=10k+9)`, or to another select-map over that range.
 * Their sleeps only change timing; here every future is ready at its first
 * poll and every `stream::iter` yields at once. Such streams are modelled
 * concretely (`Stream`), the combinator's own `PollNext` drives the nested
 * ones, and draining collects every item that the primary items and their
 * branches stand for, each exactly once.
 */
module SelectMapDrain {
  import opened Types
  import opened Async
  import opened IndexRemoval
  import opened SelectMapCore
  import opened SelectMap

  /** `a..=b` */
  function Range(a: int, b: int): (r: seq<int>)
    ensures |r| == if a <= b then b - a + 1 else 0
  {
    if a <= b then seq(b - a + 1, i => a + i) else []
  }

  /** The shapes of closure the test helpers pass to `select_map`. */
  datatype Branch =
    | NoBranch                    // every item maps to `None`
    | Decade                      // `k` maps to `stream::iter(10k..=10k+9)`
    | DecadeUpTo(limit: int)      // as `Decade` for `k <= limit`, `None` above
    | NestedDecade(inner: Branch) // `k` maps to `stream::iter(10k..=10k+9).select_map(inner)`

  /** A stream whose sources are all always ready. */
  datatype Stream =
    | Iter(items: seq<int>)
    | Merge(state: State<seq<int>, Option<Stream>, Stream>, branch: Branch)

  /** `stream::iter`: the next item, or exhaustion. */
  function PollIter(items: seq<int>): (p: Polled<int, seq<int>>)
    ensures items == [] ==> p == Polled(Ready(None), [])
    ensures items != [] ==> p == Polled(Ready(Some(items[0])), items[1..])
  {
    if items == [] then Polled(Ready(None), []) else Polled(Ready(Some(items[0])), items[1..])
  }

  /** What the future built for item `k` resolves to. */
  function Derive(b: Branch, k: int): Option<Stream> {
    match b
    case NoBranch => None
    case Decade => Some(Iter(Range(10 * k, 10 * k + 9)))
    case DecadeUpTo(limit) => if k > limit then None else Some(Iter(Range(10 * k, 10 * k + 9)))
    case NestedDecade(inner) => Some(Merge(New(Range(10 * k, 10 * k + 9)), inner))
  }

  /** The closure itself; a future is represented by the value it resolves to. */
  function BranchFn(b: Branch): int -> Option<Stream> {
    k => Derive(b, k)
  }

  /** Every pending future resolves at its first poll. */
  function FutureReports(pending: seq<Option<Stream>>): (r: seq<Poll<Option<Stream>>>)
    ensures |r| == |pending|
    ensures forall j :: 0 <= j < |r| ==> r[j] == Ready(pending[j])
  {
    seq(|pending|, j requires 0 <= j < |pending| => Ready(pending[j]))
  }

  /** The streams the pending futures resolve to, in order. */
  function ResolvedOf(pending: seq<Option<Stream>>): seq<Stream> {
    ResolvedStreams(FutureReports(pending))
  }

  /** Every resolved stream is held by some pending future. */
  lemma {:induction false} ResolvedFromPending(pending: seq<Option<Stream>>, j: nat)
    requires j < |ResolvedOf(pending)|
    ensures exists i :: 0 <= i < |pending| && pending[i] == Some(ResolvedOf(pending)[j])
    decreases |pending|
  {
    assert FutureReports(pending)[1..] == FutureReports(pending[1..]);
    if pending[0].Some? && j == 0 {
      assert pending[0] == Some(ResolvedOf(pending)[j]);
    } else {
      var j' := if pending[0].Some? then j - 1 else j;
      ResolvedFromPending(pending[1..], j');
      var i :| 0 <= i < |pending[1..]| && pending[1..][i] == Some(ResolvedOf(pending[1..])[j']);
      assert pending[i + 1] == Some(ResolvedOf(pending)[j]);
    }
  }

  /** The secondary streams the second loop walks in a combinator whose futures all resolve. */
  function ScannedOf(st: State<seq<int>, Option<Stream>, Stream>): seq<Fused<Stream>> {
    st.active + FuseAll(ResolvedOf(st.pending))
  }

  /** One `poll_next` of a combinator, given what its secondary streams report. */
  function MergeStep(st: State<seq<int>, Option<Stream>, Stream>, b: Branch, reports: seq<Polled<int, Stream>>): Polled<int, Stream>
    requires |reports| == |ScannedOf(st)|
  {
    var o := Oracle(PollIter(st.primary.inner), FutureReports(st.pending), reports);
    var r := PollNext(st, BranchFn(b), o);
    Polled(r.output, Merge(r.next, b))
  }

  /** Polling a stream: what it reports and what it becomes. */
  function Poll(s: Stream): Polled<int, Stream>
    decreases s, 1
  {
    match s
    case Iter(items) =>
      var q := PollIter(items);
      Polled(q.report, Iter(q.after))
    case Merge(st, b) =>
      MergeStep(st, b, ReportsFrom(st, 0))
  }

  /** What the secondary streams from position `k` on report when the second loop polls them. */
  function ReportsFrom(st: State<seq<int>, Option<Stream>, Stream>, k: nat): (r: seq<Polled<int, Stream>>)
    requires k <= |ScannedOf(st)|
    ensures |r| == |ScannedOf(st)| - k
    decreases st, |ScannedOf(st)| - k
  {
    var n := |st.active|;
    if k == |ScannedOf(st)| then []
    else if k < n then [Poll(st.active[k].inner)] + ReportsFrom(st, k + 1)
    else
      ResolvedFromPending(st.pending, k - n);
      [Poll(ResolvedOf(st.pending)[k - n])] + ReportsFrom(st, k + 1)
  }

  /** What each stream of `ss` reports when polled. */
  function ReportsOf(ss: seq<Fused<Stream>>): (r: seq<Polled<int, Stream>>)
    ensures |r| == |ss|
    ensures forall j :: 0 <= j < |ss| ==> r[j] == Poll(ss[j].inner)
  {
    seq(|ss|, j requires 0 <= j < |ss| => Poll(ss[j].inner))
  }

  lemma {:induction false} ReportsFromScanned(st: State<seq<int>, Option<Stream>, Stream>, k: nat)
    requires k <= |ScannedOf(st)|
    ensures ReportsFrom(st, k) == ReportsOf(ScannedOf(st))[k..]
    decreases |ScannedOf(st)| - k
  {
    if k < |ScannedOf(st)| {
      ReportsFromScanned(st, k + 1);
    }
  }

  /** Everything one poll of a combinator with state `st` observes. */
  function OracleOf(st: State<seq<int>, Option<Stream>, Stream>): Oracle<int, seq<int>, Option<Stream>, Stream> {
    Oracle(PollIter(st.primary.inner), FutureReports(st.pending), ReportsOf(ScannedOf(st)))
  }

  /** One poll of a combinator with state `st`. */
  function StepOf(st: State<seq<int>, Option<Stream>, Stream>, b: Branch): (r: Step<int, seq<int>, Option<Stream>, Stream>)
    ensures Fits(st, OracleOf(st))
    ensures ScannedStreams(st, OracleOf(st)) == ScannedOf(st)
    ensures r.next.primary.done <==> st.primary.done || st.primary.inner == []
  {
    PollNext(st, BranchFn(b), OracleOf(st))
  }

  lemma PollOfMerge(st: State<seq<int>, Option<Stream>, Stream>, b: Branch)
    ensures Poll(Merge(st, b)) == Polled(StepOf(st, b).output, Merge(StepOf(st, b).next, b))
  {
    ReportsFromScanned(st, 0);
    assert ReportsOf(ScannedOf(st))[0..] == ReportsOf(ScannedOf(st));
  }

  // ----- What a stream still has to produce -----

  /** The items and, after each, everything its branch will produce. */
  function Expand(items: seq<int>, b: Branch): multiset<int>
    decreases b, |items|
  {
    if items == [] then multiset{}
    else multiset{items[0]} + BranchContent(b, items[0]) + Expand(items[1..], b)
  }

  /** `10k..=10k+9` */
  function DecadeItems(k: int): multiset<int> {
    multiset(Range(10 * k, 10 * k + 9))
  }

  /** Everything the branch of item `k` will produce. */
  function BranchContent(b: Branch, k: int): multiset<int>
    decreases b, 0
  {
    match b
    case NoBranch => multiset{}
    case Decade => DecadeItems(k)
    case DecadeUpTo(limit) => if k > limit then multiset{} else DecadeItems(k)
    case NestedDecade(inner) => Expand(Range(10 * k, 10 * k + 9), inner)
  }

  function Union(ms: seq<multiset<int>>): multiset<int> {
    if ms == [] then multiset{} else ms[0] + Union(ms[1..])
  }

  /**
   * Every item a stream will still produce: the rest of an iterator; for a
   * combinator, the primary items left with their branches, the contents of
   * the streams the pending futures hold, and those of the live secondary
   * streams.
   */
  function Content(s: Stream): multiset<int>
    decreases s, 1
  {
    match s
    case Iter(items) => multiset(items)
    case Merge(st, b) => PrimaryContent(st.primary, b) + PendingFrom(st, 0) + ActiveFrom(st, 0)
  }

  /** The contents of the pending futures from position `k` on. */
  function PendingFrom(st: State<seq<int>, Option<Stream>, Stream>, k: nat): multiset<int>
    decreases st, |st.pending| - k
  {
    if k >= |st.pending| then multiset{} else FutureContent(st.pending[k]) + PendingFrom(st, k + 1)
  }

  /** The contents of the live secondary streams from position `k` on. */
  function ActiveFrom(st: State<seq<int>, Option<Stream>, Stream>, k: nat): multiset<int>
    decreases st, |st.active| - k
  {
    if k >= |st.active| then multiset{} else FusedContent(st.active[k]) + ActiveFrom(st, k + 1)
  }

  /** What a pending future will produce: the content of the stream it resolves to, if any. */
  function FutureContent(p: Option<Stream>): multiset<int>
    decreases p
  {
    if p.Some? then Content(p.value) else multiset{}
  }

  /** What a fused stream will produce: nothing once it has ended. */
  function FusedContent(s: Fused<Stream>): multiset<int>
    decreases s
  {
    if s.done then multiset{} else Content(s.inner)
  }

  function FutureContents(ps: seq<Option<Stream>>): (r: seq<multiset<int>>)
    ensures |r| == |ps|
    ensures forall j :: 0 <= j < |ps| ==> r[j] == FutureContent(ps[j])
  {
    seq(|ps|, j requires 0 <= j < |ps| => FutureContent(ps[j]))
  }

  function FusedContents(ss: seq<Fused<Stream>>): (r: seq<multiset<int>>)
    ensures |r| == |ss|
    ensures forall j :: 0 <= j < |ss| ==> r[j] == FusedContent(ss[j])
  {
    seq(|ss|, j requires 0 <= j < |ss| => FusedContent(ss[j]))
  }

  function PendingContent(ps: seq<Option<Stream>>): multiset<int> {
    Union(FutureContents(ps))
  }

  /** What the primary stream will produce: its items, each followed by its branch's content. */
  function PrimaryContent(p: Fused<seq<int>>, b: Branch): multiset<int> {
    if p.done then multiset{} else Expand(p.inner, b)
  }

  lemma {:induction false} PendingFromUnion(st: State<seq<int>, Option<Stream>, Stream>, k: nat)
    requires k <= |st.pending|
    ensures PendingFrom(st, k) == Union(FutureContents(st.pending)[k..])
    decreases |st.pending| - k
  {
    if k < |st.pending| {
      PendingFromUnion(st, k + 1);
      assert FutureContents(st.pending)[k..][1..] == FutureContents(st.pending)[k + 1..];
    }
  }

  lemma {:induction false} ActiveFromUnion(st: State<seq<int>, Option<Stream>, Stream>, k: nat)
    requires k <= |st.active|
    ensures ActiveFrom(st, k) == Union(FusedContents(st.active)[k..])
    decreases |st.active| - k
  {
    if k < |st.active| {
      ActiveFromUnion(st, k + 1);
      assert FusedContents(st.active)[k..][1..] == FusedContents(st.active)[k + 1..];
    }
  }

  lemma ContentOfMerge(st: State<seq<int>, Option<Stream>, Stream>, b: Branch)
    ensures Content(Merge(st, b))
         == PrimaryContent(st.primary, b) + PendingContent(st.pending) + Union(FusedContents(st.active))
  {
    PendingFromUnion(st, 0);
    ActiveFromUnion(st, 0);
    assert FutureContents(st.pending)[0..] == FutureContents(st.pending);
    assert FusedContents(st.active)[0..] == FusedContents(st.active);
  }

  lemma {:induction false} UnionAppend(a: seq<multiset<int>>, b: seq<multiset<int>>)
    ensures Union(a + b) == Union(a) + Union(b)
    decreases |a|
  {
    if a == [] {
      assert a + b == b;
    } else {
      assert (a + b)[0] == a[0];
      assert (a + b)[1..] == a[1..] + b;
      UnionAppend(a[1..], b);
      assert Union(a + b) == a[0] + (Union(a[1..]) + Union(b));
    }
  }

  lemma {:induction false} UnionOfEmpties(ms: seq<multiset<int>>)
    requires forall j :: 0 <= j < |ms| ==> ms[j] == multiset{}
    ensures Union(ms) == multiset{}
    decreases |ms|
  {
    if ms != [] {
      UnionOfEmpties(ms[1..]);
    }
  }

  /** Taking one item out of one member takes it out of the union. */
  lemma {:induction false} UnionTakeOne(a: seq<multiset<int>>, b: seq<multiset<int>>, i: nat, x: int)
    requires |a| == |b| && i < |a|
    requires a[i] == b[i] + multiset{x}
    requires forall j :: 0 <= j < |a| && j != i ==> a[j] == b[j]
    ensures Union(a) == Union(b) + multiset{x}
    decreases |a|
  {
    if i > 0 {
      UnionTakeOne(a[1..], b[1..], i - 1, x);
    } else {
      assert a[1..] == b[1..];
    }
  }

  lemma PendingContentSnoc(ps: seq<Option<Stream>>, p: Option<Stream>)
    ensures PendingContent(ps + [p]) == PendingContent(ps) + FutureContent(p)
  {
    assert FutureContents(ps + [p]) == FutureContents(ps) + [FutureContent(p)];
    UnionAppend(FutureContents(ps), [FutureContent(p)]);
  }

  /** The live streams the futures resolve to hold what the futures held. */
  lemma {:induction false} ResolvedContent(ps: seq<Option<Stream>>)
    ensures Union(FusedContents(FuseAll(ResolvedOf(ps)))) == PendingContent(ps)
    decreases |ps|
  {
    if ps != [] {
      assert FutureReports(ps)[1..] == FutureReports(ps[1..]);
      assert FutureContents(ps)[1..] == FutureContents(ps[1..]);
      ResolvedContent(ps[1..]);
      var rest := ResolvedOf(ps[1..]);
      if ps[0].Some? {
        assert ResolvedOf(ps) == [ps[0].value] + rest;
        FusedContentsCons(ps[0].value, rest);
      } else {
        assert ResolvedOf(ps) == rest;
      }
    }
  }

  lemma FusedContentsCons(s: Stream, rest: seq<Stream>)
    ensures Union(FusedContents(FuseAll([s] + rest))) == Content(s) + Union(FusedContents(FuseAll(rest)))
  {
    assert FusedContents(FuseAll([s] + rest)) == [Content(s)] + FusedContents(FuseAll(rest));
    UnionAppend([Content(s)], FusedContents(FuseAll(rest)));
  }

  /** A future's stream holds exactly what its branch stands for. */
  lemma DeriveContent(b: Branch, k: int)
    ensures FutureContent(Derive(b, k)) == BranchContent(b, k)
  {
    match b
    case NestedDecade(inner) =>
      var st := New<seq<int>, Option<Stream>, Stream>(Range(10 * k, 10 * k + 9));
      ContentOfMerge(st, inner);
      assert FutureContents(st.pending) == [];
      assert FusedContents(st.active) == [];
    case _ =>
  }

  /**
   * An item of the primary stream is returned; it leaves the content, and
   * its branch's content moves into the new pending future.
   */
  lemma PrimaryItemContent(st: State<seq<int>, Option<Stream>, Stream>, b: Branch)
    requires !st.primary.done && st.primary.inner != []
    ensures StepOf(st, b).output == Ready(Some(st.primary.inner[0]))
    ensures Content(Merge(st, b)) == Content(Merge(StepOf(st, b).next, b)) + multiset{st.primary.inner[0]}
  {
    var o := OracleOf(st);
    var k := st.primary.inner[0];
    PrimaryItemReturned(st, BranchFn(b), o);
    var next := StepOf(st, b).next;
    assert next.pending == st.pending + [Derive(b, k)];
    assert PrimaryContent(st.primary, b) == multiset{k} + BranchContent(b, k) + PrimaryContent(next.primary, b);
    ContentOfMerge(st, b);
    ContentOfMerge(next, b);
    PendingContentSnoc(st.pending, Derive(b, k));
    DeriveContent(b, k);
  }

  /**
   * Once the primary stream has no item, everything left is in the secondary
   * streams the second loop walks: the old ones and those the pending
   * futures resolve to now.
   */
  lemma ExhaustedPrimaryContent(st: State<seq<int>, Option<Stream>, Stream>, b: Branch)
    requires st.primary.done || st.primary.inner == []
    ensures ReadyNone(PrimaryReport(st, OracleOf(st)))
    ensures Content(Merge(st, b)) == Union(FusedContents(ScannedOf(st)))
  {
    ContentOfMerge(st, b);
    ResolvedContent(st.pending);
    ScannedContent(st);
  }

  /** The secondary list after a scan holds the old secondaries and the resolved streams. */
  lemma ScannedContent(st: State<seq<int>, Option<Stream>, Stream>)
    ensures Union(FusedContents(ScannedOf(st)))
         == Union(FusedContents(st.active)) + Union(FusedContents(FuseAll(ResolvedOf(st.pending))))
  {
    var resolved := FuseAll(ResolvedOf(st.pending));
    assert FusedContents(ScannedOf(st)) == FusedContents(st.active) + FusedContents(resolved);
    UnionAppend(FusedContents(st.active), FusedContents(resolved));
  }

  /** After such a poll the primary stream has ended and no future is left pending. */
  lemma ExhaustedPrimaryStep(st: State<seq<int>, Option<Stream>, Stream>, b: Branch)
    requires st.primary.done || st.primary.inner == []
    ensures StepOf(st, b).next.primary.done && StepOf(st, b).next.pending == []
  {
    var o := OracleOf(st);
    assert ReadyNone(PrimaryReport(st, o));
    PendingFuturesKeptInOrder(st, BranchFn(b), o);
    KeepNone(st.pending, PendingMask(o.futures));
  }

  /** A combinator with nothing left to start holds only what its secondary list holds. */
  lemma SettledContent(st: State<seq<int>, Option<Stream>, Stream>, b: Branch)
    requires st.primary.done && st.pending == []
    ensures Content(Merge(st, b)) == Union(FusedContents(st.active))
  {
    ContentOfMerge(st, b);
    assert FutureContents(st.pending) == [];
  }

  lemma ExhaustedPrimaryAfter(st: State<seq<int>, Option<Stream>, Stream>, b: Branch)
    requires st.primary.done || st.primary.inner == []
    ensures Content(Merge(StepOf(st, b).next, b)) == Union(FusedContents(StepOf(st, b).next.active))
  {
    ExhaustedPrimaryStep(st, b);
    SettledContent(StepOf(st, b).next, b);
  }

  /** What a poll of `s` promises: never `Pending`; an item taken out of the content; or nothing left. */
  predicate PollsWell(s: Stream) {
    var p := Poll(s);
    && !p.report.Pending?
    && (ReadySome(p.report) ==> Content(s) == Content(p.after) + multiset{p.report.value.value})
    && (ReadyNone(p.report) ==> Content(s) == multiset{} && Content(p.after) == multiset{})
  }

  /** What the `j`-th stream walked by the second loop reports, given that it polls well. */
  lemma ScannedReport(st: State<seq<int>, Option<Stream>, Stream>, j: nat)
    requires j < |ScannedOf(st)| && PollsWell(ScannedOf(st)[j].inner)
    ensures var streams := ScannedOf(st);
      var reports := ReportsOf(streams);
      var report := ReportAt(streams, reports, j);
      && !report.Pending?
      && (ReadyNone(report) ==> FusedContent(streams[j]) == multiset{} && FusedContent(FusedAfter(streams[j], reports[j])) == multiset{})
      && (ReadySome(report) ==>
            FusedContent(streams[j]) == FusedContent(FusedAfter(streams[j], reports[j])) + multiset{report.value.value})
  {
  }

  /** The first secondary stream that yields gives up that item; the streams before it had nothing left. */
  lemma SecondaryItemContent(st: State<seq<int>, Option<Stream>, Stream>, b: Branch, i: nat)
    requires st.primary.done || st.primary.inner == []
    requires forall j :: 0 <= j < |ScannedOf(st)| ==> PollsWell(ScannedOf(st)[j].inner)
    requires FirstToYield(ScannedOf(st), ReportsOf(ScannedOf(st)), i)
    ensures ReadySome(StepOf(st, b).output)
    ensures Content(Merge(st, b)) == Content(Merge(StepOf(st, b).next, b)) + multiset{StepOf(st, b).output.value.value}
  {
    var streams := ScannedOf(st);
    var reports := ReportsOf(streams);
    var o := OracleOf(st);
    ExhaustedPrimaryContent(st, b);
    ExhaustedPrimaryAfter(st, b);
    FirstSecondaryWins(st, BranchFn(b), o, i);
    var polled := PolledUpTo(streams, reports, i + 1);
    var x := ReportAt(streams, reports, i).value.value;
    forall j | 0 <= j < |streams| && j != i
      ensures FusedContents(streams)[j] == FusedContents(polled)[j]
    {
      ScannedReport(st, j);
    }
    ScannedReport(st, i);
    UnionTakeOne(FusedContents(streams), FusedContents(polled), i, x);
  }

  /** When no secondary stream yields, every one has ended and nothing is left. */
  lemma SecondariesEndedContent(st: State<seq<int>, Option<Stream>, Stream>, b: Branch)
    requires st.primary.done || st.primary.inner == []
    requires forall j :: 0 <= j < |ScannedOf(st)| ==> PollsWell(ScannedOf(st)[j].inner)
    requires forall j :: 0 <= j < |ScannedOf(st)| ==> !ReadySome(ReportAt(ScannedOf(st), ReportsOf(ScannedOf(st)), j))
    ensures StepOf(st, b).output == Ready(None)
    ensures Content(Merge(st, b)) == multiset{}
    ensures Content(Merge(StepOf(st, b).next, b)) == multiset{}
  {
    var streams := ScannedOf(st);
    var o := OracleOf(st);
    ExhaustedPrimaryContent(st, b);
    ExhaustedPrimaryAfter(st, b);
    forall j | 0 <= j < |streams|
      ensures FusedContents(streams)[j] == multiset{}
      ensures !ReportAt(streams, o.streams, j).Pending?
    {
      ScannedReport(st, j);
    }
    UnionOfEmpties(FusedContents(streams));
    TerminalExactly(st, BranchFn(b), o);
    TerminalLeavesNothing(st, BranchFn(b), o);
    assert FusedContents(StepOf(st, b).next.active) == [];
  }

  /** Some stream of a non-empty list of yields is the first to yield. */
  lemma {:induction false} SomeFirstToYield<T, S>(streams: seq<Fused<S>>, outs: seq<Polled<T, S>>, n: nat)
    requires |outs| == |streams| && n <= |streams|
    requires exists i :: 0 <= i < n && ReadySome(ReportAt(streams, outs, i))
    ensures exists i :: 0 <= i < n && FirstToYield(streams, outs, i)
    decreases n
  {
    if exists i :: 0 <= i < n - 1 && ReadySome(ReportAt(streams, outs, i)) {
      SomeFirstToYield(streams, outs, n - 1);
    } else {
      assert FirstToYield(streams, outs, n - 1);
    }
  }

  /**
   * The induction step: if every secondary stream a combinator may poll
   * polls well, so does the combinator.
   */
  lemma MergePollsWell(st: State<seq<int>, Option<Stream>, Stream>, b: Branch)
    requires forall j :: 0 <= j < |ScannedOf(st)| ==> PollsWell(ScannedOf(st)[j].inner)
    ensures PollsWell(Merge(st, b))
  {
    PollOfMerge(st, b);
    var streams := ScannedOf(st);
    var reports := ReportsOf(streams);
    if !st.primary.done && st.primary.inner != [] {
      PrimaryItemContent(st, b);
    } else if exists i :: 0 <= i < |streams| && ReadySome(ReportAt(streams, reports, i)) {
      SomeFirstToYield(streams, reports, |streams|);
      var i :| 0 <= i < |streams| && FirstToYield(streams, reports, i);
      SecondaryItemContent(st, b, i);
    } else {
      SecondariesEndedContent(st, b);
    }
  }

  /** Where the `j`-th stream the second loop walks comes from. */
  lemma ScannedFrom(st: State<seq<int>, Option<Stream>, Stream>, j: nat)
    requires j < |ScannedOf(st)|
    ensures j < |st.active| ==> ScannedOf(st)[j] == st.active[j]
    ensures j >= |st.active| ==> exists i :: 0 <= i < |st.pending| && st.pending[i] == Some(ScannedOf(st)[j].inner)
  {
    if j >= |st.active| {
      ResolvedFromPending(st.pending, j - |st.active|);
    }
  }

  lemma IterPollsWell(items: seq<int>)
    ensures PollsWell(Iter(items))
  {
    if items != [] {
      assert items == [items[0]] + items[1..];
    }
  }

  /** Every poll of an always-ready stream yields an item it held, or reports that nothing is left. */
  lemma {:induction false} AlwaysPollsWell(s: Stream)
    ensures PollsWell(s)
    decreases s
  {
    match s
    case Iter(items) =>
      IterPollsWell(items);
    case Merge(st, b) =>
      forall j | 0 <= j < |ScannedOf(st)|
        ensures PollsWell(ScannedOf(st)[j].inner)
      {
        ScannedFrom(st, j);
        if j < |st.active| {
          AlwaysPollsWell(st.active[j].inner);
        } else {
          var i :| 0 <= i < |st.pending| && st.pending[i] == Some(ScannedOf(st)[j].inner);
          AlwaysPollsWell(st.pending[i].value);
        }
      }
      MergePollsWell(st, b);
  }

  /**
   * `StreamExt::collect` on an always-ready stream: poll until `Ready(None)`.
   * Everything the stream held is collected, each item as often as it is
   * held, and nothing else.
   */
  function Drain(s: Stream): (out: seq<int>)
    ensures multiset(out) == Content(s)
    decreases |Content(s)|
  {
    AlwaysPollsWell(s);
    var p := Poll(s);
    if ReadySome(p.report) then [p.report.value.value] + Drain(p.after) else []
  }
}

/**
 * The test helpers' streams: `stream::iter(1..=9)` mapped with each branch
 * shape, drained and sorted.
 */
module SelectMapDrainExamples {
  import opened Types
  import opened Async
  import opened SelectMapCore
  import opened SelectMapDrain

  /** `stream::iter(1..=9).select_map(b)` */
  function Example(b: Branch): Stream {
    Merge(New(Range(1, 9)), b)
  }

  predicate Sorted(s: seq<int>) {
    forall i, j :: 0 <= i < j < |s| ==> s[i] <= s[j]
  }

  predicate Within(a: int, x: int, b: int) {
    a <= x <= b
  }

  /** The integers from `a` to `b`, each once. */
  function Span(a: int, b: int): multiset<int> {
    multiset(set x | a <= x <= b && Within(a, x, b))
  }

  lemma SpanFront(a: int, b: int)
    requires a <= b
    ensures Span(a, b) == multiset{a} + Span(a + 1, b)
  {
  }

  lemma SpanEmpty(a: int, b: int)
    requires b < a
    ensures Span(a, b) == multiset{}
  {
  }

  /** `a..=b` and `b+1..=c` together make `a..=c`. */
  lemma SpanJoin(a: int, b: int, c: int)
    requires a <= b + 1 && b <= c
    ensures Span(a, b) + Span(b + 1, c) == Span(a, c)
  {
  }

  lemma {:induction false} RangeIsSpan(a: int, b: int)
    ensures multiset(Range(a, b)) == Span(a, b)
    decreases b - a
  {
    if a <= b {
      assert Range(a, b) == [a] + Range(a + 1, b);
      RangeIsSpan(a + 1, b);
      SpanFront(a, b);
    } else {
      assert Range(a, b) == [];
      SpanEmpty(a, b);
    }
  }

  lemma RangeSorted(a: int, b: int)
    ensures Sorted(Range(a, b))
  {
  }

  lemma SortedTail(s: seq<int>)
    requires Sorted(s) && s != []
    ensures Sorted(s[1..])
    ensures forall i :: 0 <= i < |s| ==> s[0] <= s[i]
  {
  }

  /** The head of a sorted sequence is below every element of it. */
  lemma SortedHeadLeast(s: seq<int>, x: int)
    requires Sorted(s) && x in multiset(s)
    ensures s != [] && s[0] <= x
  {
    var i :| 0 <= i < |s| && s[i] == x;
  }

  /** Two sorted sequences with the same elements are the same sequence. */
  lemma {:induction false} SortedUnique(s: seq<int>, t: seq<int>)
    requires Sorted(s) && Sorted(t) && multiset(s) == multiset(t)
    ensures s == t
    decreases |s|
  {
    if s == [] || t == [] {
      assert |multiset(s)| == |s| && |multiset(t)| == |t|;
    } else {
      SortedHeadLeast(s, t[0]);
      SortedHeadLeast(t, s[0]);
      SortedTail(s);
      SortedTail(t);
      assert s[0] == t[0];
      assert s == [s[0]] + s[1..];
      assert t == [t[0]] + t[1..];
      assert multiset(s[1..]) == multiset(s) - multiset{s[0]};
      assert multiset(t[1..]) == multiset(t) - multiset{t[0]};
      SortedUnique(s[1..], t[1..]);
    }
  }

  lemma {:induction false} ExpandAppend(xs: seq<int>, ys: seq<int>, b: Branch)
    ensures Expand(xs + ys, b) == Expand(xs, b) + Expand(ys, b)
    decreases |xs|
  {
    if xs == [] {
      assert xs + ys == ys;
    } else {
      assert (xs + ys)[1..] == xs[1..] + ys;
      ExpandAppend(xs[1..], ys, b);
    }
  }

  /** Without branches only the items themselves are produced. */
  lemma {:induction false} ExpandNoBranch(items: seq<int>)
    ensures Expand(items, NoBranch) == multiset(items)
    decreases |items|
  {
    if items != [] {
      ExpandNoBranch(items[1..]);
      assert items == [items[0]] + items[1..];
    }
  }

  /** Expanding `a..=b` (non-empty): item `a`, its branch, then the rest. */
  lemma ExpandRangeFront(a: int, b: int, br: Branch)
    requires a <= b
    ensures Expand(Range(a, b), br) == multiset{a} + BranchContent(br, a) + Expand(Range(a + 1, b), br)
  {
    assert Range(a, b)[1..] == Range(a + 1, b);
    assert Range(a, b) == [a] + Range(a + 1, b);
  }

  lemma DecadeJoin(a: int, b: int)
    requires a <= b
    ensures multiset{a} + Span(10 * a, 10 * a + 9) + (Span(a + 1, b) + Span(10 * (a + 1), 10 * b + 9))
         == Span(a, b) + Span(10 * a, 10 * b + 9)
  {
  }

  /** Items `a..=b` with a decade each produce `a..=b` and `10a..=10b+9`. */
  lemma {:induction false} ExpandDecade(a: int, b: int)
    requires a <= b + 1
    ensures Expand(Range(a, b), Decade) == Span(a, b) + Span(10 * a, 10 * b + 9)
    decreases b - a
  {
    if a <= b {
      ExpandRangeFront(a, b, Decade);
      ExpandDecade(a + 1, b);
      RangeIsSpan(10 * a, 10 * a + 9);
      DecadeJoin(a, b);
    } else {
      assert Range(a, b) == [];
    }
  }

  /** Up to the limit, a limited decade is a decade. */
  lemma {:induction false} ExpandUpToBelow(a: int, b: int, limit: int)
    requires a <= b + 1 && b <= limit
    ensures Expand(Range(a, b), DecadeUpTo(limit)) == Expand(Range(a, b), Decade)
    decreases b - a
  {
    if a <= b {
      ExpandRangeFront(a, b, Decade);
      ExpandRangeFront(a, b, DecadeUpTo(limit));
      ExpandUpToBelow(a + 1, b, limit);
      assert BranchContent(DecadeUpTo(limit), a) == BranchContent(Decade, a);
    } else {
      assert Range(a, b) == [];
    }
  }

  /** Above the limit, only the items themselves are produced. */
  lemma {:induction false} ExpandUpToAbove(a: int, b: int, limit: int)
    requires a <= b + 1 && limit < a
    ensures Expand(Range(a, b), DecadeUpTo(limit)) == Span(a, b)
    decreases b - a
  {
    if a <= b {
      ExpandRangeFront(a, b, DecadeUpTo(limit));
      ExpandUpToAbove(a + 1, b, limit);
      SpanFront(a, b);
    } else {
      assert Range(a, b) == [];
      SpanEmpty(a, b);
    }
  }

  /** The branch of item `a` produces `10a..=10a+9` and `100a..=100a+99`. */
  lemma NestedBranchContent(a: int)
    ensures BranchContent(NestedDecade(Decade), a) == Span(10 * a, 10 * a + 9) + Span(100 * a, 100 * a + 99)
  {
    ExpandDecade(10 * a, 10 * a + 9);
    assert 10 * (10 * a) == 100 * a && 10 * (10 * a + 9) + 9 == 100 * a + 99;
  }

  lemma NestedJoin(a: int, b: int)
    requires a <= b
    ensures multiset{a} + (Span(10 * a, 10 * a + 9) + Span(100 * a, 100 * a + 99))
            + (Span(a + 1, b) + Span(10 * (a + 1), 10 * b + 9) + Span(100 * (a + 1), 100 * b + 99))
         == Span(a, b) + Span(10 * a, 10 * b + 9) + Span(100 * a, 100 * b + 99)
  {
  }

  /** Items `a..=b` with a nested decade each produce `a..=b`, `10a..=10b+9` and `100a..=100b+99`. */
  lemma {:induction false} ExpandNested(a: int, b: int)
    requires a <= b + 1
    ensures Expand(Range(a, b), NestedDecade(Decade))
         == Span(a, b) + Span(10 * a, 10 * b + 9) + Span(100 * a, 100 * b + 99)
    decreases b - a
  {
    if a <= b {
      ExpandRangeFront(a, b, NestedDecade(Decade));
      ExpandNested(a + 1, b);
      NestedBranchContent(a);
      NestedJoin(a, b);
    } else {
      assert Range(a, b) == [];
    }
  }

  lemma ExampleContent(b: Branch)
    ensures Content(Example(b)) == Expand(Range(1, 9), b)
  {
    var st := New<seq<int>, Option<Stream>, Stream>(Range(1, 9));
    ContentOfMerge(st, b);
    assert FutureContents(st.pending) == [];
    assert FusedContents(st.active) == [];
  }

  /** Sorting what was drained gives exactly the expected range. */
  lemma SortedDrain(s: Stream, lo: int, hi: int, t: seq<int>)
    requires Content(s) == Span(lo, hi)
    requires Sorted(t) && multiset(t) == multiset(Drain(s))
    ensures t == Range(lo, hi)
  {
    RangeIsSpan(lo, hi);
    RangeSorted(lo, hi);
    SortedUnique(t, Range(lo, hi));
  }

  /** Without branches the items `1..=9` themselves come out. */
  lemma DrainWithoutBranches(t: seq<int>)
    requires Sorted(t) && multiset(t) == multiset(Drain(Example(NoBranch)))
    ensures t == Range(1, 9)
  {
    ExampleContent(NoBranch);
    ExpandNoBranch(Range(1, 9));
    RangeIsSpan(1, 9);
    SortedDrain(Example(NoBranch), 1, 9, t);
  }

  /** A decade for every item: `1..=99`. */
  lemma DrainDecades(t: seq<int>)
    requires Sorted(t) && multiset(t) == multiset(Drain(Example(Decade)))
    ensures t == Range(1, 99)
  {
    ExampleContent(Decade);
    ExpandDecade(1, 9);
    SpanJoin(1, 9, 99);
    SortedDrain(Example(Decade), 1, 99, t);
  }

  /** A decade for the items up to `limit` only: `1..=10 limit + 9` (`1..=49` for limit 4). */
  lemma DrainDecadesUpTo(limit: int, t: seq<int>)
    requires 0 <= limit <= 9
    requires Sorted(t) && multiset(t) == multiset(Drain(Example(DecadeUpTo(limit))))
    ensures t == Range(1, 10 * limit + 9)
  {
    UpToContent(limit);
    SortedDrain(Example(DecadeUpTo(limit)), 1, 10 * limit + 9, t);
  }

  lemma UpToContent(limit: int)
    requires 0 <= limit <= 9
    ensures Content(Example(DecadeUpTo(limit))) == Span(1, 10 * limit + 9)
  {
    ExampleContent(DecadeUpTo(limit));
    ExpandUpTo(limit);
    UpToJoin(limit);
  }

  /** `a..=c` is `a..=b` followed by `b+1..=c`. */
  lemma RangeSplit(a: int, b: int, c: int)
    requires a <= b + 1 && b <= c
    ensures Range(a, c) == Range(a, b) + Range(b + 1, c)
  {
  }

  lemma ExpandUpTo(limit: int)
    requires 0 <= limit <= 9
    ensures Expand(Range(1, 9), DecadeUpTo(limit)) == Span(1, limit) + Span(10, 10 * limit + 9) + Span(limit + 1, 9)
  {
    RangeSplit(1, limit, 9);
    ExpandAppend(Range(1, limit), Range(limit + 1, 9), DecadeUpTo(limit));
    ExpandUpToBelow(1, limit, limit);
    ExpandDecade(1, limit);
    ExpandUpToAbove(limit + 1, 9, limit);
  }

  lemma UpToJoin(limit: int)
    requires 0 <= limit <= 9
    ensures Span(1, limit) + Span(10, 10 * limit + 9) + Span(limit + 1, 9) == Span(1, 10 * limit + 9)
  {
  }

  /** A nested select-map for every item: `1..=999`. */
  lemma DrainNestedDecades(t: seq<int>)
    requires Sorted(t) && multiset(t) == multiset(Drain(Example(NestedDecade(Decade))))
    ensures t == Range(1, 999)
  {
    ExampleContent(NestedDecade(Decade));
    ExpandNested(1, 9);
    SpanJoin(1, 9, 99);
    SpanJoin(1, 99, 999);
    SortedDrain(Example(NestedDecade(Decade)), 1, 999, t);
  }
}
