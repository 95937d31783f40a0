/**
 * The select-map combinator of `src/utils/select_map.rs`: `poll_next`,
 * `size_hint` and `is_terminated`.
 *
 * `PollNext` follows the source statement by statement: poll the fused
 * primary stream; on an item, queue `f(item)` and return the item; else run
 * the pass over the pending futures, then poll the secondary streams in list
 * order, returning the first item found and otherwise removing every
 * secondary stream that reported exhaustion. The lemmas below state what
 * that sequence of loops amounts to.
 */
module SelectMap {
  import opened Types
  import opened Async
  import opened IndexRemoval
  import opened SelectMapCore

  /** The outcome of the loop over the secondary streams. */
  datatype SecondaryPass<T, S> =
    | Yielded(item: T, streams: seq<Fused<S>>)
    | Scanned(streams: seq<Fused<S>>, ended: seq<nat>, sawPending: bool)

  /**
   * The loop over the secondary streams after it has handled the first `n`
   * of them. A stream that yields ends the loop (the source returns at
   * once); a stream that reports exhaustion has its position collected; a
   * pending stream keeps the combinator from being done.
   */
  function ScanSecondaries<T, S>(streams: seq<Fused<S>>, outs: seq<Polled<T, S>>, n: nat): (r: SecondaryPass<T, S>)
    requires |outs| == |streams| && n <= |streams|
    ensures r.Yielded? <==> exists i :: 0 <= i < n && ReadySome(ReportAt(streams, outs, i))
    ensures r.Yielded? ==>
      exists i :: 0 <= i < n && FirstToYield(streams, outs, i)
        && r.item == ReportAt(streams, outs, i).value.value
        && r.streams == PolledUpTo(streams, outs, i + 1)
    ensures r.Scanned? ==>
      && r.streams == PolledUpTo(streams, outs, n)
      && IndicesBelow(r.ended, n)
      && (forall k :: 0 <= k < n ==> (k in r.ended <==> ReadyNone(ReportAt(streams, outs, k))))
      && (r.sawPending <==> exists k :: 0 <= k < n && ReportAt(streams, outs, k).Pending?)
  {
    if n == 0 then Scanned(streams, [], false)
    else
      match ScanSecondaries(streams, outs, n - 1)
      case Yielded(item, polled) => Yielded(item, polled)
      case Scanned(polled, ended, sawPending) =>
        var i := n - 1;
        assert polled[i] == streams[i];
        var report := FusedReport(polled[i], outs[i]);
        var polled' := polled[i := FusedAfter(polled[i], outs[i])];
        assert report == ReportAt(streams, outs, i);
        assert polled' == PolledUpTo(streams, outs, n);
        if ReadySome(report) then
          assert FirstToYield(streams, outs, i);
          Yielded(report.value.value, polled')
        else if ReadyNone(report) then
          Scanned(polled', ended + [i], sawPending)
        else
          Scanned(polled', ended, true)
  }

  /** `SelectMap::poll_next`. */
  function PollNext<T, Q, P, S>(st: State<Q, P, S>, f: T -> P, o: Oracle<T, Q, P, S>): (r: Step<T, Q, P, S>)
    requires Fits(st, o)
    ensures r.next.primary == FusedAfter(st.primary, o.primary)
  {
    var primaryReport := FusedReport(st.primary, o.primary);
    var primary := FusedAfter(st.primary, o.primary);
    if ReadySome(primaryReport) then
      var item := primaryReport.value.value;
      Step(Ready(Some(item)), State(primary, st.pending + [f(item)], st.active))
    else
      var pass := PendingPassOf(o.futures);
      var streams := st.active + FuseAll(pass.streams);
      Settle(st, o, pass, ScanSecondaries(streams, o.streams, |streams|))
  }

  /**
   * The end of `poll_next` once the primary stream had no item: the resolved
   * futures leave the pending list, and either the item found by the second
   * loop is returned, or the ended secondary streams are removed and the
   * answer is `Ready(None)` when every source was exhausted, `Pending`
   * otherwise.
   */
  function Settle<T, Q, P, S>(st: State<Q, P, S>, o: Oracle<T, Q, P, S>, pass: PendingPass<S>, scan: SecondaryPass<T, S>): Step<T, Q, P, S>
    requires |o.futures| == |st.pending|
    requires scan.Scanned? ==> IndicesBelow(scan.ended, |scan.streams|)
  {
    var primary := FusedAfter(st.primary, o.primary);
    var pending := RemainingFutures(st.pending, o.futures);
    match scan
    case Yielded(item, polled) =>
      Step(Ready(Some(item)), State(primary, pending, polled))
    case Scanned(polled, ended, sawPending) =>
      var allDone := PrimaryReport(st, o).Ready? && !pass.sawPending && !sawPending;
      Step(if allDone then Ready(None) else Pending, State(primary, pending, RemoveInReverse(polled, ended)))
  }

  /**
   * An item from the primary stream is returned at once; `f` is applied to
   * it exactly once and its future is queued at the end of the pending
   * list; no future and no secondary stream is polled.
   */
  lemma PrimaryItemReturned<T, Q, P, S>(st: State<Q, P, S>, f: T -> P, o: Oracle<T, Q, P, S>)
    requires Fits(st, o) && ReadySome(PrimaryReport(st, o))
    ensures var r := PollNext(st, f, o);
      && !st.primary.done
      && r.output == o.primary.report
      && r.next.pending == st.pending + [f(o.primary.report.value.value)]
      && r.next.active == st.active
      && r.next.primary == Fused(o.primary.after, false)
  {
  }

  /**
   * When the primary stream has no item, exactly the futures that are still
   * pending stay in the pending list, in their original order.
   */
  lemma PendingFuturesKeptInOrder<T, Q, P, S>(st: State<Q, P, S>, f: T -> P, o: Oracle<T, Q, P, S>)
    requires Fits(st, o) && !ReadySome(PrimaryReport(st, o))
    ensures var r := PollNext(st, f, o);
      && r.next.pending == Keep(st.pending, PendingMask(o.futures))
      && |r.next.pending| <= |st.pending|
  {
  }

  /** The second loop walks the old secondary streams and then, fused, the streams resolved in this call. */
  lemma SecondaryPassOver<T, Q, P, S>(st: State<Q, P, S>, f: T -> P, o: Oracle<T, Q, P, S>)
    requires Fits(st, o) && !ReadySome(PrimaryReport(st, o))
    ensures var streams := ScannedStreams(st, o);
      && |o.streams| == |streams|
      && PollNext(st, f, o) == Settle(st, o, PendingPassOf(o.futures), ScanSecondaries(streams, o.streams, |streams|))
  {
  }

  /**
   * The first secondary stream in list order that yields an item wins: its
   * item is returned, the streams before it have been polled once (those
   * that reported exhaustion are marked ended but stay in the list) and the
   * streams after it are not polled. A stream resolved in this very call
   * takes part.
   */
  lemma FirstSecondaryWins<T, Q, P, S>(st: State<Q, P, S>, f: T -> P, o: Oracle<T, Q, P, S>, i: nat)
    requires Fits(st, o) && !ReadySome(PrimaryReport(st, o))
    requires |o.streams| == |ScannedStreams(st, o)|
    requires FirstToYield(ScannedStreams(st, o), o.streams, i)
    ensures var r := PollNext(st, f, o);
      && r.output == Ready(Some(ReportAt(ScannedStreams(st, o), o.streams, i).value.value))
      && r.next.active == PolledUpTo(ScannedStreams(st, o), o.streams, i + 1)
      && |r.next.active| == |st.active| + |ResolvedStreams(o.futures)|
  {
    var streams := ScannedStreams(st, o);
    SecondaryPassOver(st, f, o);
    var pass := ScanSecondaries(streams, o.streams, |streams|);
    assert ReadySome(ReportAt(streams, o.streams, i));
    var i' :| 0 <= i' < |streams| && FirstToYield(streams, o.streams, i')
      && pass.item == ReportAt(streams, o.streams, i').value.value
      && pass.streams == PolledUpTo(streams, o.streams, i' + 1);
  }

  /**
   * A future that resolves to a stream in this call has that stream polled
   * in the same call, after the old secondary streams; when it is the first
   * to yield, its item is returned at once and it stays in the list, moved
   * on by one item.
   */
  lemma ResolvedStreamPolledAtOnce<T, Q, P, S>(st: State<Q, P, S>, f: T -> P, o: Oracle<T, Q, P, S>, j: nat)
    requires Fits(st, o) && !ReadySome(PrimaryReport(st, o))
    requires j < |ResolvedStreams(o.futures)|
    requires FirstToYield(ScannedStreams(st, o), o.streams, |st.active| + j)
    ensures var k := |st.active| + j;
      var r := PollNext(st, f, o);
      && ScannedStreams(st, o)[k] == Fuse(ResolvedStreams(o.futures)[j])
      && r.output == o.streams[k].report
      && |r.next.active| == |st.active| + |ResolvedStreams(o.futures)|
      && r.next.active[k] == Fused(o.streams[k].after, false)
  {
    var k := |st.active| + j;
    assert ScannedStreams(st, o)[k] == Fuse(ResolvedStreams(o.futures)[j]);
    FirstSecondaryWins(st, f, o, k);
  }

  /**
   * When no secondary stream yields, every stream that reported exhaustion
   * is removed and the others stay, in their order; none of those left has
   * ended.
   */
  lemma EndedSecondariesRemoved<T, Q, P, S>(st: State<Q, P, S>, f: T -> P, o: Oracle<T, Q, P, S>)
    requires Fits(st, o) && !ReadySome(PrimaryReport(st, o))
    requires |o.streams| == |ScannedStreams(st, o)|
    requires forall i :: 0 <= i < |o.streams| ==> !ReadySome(ReportAt(ScannedStreams(st, o), o.streams, i))
    ensures var streams := ScannedStreams(st, o);
      var r := PollNext(st, f, o);
      && r.next.active == Keep(PolledUpTo(streams, o.streams, |streams|), LiveMask(streams, o.streams))
      && forall j :: 0 <= j < |r.next.active| ==> !r.next.active[j].done
  {
    var streams := ScannedStreams(st, o);
    var n := |streams|;
    SecondaryPassOver(st, f, o);
    var mask := LiveMask(streams, o.streams);
    EndedAreDropped(streams, o.streams);
    var polled := PolledUpTo(streams, o.streams, n);
    RemoveInReverseIsKeep(polled, mask);
    LiveKeptNotDone(streams, o.streams);
  }

  /** Keeping the streams that did not report exhaustion keeps no ended stream. */
  lemma LiveKeptNotDone<T, S>(streams: seq<Fused<S>>, outs: seq<Polled<T, S>>)
    requires |outs| == |streams|
    ensures var left := Keep(PolledUpTo(streams, outs, |streams|), LiveMask(streams, outs));
      forall j :: 0 <= j < |left| ==> !left[j].done
  {
    var polled := PolledUpTo(streams, outs, |streams|);
    var mask := LiveMask(streams, outs);
    forall j | 0 <= j < |Keep(polled, mask)|
      ensures !Keep(polled, mask)[j].done
    {
      KeepMembers(polled, mask, j);
    }
  }

  /** When no stream yields, the recorded positions are exactly those of the streams that reported exhaustion. */
  lemma EndedAreDropped<T, S>(streams: seq<Fused<S>>, outs: seq<Polled<T, S>>)
    requires |outs| == |streams|
    requires forall i :: 0 <= i < |outs| ==> !ReadySome(ReportAt(streams, outs, i))
    ensures var pass := ScanSecondaries(streams, outs, |streams|);
      pass.Scanned? && pass.ended == Dropped(LiveMask(streams, outs))
  {
    var n := |streams|;
    var pass := ScanSecondaries(streams, outs, n);
    var mask := LiveMask(streams, outs);
    forall k: nat
      ensures k in pass.ended <==> k in Dropped(mask)
    {
      if k < n {
        assert k in Dropped(mask) <==> !mask[k];
      }
    }
    SameIndicesAreEqual(pass.ended, Dropped(mask), n);
  }

  /**
   * The combinator reports `Ready(None)` exactly when the primary stream is
   * exhausted, no future is still pending, and every secondary stream (old
   * or resolved in this call) reported exhaustion, i.e. none is pending and
   * none yields. It yields an item exactly when the primary stream or some
   * secondary stream does; otherwise it reports `Pending`.
   */
  lemma TerminalExactly<T, Q, P, S>(st: State<Q, P, S>, f: T -> P, o: Oracle<T, Q, P, S>)
    requires Fits(st, o)
    ensures var streams := ScannedStreams(st, o);
      var r := PollNext(st, f, o);
      && |o.streams| == |streams|
      && (r.output == Ready(None) <==>
            && ReadyNone(PrimaryReport(st, o))
            && (forall k :: 0 <= k < |o.futures| ==> !o.futures[k].Pending?)
            && (forall i :: 0 <= i < |streams| ==> !ReportAt(streams, o.streams, i).Pending?)
            && (forall i :: 0 <= i < |streams| ==> !ReadySome(ReportAt(streams, o.streams, i))))
      && (ReadySome(r.output) <==>
            ReadySome(PrimaryReport(st, o)) || exists i :: 0 <= i < |streams| && ReadySome(ReportAt(streams, o.streams, i)))
  {
    if !ReadySome(PrimaryReport(st, o)) {
      SecondaryPassOver(st, f, o);
    }
  }

  /**
   * After `Ready(None)` nothing is left: the pending list and the secondary
   * list are empty and the combinator is terminated.
   */
  lemma TerminalLeavesNothing<T, Q, P, S>(st: State<Q, P, S>, f: T -> P, o: Oracle<T, Q, P, S>)
    requires Fits(st, o) && PollNext(st, f, o).output == Ready(None)
    ensures var r := PollNext(st, f, o);
      && r.next.pending == []
      && r.next.active == []
      && IsTerminated(r.next)
  {
    TerminalNoPending(st, f, o);
    TerminalNoActive(st, f, o);
  }

  lemma TerminalNoPending<T, Q, P, S>(st: State<Q, P, S>, f: T -> P, o: Oracle<T, Q, P, S>)
    requires Fits(st, o) && PollNext(st, f, o).output == Ready(None)
    ensures PollNext(st, f, o).next.pending == [] && PollNext(st, f, o).next.primary.done
  {
    TerminalExactly(st, f, o);
    PendingFuturesKeptInOrder(st, f, o);
    KeepNone(st.pending, PendingMask(o.futures));
  }

  lemma TerminalNoActive<T, Q, P, S>(st: State<Q, P, S>, f: T -> P, o: Oracle<T, Q, P, S>)
    requires Fits(st, o) && PollNext(st, f, o).output == Ready(None)
    ensures PollNext(st, f, o).next.active == []
  {
    TerminalExactly(st, f, o);
    var streams := ScannedStreams(st, o);
    forall i | 0 <= i < |o.streams|
      ensures ReadyNone(ReportAt(streams, o.streams, i))
    {
      assert !ReportAt(streams, o.streams, i).Pending?;
    }
    EndedSecondariesAllRemoved(st, f, o);
  }

  lemma EndedSecondariesAllRemoved<T, Q, P, S>(st: State<Q, P, S>, f: T -> P, o: Oracle<T, Q, P, S>)
    requires Fits(st, o) && !ReadySome(PrimaryReport(st, o))
    requires |o.streams| == |ScannedStreams(st, o)|
    requires forall i :: 0 <= i < |o.streams| ==> ReadyNone(ReportAt(ScannedStreams(st, o), o.streams, i))
    ensures PollNext(st, f, o).next.active == []
  {
    var streams := ScannedStreams(st, o);
    EndedSecondariesRemoved(st, f, o);
    KeepNone(PolledUpTo(streams, o.streams, |streams|), LiveMask(streams, o.streams));
  }

  /**
   * A terminated combinator stays terminated: any further poll reports
   * `Ready(None)` again, polls nothing and drops the ended secondary
   * streams.
   */
  lemma TerminatedStaysTerminated<T, Q, P, S>(st: State<Q, P, S>, f: T -> P, o: Oracle<T, Q, P, S>)
    requires Fits(st, o) && IsTerminated(st)
    ensures var r := PollNext(st, f, o);
      && r.output == Ready(None)
      && r.next == State(st.primary, [], [])
      && IsTerminated(r.next)
  {
    assert o.futures == [];
    assert ResolvedStreams(o.futures) == [];
    var streams := ScannedStreams(st, o);
    assert streams == st.active;
    TerminalExactly(st, f, o);
    TerminalLeavesNothing(st, f, o);
  }

  /** A freshly built combinator is not terminated, and its first poll only polls the primary stream. */
  lemma NewIsLazy<T, Q, P, S>(primary: Q, f: T -> P, o: Oracle<T, Q, P, S>)
    requires Fits(New(primary), o)
    ensures !IsTerminated(New<Q, P, S>(primary))
    ensures var r := PollNext(New(primary), f, o);
      && (ReadySome(o.primary.report) ==> r.next.pending == [f(o.primary.report.value.value)] && r.next.active == [])
      && (ReadyNone(o.primary.report) ==> r.output == Ready(None) && IsTerminated(r.next))
      && (o.primary.report.Pending? ==> r.output == Pending && r.next.pending == [] && r.next.active == [])
  {
    var st := New<Q, P, S>(primary);
    assert o.futures == [];
    assert ResolvedStreams(o.futures) == [];
    if !ReadySome(o.primary.report) {
      TerminalExactly(st, f, o);
    }
  }

  /** The largest `usize` on a 64-bit target. */
  const USIZE_MAX: nat := 0xFFFF_FFFF_FFFF_FFFF

  type usize = x: nat | x <= USIZE_MAX

  /** `usize::saturating_add`: the sum, or `usize::MAX` when the sum does not fit. */
  function SaturatingAdd(a: usize, b: usize): (r: usize)
    ensures r <= a + b
    ensures a + b <= USIZE_MAX ==> r == a + b
    ensures a + b > USIZE_MAX ==> r == USIZE_MAX
  {
    if a + b > USIZE_MAX then USIZE_MAX else a + b
  }

  /** `Stream::size_hint`: a lower bound and an optional upper bound on the items still to come. */
  datatype SizeHint = SizeHint(lower: usize, upper: Option<usize>)

  /** The lower bound `Fuse::size_hint` reports: zero once the stream has ended, else the inner stream's. */
  function FusedLower<X>(s: Fused<X>, innerLower: usize): (r: usize)
    ensures s.done ==> r == 0
    ensures !s.done ==> r == innerLower
  {
    if s.done then 0 else innerLower
  }

  function Sum(xs: seq<nat>): nat {
    if xs == [] then 0 else xs[0] + Sum(xs[1..])
  }

  /** The lower bounds of the secondary streams, given those of their inner streams. */
  function ActiveLowers<Q, P, S>(st: State<Q, P, S>, innerLowers: seq<usize>): (r: seq<nat>)
    requires |innerLowers| == |st.active|
    ensures |r| == |st.active|
    ensures forall i :: 0 <= i < |r| ==> r[i] == FusedLower(st.active[i], innerLowers[i])
  {
    seq(|innerLowers|, i requires 0 <= i < |innerLowers| => FusedLower(st.active[i], innerLowers[i]))
  }

  /**
   * `SelectMap::size_hint`, given the lower bounds the inner primary and
   * secondary streams report. The sum over the secondary streams is taken
   * not to overflow (in the source `.sum()` would panic or wrap).
   */
  function SizeHintOf<Q, P, S>(st: State<Q, P, S>, primaryLower: usize, innerLowers: seq<usize>): (r: SizeHint)
    requires |innerLowers| == |st.active|
    requires Sum(ActiveLowers(st, innerLowers)) <= USIZE_MAX
  {
    SizeHint(SaturatingAdd(FusedLower(st.primary, primaryLower), Sum(ActiveLowers(st, innerLowers))), None)
  }

  lemma {:induction false} SumAtLeastEach(xs: seq<nat>, i: nat)
    requires i < |xs|
    ensures xs[i] <= Sum(xs)
    decreases |xs|
  {
    if i > 0 {
      SumAtLeastEach(xs[1..], i - 1);
    }
  }

  lemma {:induction false} SumOfZeros(xs: seq<nat>)
    requires forall i :: 0 <= i < |xs| ==> xs[i] == 0
    ensures Sum(xs) == 0
    decreases |xs|
  {
    if xs != [] {
      SumOfZeros(xs[1..]);
    }
  }

  /**
   * The size hint never gives an upper bound; its lower bound is the
   * saturating sum of the primary stream's and every live secondary
   * stream's lower bound, so it is at least each of them, and it is
   * `usize::MAX` when that sum does not fit; pending futures contribute
   * nothing.
   */
  lemma SizeHintBounds<Q, P, S>(st: State<Q, P, S>, primaryLower: usize, innerLowers: seq<usize>, pending: seq<P>)
    requires |innerLowers| == |st.active|
    requires Sum(ActiveLowers(st, innerLowers)) <= USIZE_MAX
    ensures var r := SizeHintOf(st, primaryLower, innerLowers);
      && r.upper == None
      && (!st.primary.done ==> primaryLower <= r.lower)
      && (forall i :: 0 <= i < |st.active| && !st.active[i].done ==> innerLowers[i] <= r.lower)
      && (FusedLower(st.primary, primaryLower) + Sum(ActiveLowers(st, innerLowers)) <= USIZE_MAX ==>
            r.lower == FusedLower(st.primary, primaryLower) + Sum(ActiveLowers(st, innerLowers)))
      && (FusedLower(st.primary, primaryLower) + Sum(ActiveLowers(st, innerLowers)) > USIZE_MAX ==>
            r.lower == USIZE_MAX)
      && SizeHintOf(st.(pending := pending), primaryLower, innerLowers) == r
  {
    forall i | 0 <= i < |st.active| && !st.active[i].done
      ensures innerLowers[i] <= SizeHintOf(st, primaryLower, innerLowers).lower
    {
      SumAtLeastEach(ActiveLowers(st, innerLowers), i);
    }
    assert ActiveLowers(st.(pending := pending), innerLowers) == ActiveLowers(st, innerLowers);
  }

  /** A terminated combinator promises no further item. */
  lemma SizeHintOfTerminated<Q, P, S>(st: State<Q, P, S>, primaryLower: usize, innerLowers: seq<usize>)
    requires |innerLowers| == |st.active| && IsTerminated(st)
    ensures Sum(ActiveLowers(st, innerLowers)) == 0
    ensures SizeHintOf(st, primaryLower, innerLowers) == SizeHint(0, None)
  {
    SumOfZeros(ActiveLowers(st, innerLowers));
  }
}
