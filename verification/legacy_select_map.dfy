/**
 * The earlier select-map combinator of `src/select_map.rs`.
 *
 * It differs from `SelectMap` in one place: in the loop over the secondary
 * streams, a stream that reports exhaustion is neither recorded nor
 * removed, so the list of secondary streams only ever grows; an ended
 * stream stays in it, answering `Ready(None)` through its `Fuse` wrapper.
 */
module LegacySelectMap {
  import opened Types
  import opened Async
  import opened IndexRemoval
  import opened SelectMapCore

  /** The outcome of the loop over the secondary streams. */
  datatype SecondaryPass<T, S> =
    | Yielded(item: T, streams: seq<Fused<S>>)
    | Scanned(streams: seq<Fused<S>>, sawPending: bool)

  /**
   * The loop over the secondary streams after it has handled the first `n`
   * of them: a stream that yields ends the loop, an exhausted stream is
   * passed over, a pending stream keeps the combinator from being done.
   */
  function ScanSecondaries<T, S>(streams: seq<Fused<S>>, outs: seq<Polled<T, S>>, n: nat): (r: SecondaryPass<T, S>)
    requires |outs| == |streams| && n <= |streams|
    ensures r.Yielded? <==> exists i :: 0 <= i < n && ReadySome(ReportAt(streams, outs, i))
    ensures r.Yielded? ==>
      exists i :: 0 <= i < n && FirstToYield(streams, outs, i)
        && r.item == ReportAt(streams, outs, i).value.value
        && r.streams == PolledUpTo(streams, outs, i + 1)
    ensures r.Scanned? ==>
      && r.streams == PolledUpTo(streams, outs, n)
      && (r.sawPending <==> exists k :: 0 <= k < n && ReportAt(streams, outs, k).Pending?)
  {
    if n == 0 then Scanned(streams, false)
    else
      match ScanSecondaries(streams, outs, n - 1)
      case Yielded(item, polled) => Yielded(item, polled)
      case Scanned(polled, sawPending) =>
        var i := n - 1;
        assert polled[i] == streams[i];
        var report := FusedReport(polled[i], outs[i]);
        var polled' := polled[i := FusedAfter(polled[i], outs[i])];
        assert report == ReportAt(streams, outs, i);
        assert polled' == PolledUpTo(streams, outs, n);
        if ReadySome(report) then
          assert FirstToYield(streams, outs, i);
          Yielded(report.value.value, polled')
        else if ReadyNone(report) then
          Scanned(polled', sawPending)
        else
          Scanned(polled', true)
  }

  /** `SelectMap::poll_next` of the earlier version. */
  function PollNext<T, Q, P, S>(st: State<Q, P, S>, f: T -> P, o: Oracle<T, Q, P, S>): (r: Step<T, Q, P, S>)
    requires Fits(st, o)
    ensures r.next.primary == FusedAfter(st.primary, o.primary)
  {
    var primaryReport := FusedReport(st.primary, o.primary);
    var primary := FusedAfter(st.primary, o.primary);
    if ReadySome(primaryReport) then
      var item := primaryReport.value.value;
      Step(Ready(Some(item)), State(primary, st.pending + [f(item)], st.active))
    else
      var pass := PendingPassOf(o.futures);
      var pending := RemainingFutures(st.pending, o.futures);
      var streams := st.active + FuseAll(pass.streams);
      match ScanSecondaries(streams, o.streams, |streams|)
      case Yielded(item, polled) =>
        Step(Ready(Some(item)), State(primary, pending, polled))
      case Scanned(polled, sawPending) =>
        var allDone := primaryReport.Ready? && !pass.sawPending && !sawPending;
        Step(if allDone then Ready(None) else Pending, State(primary, pending, polled))
  }

  /**
   * An item from the primary stream is returned at once, after `f` has been
   * applied to it exactly once and its future queued; nothing else is polled.
   */
  lemma PrimaryItemReturned<T, Q, P, S>(st: State<Q, P, S>, f: T -> P, o: Oracle<T, Q, P, S>)
    requires Fits(st, o) && ReadySome(PrimaryReport(st, o))
    ensures var r := PollNext(st, f, o);
      && !st.primary.done
      && r.output == o.primary.report
      && r.next.pending == st.pending + [f(o.primary.report.value.value)]
      && r.next.active == st.active
      && r.next.primary == Fused(o.primary.after, false)
  {
  }

  /**
   * Otherwise exactly the still-pending futures stay, in order, and the
   * streams the others resolved to are appended, fused and in order, to the
   * secondary list that the second loop walks.
   */
  lemma PendingPassResolves<T, Q, P, S>(st: State<Q, P, S>, f: T -> P, o: Oracle<T, Q, P, S>)
    requires Fits(st, o) && !ReadySome(PrimaryReport(st, o))
    ensures var r := PollNext(st, f, o);
      var streams := ScannedStreams(st, o);
      && r.next.pending == Keep(st.pending, PendingMask(o.futures))
      && |o.streams| == |streams|
      && streams[..|st.active|] == st.active
      && streams[|st.active|..] == FuseAll(ResolvedStreams(o.futures))
  {
  }

  /** The first secondary stream in list order that yields an item wins; the later ones are not polled. */
  lemma FirstSecondaryWins<T, Q, P, S>(st: State<Q, P, S>, f: T -> P, o: Oracle<T, Q, P, S>, i: nat)
    requires Fits(st, o) && !ReadySome(PrimaryReport(st, o))
    requires |o.streams| == |ScannedStreams(st, o)|
    requires FirstToYield(ScannedStreams(st, o), o.streams, i)
    ensures var r := PollNext(st, f, o);
      && r.output == Ready(Some(ReportAt(ScannedStreams(st, o), o.streams, i).value.value))
      && r.next.active == PolledUpTo(ScannedStreams(st, o), o.streams, i + 1)
  {
    var streams := ScannedStreams(st, o);
    var pass := ScanSecondaries(streams, o.streams, |streams|);
    assert ReadySome(ReportAt(streams, o.streams, i));
  }

  /**
   * No secondary stream is ever removed: the list keeps its length or grows
   * by the streams resolved in this call, and a stream that has ended stays
   * where it was, unchanged.
   */
  lemma SecondariesOnlyGrow<T, Q, P, S>(st: State<Q, P, S>, f: T -> P, o: Oracle<T, Q, P, S>)
    requires Fits(st, o)
    ensures var r := PollNext(st, f, o);
      && |r.next.active| == |st.active| + (if ReadySome(PrimaryReport(st, o)) then 0 else |ResolvedStreams(o.futures)|)
      && forall i :: 0 <= i < |st.active| && st.active[i].done ==> r.next.active[i] == st.active[i]
  {
    if !ReadySome(PrimaryReport(st, o)) {
      var streams := ScannedStreams(st, o);
      var pass := ScanSecondaries(streams, o.streams, |streams|);
      assert streams[..|st.active|] == st.active;
      if pass.Yielded? {
        var i :| 0 <= i < |streams| && FirstToYield(streams, o.streams, i)
          && pass.streams == PolledUpTo(streams, o.streams, i + 1);
      }
    }
  }

  /**
   * `Ready(None)` exactly when the primary stream is exhausted, no future is
   * pending and every secondary stream reports exhaustion; an item exactly
   * when the primary stream or some secondary stream yields one.
   */
  lemma TerminalExactly<T, Q, P, S>(st: State<Q, P, S>, f: T -> P, o: Oracle<T, Q, P, S>)
    requires Fits(st, o)
    ensures var streams := ScannedStreams(st, o);
      var r := PollNext(st, f, o);
      && |o.streams| == |streams|
      && (r.output == Ready(None) <==>
            && ReadyNone(PrimaryReport(st, o))
            && (forall k :: 0 <= k < |o.futures| ==> !o.futures[k].Pending?)
            && (forall i :: 0 <= i < |streams| ==> !ReportAt(streams, o.streams, i).Pending?)
            && (forall i :: 0 <= i < |streams| ==> !ReadySome(ReportAt(streams, o.streams, i))))
      && (ReadySome(r.output) <==>
            ReadySome(PrimaryReport(st, o)) || exists i :: 0 <= i < |streams| && ReadySome(ReportAt(streams, o.streams, i)))
  {
  }

  /**
   * After `Ready(None)` no future is pending and every secondary stream has
   * ended, though all of them are still in the list; a further poll reports
   * `Ready(None)` again and changes nothing.
   */
  lemma TerminalRepeats<T, Q, P, S>(st: State<Q, P, S>, f: T -> P, o: Oracle<T, Q, P, S>, o': Oracle<T, Q, P, S>)
    requires Fits(st, o) && PollNext(st, f, o).output == Ready(None)
    requires Fits(PollNext(st, f, o).next, o')
    ensures var r := PollNext(st, f, o);
      && IsTerminated(r.next)
      && |r.next.active| == |st.active| + |ResolvedStreams(o.futures)|
      && PollNext(r.next, f, o') == Step(Ready(None), r.next)
  {
    var r := PollNext(st, f, o);
    TerminalExactly(st, f, o);
    KeepNone(st.pending, PendingMask(o.futures));
    var streams := ScannedStreams(st, o);
    forall i | 0 <= i < |r.next.active|
      ensures r.next.active[i].done
    {
      assert ReadyNone(ReportAt(streams, o.streams, i));
    }
    TerminatedRepeats(r.next, f, o');
  }

  /** On a terminated combinator every poll reports `Ready(None)` and changes nothing. */
  lemma TerminatedRepeats<T, Q, P, S>(st: State<Q, P, S>, f: T -> P, o: Oracle<T, Q, P, S>)
    requires Fits(st, o) && IsTerminated(st)
    ensures PollNext(st, f, o) == Step(Ready(None), st)
  {
    assert o.futures == [];
    assert ResolvedStreams(o.futures) == [];
    var streams := ScannedStreams(st, o);
    assert streams == st.active;
    TerminalExactly(st, f, o);
    KeepNone(st.pending, PendingMask(o.futures));
    var r := PollNext(st, f, o);
    assert r.next.active == PolledUpTo(streams, o.streams, |streams|);
  }
}
