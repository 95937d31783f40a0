/**
 * The state of the select-map combinator and the pass over its pending
 * futures, which both versions of the combinator (`src/select_map.rs` and
 * `src/utils/select_map.rs`) share word for word.
 *
 * Type parameters: `T` is the item type, `Q` the state of the primary
 * stream, `P` a pending future (resolving to an optional secondary stream)
 * and `S` a secondary stream.
 */
module SelectMapCore {
  import opened Types
  import opened Async
  import opened IndexRemoval

  /**
   * The `SelectMap` struct without its mapping function `f`, which is passed
   * to every poll instead (it never changes).
   */
  datatype State<Q, P, S> = State(primary: Fused<Q>, pending: seq<P>, active: seq<Fused<S>>)

  /**
   * Everything one call to `poll_next` may observe: what the primary stream
   * reports, what each pending future reports (in list order), and what each
   * secondary stream reports (in list order, counting the streams that
   * resolve during this very call at the end).
   */
  datatype Oracle<T, Q, P, S> = Oracle(
    primary: Polled<T, Q>,
    futures: seq<Poll<Option<S>>>,
    streams: seq<Polled<T, S>>)

  /** The answer of one `poll_next` and the combinator's state afterwards. */
  datatype Step<T, Q, P, S> = Step(output: Poll<Option<T>>, next: State<Q, P, S>)

  /**
   * `SelectMapExt::select_map`: the primary stream is fused and both lists
   * start empty. Nothing is polled; the capacity reserved for the lists is
   * not observable and not modelled.
   */
  function New<Q, P, S>(primary: Q): (r: State<Q, P, S>)
    ensures r.primary.inner == primary && !r.primary.done
    ensures r.pending == [] && r.active == []
  {
    State(Fuse(primary), [], [])
  }

  /**
   * `FusedStream::is_terminated`: the primary stream has ended, no future is
   * pending and every secondary stream has ended.
   */
  predicate IsTerminated<Q, P, S>(st: State<Q, P, S>) {
    && st.primary.done
    && st.pending == []
    && forall i :: 0 <= i < |st.active| ==> st.active[i].done
  }

  /** The streams that the futures resolved to, in list order; `None` results contribute nothing. */
  function ResolvedStreams<S>(outs: seq<Poll<Option<S>>>): (r: seq<S>)
    ensures |r| <= |outs|
  {
    if outs == [] then []
    else (if ReadySome(outs[0]) then [outs[0].value.value] else []) + ResolvedStreams(outs[1..])
  }

  lemma {:induction false} ResolvedStreamsSnoc<S>(outs: seq<Poll<Option<S>>>, p: Poll<Option<S>>)
    ensures ResolvedStreams(outs + [p]) == ResolvedStreams(outs) + (if ReadySome(p) then [p.value.value] else [])
    decreases |outs|
  {
    if outs == [] {
      assert outs + [p] == [p];
    } else {
      assert (outs + [p])[1..] == outs[1..] + [p];
      ResolvedStreamsSnoc(outs[1..], p);
    }
  }

  /** Which futures are still pending after the pass: exactly those that reported `Pending`. */
  function PendingMask<S>(outs: seq<Poll<Option<S>>>): (mask: seq<bool>)
    ensures |mask| == |outs|
    ensures forall i :: 0 <= i < |outs| ==> (mask[i] <==> outs[i].Pending?)
  {
    seq(|outs|, i requires 0 <= i < |outs| => outs[i].Pending?)
  }

  /** `StreamExt::fuse` on every stream of a list. */
  function FuseAll<S>(ss: seq<S>): (r: seq<Fused<S>>)
    ensures |r| == |ss|
    ensures forall i :: 0 <= i < |ss| ==> r[i] == Fused(ss[i], false)
  {
    seq(|ss|, i requires 0 <= i < |ss| => Fuse(ss[i]))
  }

  /** The outcome of the loop over the pending futures. */
  datatype PendingPass<S> = PendingPass(resolved: seq<nat>, streams: seq<S>, sawPending: bool)

  /**
   * The loop over the pending futures after it has handled the first `n` of
   * them: the positions of the futures that resolved (to a stream or to
   * `None`) are collected in order, the streams they resolved to are
   * collected in order, and any future still pending keeps the combinator
   * from being done.
   */
  function ScanPending<S>(outs: seq<Poll<Option<S>>>, n: nat): (r: PendingPass<S>)
    requires n <= |outs|
    ensures IndicesBelow(r.resolved, n)
    ensures forall k :: 0 <= k < n ==> (k in r.resolved <==> outs[k].Ready?)
    ensures r.streams == ResolvedStreams(outs[..n])
    ensures r.sawPending <==> exists k :: 0 <= k < n && outs[k].Pending?
  {
    if n == 0 then PendingPass([], [], false)
    else
      var r := ScanPending(outs, n - 1);
      var k := n - 1;
      assert outs[..n] == outs[..k] + [outs[k]];
      ResolvedStreamsSnoc(outs[..k], outs[k]);
      AppendIndex(r.resolved, k);
      IndicesBelowMore(r.resolved, k, n);
      match outs[k]
      case Ready(Some(s)) => r.(resolved := r.resolved + [k], streams := r.streams + [s])
      case Ready(None) => r.(resolved := r.resolved + [k])
      case Pending => r.(sawPending := true)
  }

  /** The whole pass: every pending future is polled once. */
  function PendingPassOf<S>(outs: seq<Poll<Option<S>>>): (r: PendingPass<S>)
    ensures IndicesBelow(r.resolved, |outs|)
    ensures r.resolved == Dropped(PendingMask(outs))
    ensures r.streams == ResolvedStreams(outs)
    ensures r.sawPending <==> exists k :: 0 <= k < |outs| && outs[k].Pending?
  {
    var r := ScanPending(outs, |outs|);
    assert outs[..|outs|] == outs;
    forall k: nat
      ensures k in r.resolved <==> k in Dropped(PendingMask(outs))
    {
      if k < |outs| {
        assert k in Dropped(PendingMask(outs)) <==> !PendingMask(outs)[k];
      }
    }
    SameIndicesAreEqual(r.resolved, Dropped(PendingMask(outs)), |outs|);
    r
  }

  /**
   * The pending list after the pass, as the source computes it: the collected
   * positions are removed with `Vec::remove` in reverse order.
   */
  function RemainingFutures<P, S>(pending: seq<P>, outs: seq<Poll<Option<S>>>): (r: seq<P>)
    requires |outs| == |pending|
    ensures r == Keep(pending, PendingMask(outs))
  {
    var pass := PendingPassOf(outs);
    RemoveInReverseIsKeep(pending, PendingMask(outs));
    RemoveInReverse(pending, pass.resolved)
  }

  /** The secondary streams the second loop walks: the old ones, then those resolved in this call. */
  function ScannedStreams<T, Q, P, S>(st: State<Q, P, S>, o: Oracle<T, Q, P, S>): seq<Fused<S>> {
    st.active + FuseAll(ResolvedStreams(o.futures))
  }

  /** The oracle has one report per pending future and one per stream the second loop walks. */
  predicate Fits<T, Q, P, S>(st: State<Q, P, S>, o: Oracle<T, Q, P, S>) {
    && |o.futures| == |st.pending|
    && |o.streams| == |st.active| + |ResolvedStreams(o.futures)|
  }

  /** What the fused primary stream reports in this call. */
  function PrimaryReport<T, Q, P, S>(st: State<Q, P, S>, o: Oracle<T, Q, P, S>): Poll<Option<T>> {
    FusedReport(st.primary, o.primary)
  }

  /** What the `i`-th stream of `streams` reports when the second loop polls it. */
  function ReportAt<T, S>(streams: seq<Fused<S>>, outs: seq<Polled<T, S>>, i: nat): Poll<Option<T>>
    requires |outs| == |streams| && i < |streams|
  {
    FusedReport(streams[i], outs[i])
  }

  /** `i` is the first stream of the list that yields an item. */
  predicate FirstToYield<T, S>(streams: seq<Fused<S>>, outs: seq<Polled<T, S>>, i: nat)
    requires |outs| == |streams|
  {
    && i < |streams|
    && ReadySome(ReportAt(streams, outs, i))
    && forall j :: 0 <= j < i ==> !ReadySome(ReportAt(streams, outs, j))
  }

  /** The list after its first `n` streams have been polled once, the rest untouched. */
  function PolledUpTo<T, S>(streams: seq<Fused<S>>, outs: seq<Polled<T, S>>, n: nat): (r: seq<Fused<S>>)
    requires |outs| == |streams| && n <= |streams|
    ensures |r| == |streams|
    ensures forall j :: 0 <= j < n ==> r[j] == FusedAfter(streams[j], outs[j])
    ensures forall j :: n <= j < |streams| ==> r[j] == streams[j]
  {
    seq(|streams|, j requires 0 <= j < |streams| => if j < n then FusedAfter(streams[j], outs[j]) else streams[j])
  }

  /** Which streams are still live after all have been polled: those that did not report exhaustion. */
  function LiveMask<T, S>(streams: seq<Fused<S>>, outs: seq<Polled<T, S>>): (mask: seq<bool>)
    requires |outs| == |streams|
    ensures |mask| == |streams|
    ensures forall i :: 0 <= i < |streams| ==> (mask[i] <==> !ReadyNone(ReportAt(streams, outs, i)))
  {
    seq(|streams|, i requires 0 <= i < |streams| => !ReadyNone(ReportAt(streams, outs, i)))
  }
}
