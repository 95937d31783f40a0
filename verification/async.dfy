/**
 * The poll vocabulary of Rust's `futures` crate, without wakers or pinning.
 *
 * A source (stream or future) is not executed here: what it reports when it
 * is polled is an input, a `Polled` value, which also carries the state the
 * source is left in after that poll.
 */
module Async {
  import opened Types

  /** `core::task::Poll` */
  datatype Poll<+T> = Ready(value: T) | Pending

  /** What one poll of a source reports, and the source's state after it. */
  datatype Polled<+R, +X> = Polled(report: Poll<Option<R>>, after: X)

  /** The source produced a value (`Poll::Ready(Some(_))`). */
  predicate ReadySome<R>(p: Poll<Option<R>>) {
    p.Ready? && p.value.Some?
  }

  /** The source reported exhaustion (`Poll::Ready(None)`). */
  predicate ReadyNone<R>(p: Poll<Option<R>>) {
    p.Ready? && p.value.None?
  }

  /**
   * `futures::stream::Fuse`: a stream together with the flag that records
   * that it has reported exhaustion once.
   */
  datatype Fused<+X> = Fused(inner: X, done: bool)

  /** `StreamExt::fuse`: a freshly fused stream has not ended. */
  function Fuse<X>(x: X): Fused<X> {
    Fused(x, false)
  }

  /**
   * What `Fuse::poll_next` reports: an ended stream answers `Ready(None)`
   * without polling its inner stream; otherwise the inner stream's report
   * is passed on.
   */
  function FusedReport<R, X>(s: Fused<X>, o: Polled<R, X>): (r: Poll<Option<R>>)
    ensures s.done ==> ReadyNone(r)
    ensures !s.done ==> r == o.report
  {
    if s.done then Ready(None) else o.report
  }

  /**
   * The fused stream after `Fuse::poll_next`: an ended stream is untouched;
   * otherwise the inner stream moves on and `done` is set exactly when the
   * inner stream reported exhaustion.
   */
  function FusedAfter<R, X>(s: Fused<X>, o: Polled<R, X>): (r: Fused<X>)
    ensures r.done <==> ReadyNone(FusedReport(s, o))
    ensures s.done ==> r == s
  {
    if s.done then s else Fused(o.after, ReadyNone(o.report))
  }
}
