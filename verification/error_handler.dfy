/**
 * The `try_wrap_err!` macro of `src/utils/error_handler.rs`, used inside
 * functions that return `Option<Result<_, _>>`, such as the helper its
 * tests define: it either hands back the `Ok` value so that the enclosing
 * function goes on, or makes that function return
 * `Some(Err(error.into()))` at once.
 */
module ErrorHandler {
  import opened Types

  newtype u16 = x: int | 0 <= x < 0x1_0000
  newtype u32 = x: int | 0 <= x < 0x1_0000_0000

  /** How the code after a macro use goes on: with a value, or by returning from the enclosing function. */
  datatype Flow<V, R> = Continue(value: V) | EarlyReturn(ret: R)

  /**
   * `try_wrap_err!(res)` in a function returning `Option<Result<T, F>>`,
   * where `into` is the `From` conversion of the error type.
   */
  function TryWrapErr<V, E, T, F>(res: Result<V, E>, into: E -> F): (r: Flow<V, Option<Result<T, F>>>)
    ensures r.Continue? <==> res.Ok?
    ensures r.Continue? ==> r.value == res.value
    ensures r.EarlyReturn? ==> r.ret == Some(Err(into(res.error)))
  {
    match res
    case Ok(ok) => Continue(ok)
    case Err(error) => EarlyReturn(Some(Err(into(error))))
  }

  /** `impl From<u16> for u32`: widening keeps the value. */
  function Widen(x: u16): (r: u32)
    ensures r as int == x as int
  {
    x as int as u32
  }

  /**
   * The helper the macro's tests use: the macro on `res`, and `None` when
   * the function falls through.
   */
  function TryWrapErrOrNone(res: Result<u16, u16>): (r: Option<Result<u16, u32>>)
    ensures r == None <==> res.Ok?
    ensures res.Err? ==> r == Some(Err(Widen(res.error)))
  {
    match TryWrapErr<u16, u16, u16, u32>(res, Widen)
    case Continue(_) => None
    case EarlyReturn(ret) => ret
  }

  /** An error comes back as `Some(Err(_))` with the same number, widened. */
  lemma ErrorValueKept(e: u16)
    ensures var r := TryWrapErrOrNone(Err(e));
      r.Some? && r.value.Err? && r.value.error as int == e as int
  {
  }

  /** The two cases the tests pin down: `Ok(42)` falls through, `Err(42)` returns `Some(Err(42))`. */
  lemma TestedCases()
    ensures TryWrapErrOrNone(Ok(42)) == None
    ensures TryWrapErrOrNone(Err(42)) == Some(Err(42))
  {
  }

  /**
   * Chaining: a body that applies the macro to `res` and then continues
   * with `k` returns what `k` returns on `Ok`, and the converted error on
   * `Err`, without running `k`.
   */
  function Then<V, E, T, F>(res: Result<V, E>, into: E -> F, k: V -> Option<Result<T, F>>): (r: Option<Result<T, F>>)
    ensures res.Ok? ==> r == k(res.value)
    ensures res.Err? ==> r == Some(Err(into(res.error)))
  {
    match TryWrapErr(res, into)
    case Continue(v) => k(v)
    case EarlyReturn(ret) => ret
  }
}
