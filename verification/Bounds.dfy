/** Time bounds: a finite integer, or no bound at all.

    The C++ sources use the int sentinel INF_TIME for "no bound".  Everything
    except module Saturation works with unbounded integers instead. */
module Bounds {

  datatype Bound = Fin(v: int) | Inf

  predicate Le(a: Bound, b: Bound) {
    b.Inf? || (a.Fin? && a.v <= b.v)
  }

  predicate Lt(a: Bound, b: Bound) {
    a.Fin? && (b.Inf? || a.v < b.v)
  }

  function Add(a: Bound, b: Bound): Bound {
    if a.Inf? || b.Inf? then Inf else Fin(a.v + b.v)
  }

  function Min(a: Bound, b: Bound): Bound {
    if Lt(b, a) then b else a
  }

  /** d respects the upper bound b. */
  predicate Within(d: int, b: Bound) {
    b.Inf? || d <= b.v
  }

  predicate Negative(b: Bound) {
    b.Fin? && b.v < 0
  }

  function Max(a: int, b: int): int {
    if a < b then b else a
  }
}
