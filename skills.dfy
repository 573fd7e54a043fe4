/** The percentage shown on each skill bar (app.py, line 724). */
module Skills {

  function Min(a: int, b: int): int {
    if a <= b then a else b
  }

  function Max(a: int, b: int): int {
    if a >= b then a else b
  }

  /** `max(0, min(100, int(pct)))`: the bar width always lies in [0, 100],
      a value already in range is kept, and a value outside it is moved to
      the nearer end. */
  function ClampPercent(pct: int): (r: int)
    ensures 0 <= r <= 100
    ensures 0 <= pct <= 100 ==> r == pct
    ensures pct < 0 ==> r == 0
    ensures pct > 100 ==> r == 100
  {
    Max(0, Min(100, pct))
  }

  /** Clamping keeps the order of two percentages and a second clamp changes
      nothing. */
  lemma ClampMonotoneIdempotent(a: int, b: int)
    requires a <= b
    ensures ClampPercent(a) <= ClampPercent(b)
    ensures ClampPercent(ClampPercent(a)) == ClampPercent(a)
  {
  }
}
