/** Values that several components share. */
module Common {

  datatype Option<+T> = None | Some(value: T)

  datatype Result<+T, +E> = Ok(value: T) | Err(error: E)

  /** A time in nanoseconds. Zero is Go's zero `time.Time`. */
  type Instant = nat

  const SECOND: nat := 1_000_000_000

  /** `t.Truncate(time.Second)`, and what RFC 3339 text without a fraction keeps. */
  function Seconds(t: Instant): (r: Instant)
    ensures r <= t < r + SECOND && r % SECOND == 0
  {
    t - t % SECOND
  }

  // ---- division ----

  lemma {:induction false} DivUnique(a: int, b: int, q: int, r: int)
    requires b > 0 && 0 <= r < b && a == q * b + r
    ensures a / b == q && a % b == r
  {
    var q', r' := a / b, a % b;
    assert a == q' * b + r';
    if q > q' {
      MulAtLeast(q - q', b);
      MulDistributes(q, q', b);
    } else if q < q' {
      MulAtLeast(q' - q, b);
      MulDistributes(q', q, b);
    }
  }

  lemma {:induction false} MulAtLeast(x: int, b: int)
    requires x >= 1 && b > 0
    ensures x * b >= b
  {
  }

  lemma {:induction false} MulDistributes(x: int, y: int, b: int)
    ensures (x - y) * b == x * b - y * b
  {
  }
}
