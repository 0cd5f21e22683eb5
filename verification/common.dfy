/** Shared vocabulary of the model: failure-carrying results, the error kinds the
    pipeline raises, and the integer conventions Python uses (floor division,
    truncating float-to-int conversion). */
module Common {

  datatype Option<+T> = None | Some(value: T)

  /** The ways the modelled code stops. Each corresponds to a Python exception
      or an explicit `sys.exit` in the source. */
  datatype Error =
    | NoBoxDetected        // no slice produced a plug box: `plug_rectangles[0]` fails
    | EmptyIntersection    // the per-slice boxes have no common point
    | SampleTooSmall       // the Z range is shorter than the square side
    | ZeroDivision         // integer division by zero
    | PopulationTooSmall   // fewer candidates than draws without replacement
    | ColumnMismatch       // a row does not have as many cells as the header
    | EmptySample          // the incoming entropy table has no rows
    | MissingColumn(name: string)
    | ValueError           // `int(...)` rejects its argument, or pandas or scikit-learn get no data
    | TypeError            // `int(None)`
    | NameError            // a name used without being imported

  datatype Result<+T> = Ok(value: T) | Err(error: Error) {

    predicate IsFailure() {
      Err?
    }

    function PropagateFailure<U>(): Result<U>
      requires Err?
    {
      Err(error)
    }

    function Extract(): T
      requires Ok?
    {
      value
    }
  }

  function Min(a: int, b: int): (m: int)
    ensures m <= a && m <= b
    ensures m == a || m == b
  {
    if a <= b then a else b
  }

  function Max(a: int, b: int): (m: int)
    ensures a <= m && b <= m
    ensures m == a || m == b
  {
    if a >= b then a else b
  }

  function MinReal(a: real, b: real): (m: real)
    ensures m <= a && m <= b
    ensures m == a || m == b
  {
    if a <= b then a else b
  }

  function MaxReal(a: real, b: real): (m: real)
    ensures a <= m && b <= m
    ensures m == a || m == b
  {
    if a >= b then a else b
  }

  /** Python's `a // b`: the quotient rounded towards minus infinity.
      (Dafny's own `/` is Euclidean and differs for a negative divisor.) */
  function FloorDiv(a: int, b: int): (q: int)
    requires b != 0
    ensures b > 0 ==> b * q <= a < b * q + b
    ensures b < 0 ==> b * q + b < a <= b * q
  {
    if b > 0 then a / b else (-a) / (-b)
  }

  /** Python's `int(x)` on a float: truncation towards zero. */
  function Trunc(x: real): (n: int)
    ensures x >= 0.0 ==> n >= 0 && n as real <= x < n as real + 1.0
    ensures x < 0.0 ==> n <= 0 && n as real - 1.0 < x <= n as real
  {
    if x >= 0.0 then x.Floor else -((-x).Floor)
  }

  /** Facts about Euclidean division by a positive divisor. */
  lemma DivModUnique(n: int, d: int, q: int, r: int)
    requires d > 0 && 0 <= r < d && n == q * d + r
    ensures n / d == q && n % d == r
  {
    var q' := n / d;
    var r' := n % d;
    assert n == q' * d + r';
    if q' > q {
      assert (q' - q) * d >= d by { MulMonotone(q' - q, 1, d); }
      assert false;
    } else if q' < q {
      assert (q - q') * d >= d by { MulMonotone(q - q', 1, d); }
      assert false;
    }
  }

  lemma MulMonotone(a: int, b: int, c: int)
    requires a >= b && c >= 0
    ensures a * c >= b * c
  {
  }

  lemma ConcatAssoc<T>(x: seq<T>, y: seq<T>, z: seq<T>)
    ensures (x + y) + z == x + (y + z)
  {
  }

  lemma FrontLast<T>(s: seq<T>)
    requires |s| > 0
    ensures s[..|s| - 1] + [s[|s| - 1]] == s
  {
  }
}
