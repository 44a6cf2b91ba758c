/** Rust's integer operators where they differ from Dafny's.
    Rust's `/` and `%` on signed integers truncate toward zero, whereas Dafny's
    are Euclidean; the two agree only on non-negative dividends. The width of
    the Rust types (i32, i64, usize) is not modelled: values are unbounded. */
module RustInt {

  /** `a / b` in Rust, for a positive divisor: the quotient rounded toward zero. */
  function Div(a: int, b: int): int
    requires b > 0
  {
    if a >= 0 then a / b else -((-a) / b)
  }

  /** `a % b` in Rust, for a positive divisor. */
  function Rem(a: int, b: int): int
    requires b > 0
  {
    a - Div(a, b) * b
  }

  /** Rust's quotient is `a / b` rounded toward zero: `q * b` is the multiple
      of `b` nearest to `a` on the side of zero, and the remainder takes the
      sign of `a` and is smaller than `b` in magnitude. */
  lemma DivRemSpec(a: int, b: int)
    requires b > 0
    ensures a == Div(a, b) * b + Rem(a, b)
    ensures a >= 0 ==> 0 <= Div(a, b) * b <= a < Div(a, b) * b + b
    ensures a < 0 ==> Div(a, b) * b - b < a <= Div(a, b) * b <= 0
    ensures a >= 0 ==> 0 <= Rem(a, b) < b
    ensures a < 0 ==> -b < Rem(a, b) <= 0
  {
    var n := if a >= 0 then a else -a;
    EuclidNonNegative(n, b);
  }

  /** For a non-negative dividend, Dafny's quotient is non-negative and its
      multiple of `b` lies within `b` below the dividend. */
  lemma EuclidNonNegative(n: int, b: int)
    requires n >= 0 && b > 0
    ensures 0 <= (n / b) * b <= n < (n / b) * b + b
  {
    var q := n / b;
    assert n == q * b + n % b && 0 <= n % b < b;
    MulCancel(q, -1, b);
    MulMonotone(0, q, b);
  }

  /** Multiplying by a positive number keeps the order. */
  lemma MulMonotone(x: int, y: int, b: int)
    requires b > 0
    ensures x <= y ==> x * b <= y * b
  {
    assert y * b - x * b == (y - x) * b;
  }

  /** A positive factor can be cancelled from a strict inequality. */
  lemma MulCancel(x: int, y: int, b: int)
    requires b > 0
    ensures x * b > y * b ==> x > y
  {
    MulMonotone(x, y, b);
  }

  /** Truncating division is odd in the dividend, unlike Euclidean division. */
  lemma DivOdd(a: int, b: int)
    requires b > 0
    ensures Div(-a, b) == -Div(a, b)
    ensures Rem(-a, b) == -Rem(a, b)
  {
  }

  /** `i64::signum`. */
  function Signum(x: int): (s: int)
    ensures s == -1 || s == 0 || s == 1
    ensures s == 0 <==> x == 0
    ensures s > 0 <==> x > 0
  {
    if x > 0 then 1 else if x < 0 then -1 else 0
  }

  /** `i64::abs`, as the unsigned magnitude the source casts it to. */
  function Abs(x: int): (r: nat)
    ensures r == x || r == -x
    ensures r == 0 <==> x == 0
  {
    if x < 0 then -x else x
  }

  /** Signum is odd: swapping the operands of a difference negates it. */
  lemma SignumAntisymmetric(a: int, b: int)
    ensures Signum(b - a) == -Signum(a - b)
  {
  }

  /** Truncation and Euclidean division part ways on negative dividends:
      `-7 / 2` is `-3` in Rust but `-4` in Dafny. */
  lemma TruncationDiffersBelowZero()
    ensures Div(-7, 2) == -3 && -7 / 2 == -4
    ensures Rem(-7, 2) == -1 && -7 % 2 == 1
  {
  }
}
