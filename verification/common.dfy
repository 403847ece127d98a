/** Small wrappers shared by the calculators: an optional value and a result
    that is either a value or the reason the form was refused. */
module Wrappers {
  datatype Option<+T> = None | Some(value: T)

  datatype Result<+T, +E> = Ok(value: T) | Err(error: E)
}

/** The parts of JavaScript number semantics the calculators depend on.
    Dafny's `/` and `%` on `int` are Euclidean; JavaScript's `%` truncates
    toward zero, and `Math.floor` on a real quotient is floor division. */
module JsNumber {
  function Max(a: int, b: int): (r: int)
    ensures r >= a && r >= b && (r == a || r == b)
  {
    if a >= b then a else b
  }

  function Min(a: int, b: int): (r: int)
    ensures r <= a && r <= b && (r == a || r == b)
  {
    if a <= b then a else b
  }

  /** `Math.trunc` of a real: rounds toward zero. */
  function Trunc(x: real): (r: int)
    ensures x >= 0.0 ==> r as real <= x < r as real + 1.0
    ensures x < 0.0 ==> r as real - 1.0 < x <= r as real
  {
    if x >= 0.0 then x.Floor else -((-x).Floor)
  }

  /** JavaScript `a % b` on integers: the remainder of division truncated
      toward zero, so it takes the sign of the dividend. */
  function Rem(a: int, b: int): (r: int)
    requires b > 0
    ensures (a - r) % b == 0
    ensures a >= 0 ==> 0 <= r < b
    ensures a < 0 ==> -b < r <= 0
  {
    if a >= 0 then
      var q := a / b;
      assert a - a % b == b * q;
      MultipleHasNoRemainder(q, b);
      a % b
    else
      var q := (-a) / b;
      assert a + (-a) % b == b * -q;
      MultipleHasNoRemainder(-q, b);
      -((-a) % b)
  }

  lemma MultipleHasNoRemainder(q: int, b: int)
    requires b > 0
    ensures (b * q) % b == 0
  {
    var n := b * q;
    var q', s := n / b, n % b;
    assert n == b * q' + s && 0 <= s < b;
    assert b * (q - q') == s;
    if q - q' != 0 {
      if q - q' > 0 {
        MulMonotone(1, q - q', b);
      } else {
        MulMonotone(q - q', -1, b);
      }
    }
  }

  lemma MulMonotone(a: int, b: int, c: int)
    requires a <= b && c >= 0
    ensures a * c <= b * c
  {
    assert b * c - a * c == (b - a) * c;
  }

  /** JavaScript `x % 1` on a real: the fractional part with the sign of x. */
  function FracPart(x: real): (r: real)
    ensures x >= 0.0 ==> 0.0 <= r < 1.0
    ensures x < 0.0 ==> -1.0 < r <= 0.0
    ensures (x - r).Floor as real == x - r
  {
    x - Trunc(x) as real
  }
}

/** What a calculator reads from one numeric text box. `Blank` is the empty
    string (falsy, so a required field is refused); `Text(None)` is text that
    `parseInt` turns into NaN; `Text(Some(n))` parses to `n`. */
module Forms {
  import opened Wrappers

  datatype NumField = Blank | Text(parsed: Option<int>)

  /** `parseInt(field) || 0`: NaN and the empty string both become 0. */
  function ParseOrZero(f: NumField): (n: int)
    ensures f.Text? && f.parsed.Some? ==> n == f.parsed.value
    ensures !(f.Text? && f.parsed.Some?) ==> n == 0
  {
    match f
    case Text(Some(v)) => v
    case _ => 0
  }

  /** Why a calculator refused to compute (the `alert` branch). */
  datatype FormError = MissingRequiredInput
}
