/** JavaScript values the scraping core computes with. A JavaScript number is
    modelled as NaN or a mathematical real: IEEE rounding, infinities and the
    sign of zero are abstracted away. */
module Js {

  /** A value that may be `undefined` (or `null`). */
  datatype Option<+T> = None | Some(value: T) {

    /** `x || fallback` for a value whose only falsy form is absence. */
    function GetOr(fallback: T): T {
      match this
      case Some(v) => v
      case None => fallback
    }
  }

  /** A JavaScript number. */
  datatype Num = NaN | Real(value: real)

  /** Truthiness of a number: NaN and zero are falsy. */
  predicate Truthy(n: Num) {
    n.Real? && n.value != 0.0
  }

  /** `n || 0`: a falsy number becomes zero. */
  function OrZero(n: Num): real {
    if Truthy(n) then n.value else 0.0
  }

  /** `Math.min` on two numbers. */
  function MinReal(a: real, b: real): real {
    if a <= b then a else b
  }

  /** `Math.max` on two numbers. */
  function MaxReal(a: real, b: real): real {
    if a >= b then a else b
  }

  /** `Math.max` on two integers. */
  function MaxInt(a: int, b: int): int {
    if a >= b then a else b
  }

  /** The WhiteSpace and LineTerminator code points of ECMA-262: what the
      regular-expression class `\s` matches and what `parseInt` skips. */
  predicate IsSpace(c: char) {
    var n := c as int;
    || n == 0x09 || n == 0x0A || n == 0x0B || n == 0x0C || n == 0x0D
    || n == 0x20 || n == 0xA0 || n == 0x1680
    || (0x2000 <= n <= 0x200A)
    || n == 0x2028 || n == 0x2029 || n == 0x202F || n == 0x205F
    || n == 0x3000 || n == 0xFEFF
  }
}
