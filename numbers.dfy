/**
 * JavaScript numbers as far as the forms and the performance figures need them.
 * `parseFloat` is not re-implemented: it is a parameter of type `Parser`, and
 * `None` stands for the `NaN` it returns on text that does not start with a number.
 */
module Numbers {
  import opened Wrappers

  /** An abstract `parseFloat`: `Some(v)` when the text parses to `v`, `None` for `NaN`. */
  type Parser = string -> Option<real>

  /**
   * The rejecting guard `!s || parseFloat(s) <= 0` of the action form.
   * `NaN <= 0` is false in JavaScript, so text that does not parse is NOT rejected here.
   */
  predicate RejectsAmount(parse: Parser, s: string): (r: bool)
    ensures !r <==> s != "" && (parse(s).None? || parse(s).value > 0.0)
  {
    s == "" || (parse(s).Some? && parse(s).value <= 0.0)
  }

  /**
   * The rejecting guard `isNaN(v) || v < 0` with `v = parseFloat(s)` of the settings form:
   * unlike the amount guard it refuses `NaN`, and it lets a zero fee through.
   */
  predicate RejectsFee(parse: Parser, s: string): (r: bool)
    ensures !r <==> parse(s).Some? && parse(s).value >= 0.0
    ensures parse(s) == Some(0.0) ==> !r
  {
    parse(s).None? || parse(s).value < 0.0
  }

  /** A JavaScript number produced by an arithmetic operation: finite, `NaN` or an infinity. */
  datatype JsNumber = Finite(value: real) | NaN | Infinity(positive: bool)

  /** JavaScript's `a / b` on finite operands (IEEE division, without rounding). */
  function Divide(a: real, b: real): JsNumber
  {
    if b != 0.0 then Finite(a / b)
    else if a == 0.0 then NaN
    else Infinity(a > 0.0)
  }

  /** JavaScript's `x * k` for a finite positive factor `k`. */
  function Scale(x: JsNumber, k: real): JsNumber
    requires k > 0.0
  {
    match x
    case Finite(v) => Finite(v * k)
    case _ => x
  }
}
