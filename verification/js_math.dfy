/** JavaScript number semantics needed by the model: the IEEE special values
    as a datatype over `real`, the `<` comparison, and the integer helpers
    (`Math.floor`, `Math.ceil`, `Math.round`, `%`) as the source uses them. */
module JsMath {

  /** A JavaScript number. Finite values are exact reals: rounding is not modelled. */
  datatype Num = Fin(v: real) | PosInf | NegInf | NaN

  /** `Number.isFinite` */
  predicate IsFinite(a: Num) {
    a.Fin?
  }

  /** JavaScript `a < b`: false whenever either side is NaN. */
  predicate Less(a: Num, b: Num) {
    if a.NaN? || b.NaN? then false
    else if a.Fin? && b.Fin? then a.v < b.v
    else (a.NegInf? && !b.NegInf?) || (b.PosInf? && !a.PosInf?)
  }

  /** JavaScript `a <= b`: false whenever either side is NaN. */
  predicate LessEq(a: Num, b: Num) {
    !a.NaN? && !b.NaN? && !Less(b, a)
  }

  lemma LessEqTotal(a: Num, b: Num)
    requires !a.NaN? && !b.NaN?
    ensures LessEq(a, b) || LessEq(b, a)
    ensures Less(a, b) ==> LessEq(a, b)
  {
  }

  function Min(a: int, b: int): int {
    if a <= b then a else b
  }

  function Max(a: int, b: int): int {
    if a >= b then a else b
  }

  function MinR(a: real, b: real): real {
    if a <= b then a else b
  }

  function MaxR(a: real, b: real): real {
    if a >= b then a else b
  }

  lemma MulMonoLe(a: int, b: int, d: int)
    requires a <= b && d >= 0
    ensures a * d <= b * d
  {
  }

  /** `Math.ceil` on a real. */
  function Ceil(r: real): (c: int)
    ensures r <= c as real < r + 1.0
  {
    -((-r).Floor)
  }

  /** `Math.round`: halves go towards positive infinity. */
  function Round(r: real): (k: int)
    ensures r - 0.5 < k as real <= r + 0.5
  {
    (r + 0.5).Floor
  }

  /** `Math.ceil(n / d)` for a non-negative integer numerator. */
  function CeilDiv(n: nat, d: int): (q: nat)
    requires d >= 1
    ensures (q - 1) * d < n <= q * d
  {
    (n + d - 1) / d
  }

  /** JavaScript `a % b` for b > 0: the remainder takes the sign of the dividend,
      unlike Dafny's `%`, whose remainder is never negative. */
  function JsRem(a: int, b: int): (r: int)
    requires b > 0
    ensures a >= 0 ==> 0 <= r < b && r == a % b
    ensures a < 0 ==> -b < r <= 0
  {
    if a >= 0 then a % b else -((-a) % b)
  }
}

/** The Some/None wrapper for nullable JavaScript values. */
module Wrappers {
  datatype Option<+T> = None | Some(value: T)
}
