/** What the models share: optional values and the conversion of a float to an integer. */
module Basics {

  datatype Option<+T> = None | Some(value: T)

  /** Toward zero. */
  function Trunc(x: real): int
  {
    if x >= 0.0 then x.Floor else -((-x).Floor)
  }

  /** `m` is `x` cut toward zero. */
  predicate Cut(x: real, m: int)
  {
    if x >= 0.0 then m as real <= x < (m + 1) as real else (m - 1) as real < x <= m as real
  }

  lemma TruncCuts(x: real)
    ensures Cut(x, Trunc(x))
    ensures x <= -1.0 || 1.0 <= x ==> Trunc(x) != 0
  {
  }
}
