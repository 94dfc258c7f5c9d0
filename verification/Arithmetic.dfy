/**
 The few facts about integers that several parts share.
 */
module Arithmetic {

  function Min(a: int, b: int): int {
    if a <= b then a else b
  }

  function Max(a: int, b: int): int {
    if a <= b then b else a
  }

  lemma MulMonotone(a: nat, b: nat, t: nat)
    requires a <= b
    ensures a * t <= b * t
  {
    assert (b - a) * t >= 0;
  }

  lemma DivFloor(i: nat, t: nat)
    requires t > 0
    ensures (i / t) * t <= i < (i / t) * t + t
  {
  }
}
