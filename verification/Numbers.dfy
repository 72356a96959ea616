/** Small arithmetic the other modules share. */
module Numbers {
  function Max(a: int, b: int): int { if a < b then b else a }

  function Min(a: int, b: int): int { if a < b then a else b }

  /** Halves away from zero, as `f32::round`. */
  function Round(x: real): int {
    if x >= 0.0 then (x + 0.5).Floor else -((0.5 - x).Floor)
  }

  /** The one nearest whole number, and of two as near the one further from zero. */
  lemma RoundIsNearest(x: real, n: int)
    ensures n == Round(x) <==>
      && -0.5 <= x - n as real <= 0.5
      && (x - n as real == 0.5 ==> x < 0.0) && (x - n as real == -0.5 ==> x > 0.0)
  {
    var r := Round(x);
    assert -0.5 <= x - r as real <= 0.5;
  }
}
