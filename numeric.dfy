/** JavaScript's `Math.round` applied to a ratio of naturals, in integer arithmetic. */
module Numeric {

  /** `Math.round(x / d)`: the integer nearest to x/d, halves rounding up. */
  function RoundDiv(x: nat, d: nat): (r: nat)
    requires d > 0
    ensures -(d as int) <= 2 * (x - r * d) < d
  {
    var q := (2 * x + d) / (2 * d);
    assert 2 * d * q <= 2 * x + d < 2 * d * q + 2 * d;
    q
  }

  lemma ScaleMono(a: nat, b: nat, t: nat)
    requires a <= b
    ensures a * t <= b * t
  {}

  /** `total > 0 ? Math.round(correct / total * 100) : 0`, the accuracy formula every store
      uses; it is a percentage whenever correct <= total. */
  function Percent(correct: nat, total: nat): (r: nat)
    ensures total == 0 ==> r == 0
    ensures correct <= total ==> r <= 100
    ensures correct == 0 ==> r == 0
    ensures 0 < total == correct ==> r == 100
  {
    if total == 0 then 0
    else
      var r := RoundDiv(100 * correct, total);
      PercentBounds(correct, total, r);
      r
  }

  /** The percentage is 100 * correct / total rounded to the nearest integer. */
  lemma PercentRounds(correct: nat, total: nat)
    requires total > 0
    ensures var r := Percent(correct, total);
            -(total as int) <= 2 * (100 * correct - r * total) < total
  {}

  lemma PercentBounds(c: nat, t: nat, r: nat)
    requires t > 0
    requires -(t as int) <= 2 * (100 * c - r * t) < t
    ensures c <= t ==> r <= 100
    ensures c == 0 ==> r == 0
    ensures c == t ==> r == 100
  {
    if r >= 101 {
      ScaleMono(101, r, t);
      assert c > t;
    }
    if r >= 1 {
      ScaleMono(1, r, t);
      assert c > 0;
    }
    if r <= 99 {
      ScaleMono(r, 99, t);
      assert c < t;
    }
  }
}
