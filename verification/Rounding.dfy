/** Rounding of reals to whole numbers. */
module Rounding {

  function Floor(x: real): real {
    x.Floor as real
  }

  function Ceil(x: real): real {
    -((-x).Floor as real)
  }

  predicate IsWhole(x: real) {
    Floor(x) == x
  }

  /** To the nearest whole number, halves away from zero. */
  function RoundHalfAway(x: real): real {
    if x >= 0.0 then Floor(x + 0.5) else -Floor(-x + 0.5)
  }

  lemma FloorBound(n: int, y: real)
    ensures n as real <= y <==> n <= y.Floor
  {}

  lemma NegatedInt(n: int)
    ensures (-n) as real == -(n as real)
  {}

  lemma WholeInt(n: int)
    ensures (n as real).Floor == n
  {}

  /** Against whole numbers a limit may as well be rounded inwards. */
  lemma WholeBounds(x: real, y: real)
    requires IsWhole(x)
    ensures y <= x <==> Ceil(y) <= x
    ensures x <= y <==> x <= Floor(y)
    ensures IsWhole(Ceil(y)) && IsWhole(Floor(y))
  {
    var n, m := x.Floor, (-y).Floor;
    FloorBound(n, y);
    FloorBound(-n, -y);
    NegatedInt(n);
    NegatedInt(m);
    WholeInt(y.Floor);
    WholeInt(-m);
  }

  lemma RoundIsWhole(x: real)
    ensures IsWhole(RoundHalfAway(x))
    ensures x - 0.5 <= RoundHalfAway(x) <= x + 0.5
  {
    WholeInt((x + 0.5).Floor);
    WholeInt(-(-x + 0.5).Floor);
    NegatedInt((-x + 0.5).Floor);
  }

  /** Half way between two whole numbers it goes to the one farther from zero; below zero as above. */
  lemma HalvesGoOut(x: real)
    ensures RoundHalfAway(-x) == -RoundHalfAway(x)
    ensures RoundHalfAway(x) == x - 0.5 ==> x < 0.0
    ensures RoundHalfAway(x) == x + 0.5 ==> x > 0.0
  {
    RoundIsWhole(x);
    RoundIsWhole(-x);
  }

  /** Rounding does not cross a whole number. */
  lemma RoundStaysWithin(x: real, lo: real, hi: real)
    requires IsWhole(lo) && IsWhole(hi) && lo <= x <= hi
    ensures lo <= RoundHalfAway(x) <= hi
  {
    var r := RoundHalfAway(x);
    RoundIsWhole(x);
    if r > hi { WholeApart(r, hi); }
    if lo > r { WholeApart(lo, r); }
  }

  lemma IntApart(m: int, n: int)
    requires m as real > n as real
    ensures m as real >= n as real + 1.0
  {
    assert m >= n + 1;
    assert (n + 1) as real == n as real + 1.0;
  }

  lemma WholeApart(a: real, b: real)
    requires IsWhole(a) && IsWhole(b) && a > b
    ensures a >= b + 1.0
  {
    IntApart(a.Floor, b.Floor);
  }
}
