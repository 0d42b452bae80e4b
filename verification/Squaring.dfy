/** Squares of reals. */
module Squaring {

  function Times(a: real, b: real): real {
    a * b
  }

  function Square(a: real): real {
    Times(a, a)
  }

  lemma SquareIsZero(a: real)
    ensures Square(a) >= 0.0
    ensures Square(a) <= 0.0 <==> a == 0.0
  {
    hide Square, Times;
    if a == 0.0 { ZeroSquare(a); } else { NonzeroSquare(a); }
  }

  lemma SameSigns(a: real, b: real)
    requires (a > 0.0 && b > 0.0) || (a < 0.0 && b < 0.0)
    ensures Times(a, b) > 0.0
  {}

  lemma NonzeroSquare(a: real)
    requires a != 0.0
    ensures Square(a) > 0.0
  {
    hide Times;
    SameSigns(a, a);
  }

  lemma ZeroSquare(a: real)
    requires a == 0.0
    ensures Square(a) == 0.0
  {}
}
