/** Products of reals and their signs, kept behind a name so that proofs see one fact at a time. */
module Reals {

  function Product(x: real, y: real): real { x * y }

  lemma SquareZeroIff(x: real)
    ensures Product(x, x) >= 0.0 && (Product(x, x) == 0.0 <==> x == 0.0)
  {
    SquarePositive(x);
    SquarePositive(-x);
    SquareOfNegation(x);
    hide Product;
    if x == 0.0 {
      ZeroSquare();
    }
  }

  lemma ZeroSquare()
    ensures Product(0.0, 0.0) == 0.0
  {
  }

  lemma SquarePositive(x: real)
    ensures x > 0.0 ==> Product(x, x) > 0.0
  {
    hide Product;
    if x > 0.0 {
      PositiveProduct(x, x);
    }
  }

  lemma PositiveProduct(x: real, y: real)
    requires x > 0.0 && y > 0.0
    ensures Product(x, y) > 0.0
  {
  }

  lemma SquareOfNegation(x: real)
    ensures Product(-x, -x) == Product(x, x)
  {
  }

  /** A number whose square is at most that of a positive one lies between it and its negation. */
  lemma SquareOrder(d: real, s: real)
    requires s > 0.0 && Product(d, d) <= Product(s, s)
    ensures -s <= d <= s
  {
    hide Product;
    SquareOfNegation(d);
    if d > s {
      LargerSquare(s, d);
    } else if -d > s {
      LargerSquare(s, -d);
    }
  }

  lemma LargerSquare(s: real, d: real)
    requires 0.0 < s < d
    ensures Product(s, s) < Product(d, d)
  {
    PositiveProduct(s, d - s);
    PositiveProduct(d, d - s);
    Between(s, d);
    hide Product;
  }

  lemma Between(s: real, d: real)
    ensures Product(s, s) + Product(s, d - s) + Product(d, d - s) == Product(d, d)
  {
  }

  /** Equal squares of numbers that are not negative come from equal numbers. */
  lemma RootIsUnique(x: real, y: real)
    requires x >= 0.0 && y >= 0.0 && Product(x, x) == Product(y, y)
    ensures x == y
  {
    hide Product;
    SquareZeroIff(x);
    SquareZeroIff(y);
    if 0.0 < x < y {
      LargerSquare(x, y);
    } else if 0.0 < y < x {
      LargerSquare(y, x);
    }
  }

  // ---------- Square roots ----------

  /** What math.Sqrt computes, without rounding. */
  ghost predicate IsRoot(sqrt: real -> real) {
    forall x :: x >= 0.0 ==> sqrt(x) >= 0.0 && Product(sqrt(x), sqrt(x)) == x
  }

  lemma RootPositive(sqrt: real -> real, x: real)
    requires IsRoot(sqrt) && x > 0.0
    ensures sqrt(x) > 0.0
  {
    SquareZeroIff(sqrt(x));
  }
}
