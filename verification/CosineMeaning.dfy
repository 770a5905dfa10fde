/**
  What the score measures: the law of cosines ties it to lengths and distances, which are
  sums of squares of their own. So a vector scores 1 with itself, and among candidates of
  length 1 the nearer one is ranked first.
 */
module CosineMeaning {
  import opened Results
  import opened Text
  import opened Reals
  import opened Search
  import opened Ranking
  import opened Mixing

  /** Component by component. */
  function Minus(a: seq<real>, b: seq<real>): (r: seq<real>)
    requires |a| == |b|
    ensures |r| == |a|
  {
    seq(|a|, i requires 0 <= i < |a| => a[i] - b[i])
  }

  /** The squared distance of two vectors. */
  function Distance2(a: seq<real>, b: seq<real>): real
    requires |a| == |b|
  {
    SumSquares(Minus(a, b))
  }

  lemma {:induction false} DotIsSumSquares(a: seq<real>)
    ensures Dot(a, a) == SumSquares(a)
  {
    if a != [] {
      DotIsSumSquares(a[..|a| - 1]);
    }
  }

  lemma DifferenceSquared(x: real, y: real)
    ensures (x - y) * (x - y) == x * x + y * y - 2.0 * Product(x, y)
  {
  }

  lemma {:induction false} DistanceByDot(a: seq<real>, b: seq<real>)
    requires |a| == |b|
    ensures Distance2(a, b) == SumSquares(a) + SumSquares(b) - 2.0 * Dot(a, b)
  {
    hide Product;
    if a == [] {
      assert Minus(a, b) == [];
    } else {
      var n := |a| - 1;
      DistanceByDot(a[..n], b[..n]);
      assert Minus(a, b)[..n] == Minus(a[..n], b[..n]);
      DifferenceSquared(a[n], b[n]);
    }
  }

  lemma QuotientTimes(d: real, s: real)
    requires s != 0.0
    ensures Product(d / s, s) == d
  {
  }

  lemma {:induction false} DotWithZeros(a: seq<real>, b: seq<real>)
    requires |a| == |b| && SumSquares(a) == 0.0
    ensures Dot(a, b) == 0.0
  {
    hide Product;
    SumSquaresZeroIff(a);
    if a != [] {
      var n := |a| - 1;
      SumSquaresZeroIff(a[..n]);
      DotWithZeros(a[..n], b[..n]);
      ZeroTimes(b[n]);
    }
  }

  lemma ZeroTimes(y: real)
    ensures Product(0.0, y) == 0.0 && Product(y, 0.0) == 0.0
  {
  }

  lemma RootOfZero(sqrt: real -> real)
    requires IsRoot(sqrt)
    ensures sqrt(0.0) == 0.0
  {
    SquareZeroIff(sqrt(0.0));
  }

  // The dot product is the score times both lengths.
  lemma ScoreTimesLengths(sqrt: real -> real, a: seq<real>, b: seq<real>)
    requires IsRoot(sqrt) && |a| == |b|
    ensures Dot(a, b) == Product(Cosine(sqrt, a, b), Product(sqrt(SumSquares(a)), sqrt(SumSquares(b))))
  {
    hide Product, Dot, SumSquares;
    DotIsSumSquares(a);
    DotIsSumSquares(b);
    if SumSquares(a) == 0.0 {
      DotWithZeros(a, b);
      RootOfZero(sqrt);
      ZeroTimes(sqrt(SumSquares(b)));
      ZeroTimes(Cosine(sqrt, a, b));
    } else if SumSquares(b) == 0.0 {
      DotWithZeros(b, a);
      DotCommutes(a, b);
      RootOfZero(sqrt);
      ZeroTimes(sqrt(SumSquares(a)));
      ZeroTimes(Cosine(sqrt, a, b));
    } else {
      RootPositive(sqrt, SumSquares(a));
      RootPositive(sqrt, SumSquares(b));
      PositiveProduct(sqrt(SumSquares(a)), sqrt(SumSquares(b)));
      QuotientTimes(Dot(a, b), Product(sqrt(SumSquares(a)), sqrt(SumSquares(b))));
    }
  }

  /** The law of cosines, for vectors of any length and direction. */
  lemma LawOfCosines(sqrt: real -> real, a: seq<real>, b: seq<real>)
    requires IsRoot(sqrt) && |a| == |b|
    ensures Distance2(a, b) ==
              SumSquares(a) + SumSquares(b) - 2.0 * Product(Cosine(sqrt, a, b), Product(sqrt(SumSquares(a)), sqrt(SumSquares(b))))
  {
    hide Product, Dot, SumSquares, Cosine, Distance2;
    DistanceByDot(a, b);
    ScoreTimesLengths(sqrt, a, b);
  }

  lemma RootOfOne(sqrt: real -> real)
    requires IsRoot(sqrt)
    ensures sqrt(1.0) == 1.0
  {
    RootIsUnique(sqrt(1.0), 1.0);
  }

  lemma TimesOne(x: real)
    ensures Product(x, Product(1.0, 1.0)) == x
  {
  }

  /** For vectors of length 1 the squared distance is 2 - 2 * score. */
  lemma UnitDistance(sqrt: real -> real, a: seq<real>, b: seq<real>)
    requires IsRoot(sqrt) && |a| == |b| && SumSquares(a) == 1.0 && SumSquares(b) == 1.0
    ensures Distance2(a, b) == 2.0 - 2.0 * Cosine(sqrt, a, b)
  {
    hide Product, Dot, SumSquares, Cosine, Distance2;
    LawOfCosines(sqrt, a, b);
    RootOfOne(sqrt);
    TimesOne(Cosine(sqrt, a, b));
  }

  /** A vector that is not all zero scores 1 with itself; with an all-zero vector every score is 0. */
  lemma ScoreWithItself(sqrt: real -> real, a: seq<real>)
    requires IsRoot(sqrt)
    ensures Cosine(sqrt, a, a) == if exists i :: 0 <= i < |a| && a[i] != 0.0 then 1.0 else 0.0
  {
    hide Dot, SumSquares;
    DotIsSumSquares(a);
    SumSquaresZeroIff(a);
    if SumSquares(a) != 0.0 {
      var m := SumSquares(a);
      RootPositive(sqrt, m);
      assert Product(sqrt(m), sqrt(m)) == m;
      SelfQuotient(m);
    }
  }

  lemma SelfQuotient(m: real)
    requires m != 0.0
    ensures m / m == 1.0
  {
    var q := m / m;
    assert q * m == m;
  }

  lemma ScoreWithZeros(sqrt: real -> real, a: seq<real>, b: seq<real>)
    requires IsRoot(sqrt) && |a| == |b| && forall i :: 0 <= i < |a| ==> a[i] == 0.0
    ensures Cosine(sqrt, a, b) == 0.0 && Cosine(sqrt, b, a) == 0.0
  {
    hide Product, Dot, SumSquares;
    DotIsSumSquares(a);
    SumSquaresZeroIff(a);
  }

  // ---------- Nearer candidates ----------

  lemma LessBySlope(k: real, c: real, d: real)
    requires k > 0.0 && 2.0 * Product(c, k) > 2.0 * Product(d, k)
    ensures c > d
  {
    hide Product;
    Monotone(k, c, d);
  }

  lemma Monotone(k: real, c: real, d: real)
    requires k > 0.0
    ensures c <= d ==> Product(c, k) <= Product(d, k)
  {
    if c <= d {
      assert (d - c) * k >= 0.0;
    }
  }

  /** Of two candidates of length 1 the nearer one scores higher, whatever the length of the query. */
  lemma NearerScoresHigher(sqrt: real -> real, query: seq<real>, a: seq<real>, b: seq<real>)
    requires IsRoot(sqrt) && |a| == |query| && |b| == |query|
    requires SumSquares(a) == 1.0 && SumSquares(b) == 1.0 && SumSquares(query) > 0.0
    requires Distance2(query, a) < Distance2(query, b)
    ensures Cosine(sqrt, query, a) > Cosine(sqrt, query, b)
  {
    hide Product, Dot, SumSquares, Cosine, Distance2;
    LawOfCosines(sqrt, query, a);
    LawOfCosines(sqrt, query, b);
    RootOfOne(sqrt);
    RootPositive(sqrt, SumSquares(query));
    PositiveProduct(sqrt(SumSquares(query)), 1.0);
    PositiveProduct(1.0, 1.0);
    LessBySlope(Product(sqrt(SumSquares(query)), 1.0), Cosine(sqrt, query, a), Cosine(sqrt, query, b));
  }

  /**
    Among candidates of length 1, whenever a search returns a candidate it returns every
    nearer one too, at an earlier place.
   */
  lemma NearerIsRankedFirst(
    sqrt: real -> real, query: seq<real>, candidates: map<string, seq<real>>, limit: nat, answer: seq<Match>,
    near: string, far: string, k: nat)
    requires IsRoot(sqrt) && SameDimension(query, candidates) && IsAnswer(sqrt, query, candidates, limit, answer)
    requires near in candidates && far in candidates && SumSquares(query) > 0.0
    requires SumSquares(candidates[near]) == 1.0 && SumSquares(candidates[far]) == 1.0
    requires Distance2(query, candidates[near]) < Distance2(query, candidates[far])
    requires k < |answer| && answer[k].id == far
    ensures exists j :: 0 <= j < k && answer[j].id == near
  {
    hide Cosine, Before, IsRoot, SumSquares, Distance2;
    NearerScoresHigher(sqrt, query, candidates[near], candidates[far]);
    var full :| RanksAll(sqrt, query, candidates, full) && answer == Cut(full, limit);
    assert full[k] in full;
    var m := Match(near, Cosine(sqrt, query, candidates[near]));
    assert m in full;
    var j :| 0 <= j < |full| && full[j] == m;
    HigherFirst(m, full[k]);
    BeforeIsStrict(m, full[k]);
    assert j < k;
  }

  lemma HigherFirst(a: Match, b: Match)
    requires a.score > b.score
    ensures Before(a, b) && a != b
  {
  }
}
