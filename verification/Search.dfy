/**
  Similarity search: the cosine of two vectors, over the reals, and the ranking of the
  candidates by it.
 */
module Search {
  import opened Results
  import opened Text
  import opened Reals

  // ---------- The three accumulators ----------

  function Dot(a: seq<real>, b: seq<real>): real
    requires |a| == |b|
  {
    if a == [] then 0.0 else Dot(a[..|a| - 1], b[..|b| - 1]) + Product(a[|a| - 1], b[|b| - 1])
  }

  lemma {:induction false} MagnitudeNotNegative(a: seq<real>)
    ensures Dot(a, a) >= 0.0
  {
    hide Product;
    if a != [] {
      MagnitudeNotNegative(a[..|a| - 1]);
      SquareZeroIff(a[|a| - 1]);
    }
  }

  /** cosineSimilarity */
  function Cosine(sqrt: real -> real, a: seq<real>, b: seq<real>): real
    requires IsRoot(sqrt) && |a| == |b|
  {
    if Dot(a, a) == 0.0 || Dot(b, b) == 0.0 then 0.0
    else
      MagnitudeNotNegative(a);
      MagnitudeNotNegative(b);
      RootPositive(sqrt, Dot(a, a));
      RootPositive(sqrt, Dot(b, b));
      PositiveProduct(sqrt(Dot(a, a)), sqrt(Dot(b, b)));
      Dot(a, b) / Product(sqrt(Dot(a, a)), sqrt(Dot(b, b)))
  }

  lemma DotSnoc(a: seq<real>, b: seq<real>, x: real, y: real)
    requires |a| == |b|
    ensures Dot(a + [x], b + [y]) == Dot(a, b) + Product(x, y)
  {
    assert (a + [x])[..|a|] == a && (b + [y])[..|b|] == b;
  }

  /** The loop of cosineSimilarity, with its three accumulators. */
  method CosineSimilarity(sqrt: real -> real, a: seq<real>, b: seq<real>) returns (r: real)
    requires IsRoot(sqrt) && |a| == |b|
    ensures r == Cosine(sqrt, a, b)
  {
    hide Product, IsRoot;
    var dot, magA, magB := 0.0, 0.0, 0.0;
    for i := 0 to |a|
      invariant dot == Dot(a[..i], b[..i])
      invariant magA == Dot(a[..i], a[..i])
      invariant magB == Dot(b[..i], b[..i])
    {
      DotSnoc(a[..i], b[..i], a[i], b[i]);
      DotSnoc(a[..i], a[..i], a[i], a[i]);
      DotSnoc(b[..i], b[..i], b[i], b[i]);
      assert a[..i + 1] == a[..i] + [a[i]] && b[..i + 1] == b[..i] + [b[i]];
      dot := dot + Product(a[i], b[i]);
      magA := magA + Product(a[i], a[i]);
      magB := magB + Product(b[i], b[i]);
    }
    assert a[..|a|] == a && b[..|b|] == b;
    MagnitudeNotNegative(a);
    MagnitudeNotNegative(b);
    if magA == 0.0 || magB == 0.0 {
      return 0.0;
    }
    RootPositive(sqrt, magA);
    RootPositive(sqrt, magB);
    PositiveProduct(sqrt(magA), sqrt(magB));
    return dot / Product(sqrt(magA), sqrt(magB));
  }

  // ---------- Cauchy-Schwarz ----------

  // The squared length of t*a - b, as a polynomial in t.
  function Quadratic(magA: real, dot: real, magB: real, t: real): real {
    magA * (t * t) - 2.0 * dot * t + magB
  }

  lemma QuadraticStep(magA: real, dot: real, magB: real, x: real, y: real, t: real)
    ensures Quadratic(magA + Product(x, x), dot + Product(x, y), magB + Product(y, y), t) >= Quadratic(magA, dot, magB, t)
  {
    SquareZeroIff(x * t - y);
    QuadraticGrows(magA, dot, magB, x, y, t);
  }

  lemma QuadraticGrows(magA: real, dot: real, magB: real, x: real, y: real, t: real)
    ensures Quadratic(magA + Product(x, x), dot + Product(x, y), magB + Product(y, y), t) ==
              Quadratic(magA, dot, magB, t) + Product(x * t - y, x * t - y)
  {
    assert (x * t - y) * (x * t - y) == (x * x) * (t * t) - 2.0 * (x * y) * t + y * y;
    assert (magA + x * x) * (t * t) == magA * (t * t) + (x * x) * (t * t);
    assert 2.0 * (dot + x * y) * t == 2.0 * dot * t + 2.0 * (x * y) * t;
  }

  lemma {:induction false} QuadraticNotNegative(a: seq<real>, b: seq<real>, t: real)
    requires |a| == |b|
    ensures Quadratic(Dot(a, a), Dot(a, b), Dot(b, b), t) >= 0.0
  {
    hide Product, Quadratic;
    if a == [] {
      QuadraticOfNothing(t);
    } else {
      var n := |a| - 1;
      var magA, dot, magB := Dot(a[..n], a[..n]), Dot(a[..n], b[..n]), Dot(b[..n], b[..n]);
      QuadraticNotNegative(a[..n], b[..n], t);
      QuadraticStep(magA, dot, magB, a[n], b[n], t);
      assert Dot(a, a) == magA + Product(a[n], a[n]);
      assert Dot(a, b) == dot + Product(a[n], b[n]);
      assert Dot(b, b) == magB + Product(b[n], b[n]);
    }
  }

  lemma QuadraticOfNothing(t: real)
    ensures Quadratic(0.0, 0.0, 0.0, t) == 0.0
  {
  }

  // At its minimum the polynomial shows the discriminant.
  lemma QuadraticMinimum(magA: real, dot: real, magB: real)
    requires magA > 0.0
    ensures Quadratic(magA, dot, magB, dot / magA) * magA == magA * magB - dot * dot
  {
    var t := dot / magA;
    assert magA * t == dot;
    assert magA * (t * t) == dot * t;
    assert Quadratic(magA, dot, magB, t) == magB - dot * t;
    assert (dot * t) * magA == dot * (magA * t);
  }

  lemma QuadraticOfZero(dot: real, magB: real)
    requires dot != 0.0
    ensures Quadratic(0.0, dot, magB, (magB + 1.0) / (2.0 * dot)) == -1.0
  {
    var t := (magB + 1.0) / (2.0 * dot);
    assert 2.0 * dot * t == magB + 1.0;
  }

  lemma ProductNotNegative(x: real, y: real)
    requires x >= 0.0 && y > 0.0
    ensures x * y >= 0.0
  {
  }

  /** For vectors of any length, the squared dot product is at most the product of the magnitudes. */
  lemma CauchySchwarz(a: seq<real>, b: seq<real>)
    requires |a| == |b|
    ensures Product(Dot(a, b), Dot(a, b)) <= Product(Dot(a, a), Dot(b, b))
  {
    hide Quadratic, Dot;
    var magA, dot, magB := Dot(a, a), Dot(a, b), Dot(b, b);
    MagnitudeNotNegative(a);
    if magA > 0.0 {
      QuadraticNotNegative(a, b, dot / magA);
      QuadraticMinimum(magA, dot, magB);
      ProductNotNegative(Quadratic(magA, dot, magB, dot / magA), magA);
    } else if dot != 0.0 {
      QuadraticNotNegative(a, b, (magB + 1.0) / (2.0 * dot));
      QuadraticOfZero(dot, magB);
    }
  }

  lemma RootsMultiply(sqrt: real -> real, x: real, y: real)
    requires IsRoot(sqrt) && x > 0.0 && y > 0.0
    ensures Product(Product(sqrt(x), sqrt(y)), Product(sqrt(x), sqrt(y))) == Product(x, y)
  {
    var p, q := sqrt(x), sqrt(y);
    assert Product(p, p) == x && Product(q, q) == y;
    assert (p * q) * (p * q) == (p * p) * (q * q);
  }

  lemma QuotientInRange(d: real, s: real)
    requires s > 0.0 && -s <= d <= s
    ensures -1.0 <= d / s <= 1.0
  {
    var q := d / s;
    assert q * s == d;
  }

  /** Every score lies between -1 and 1. */
  lemma CosineInRange(sqrt: real -> real, a: seq<real>, b: seq<real>)
    requires IsRoot(sqrt) && |a| == |b|
    ensures -1.0 <= Cosine(sqrt, a, b) <= 1.0
  {
    hide Product, Dot;
    MagnitudeNotNegative(a);
    MagnitudeNotNegative(b);
    if Dot(a, a) > 0.0 && Dot(b, b) > 0.0 {
      CauchySchwarz(a, b);
      RootPositive(sqrt, Dot(a, a));
      RootPositive(sqrt, Dot(b, b));
      var s := Product(sqrt(Dot(a, a)), sqrt(Dot(b, b)));
      PositiveProduct(sqrt(Dot(a, a)), sqrt(Dot(b, b)));
      RootsMultiply(sqrt, Dot(a, a), Dot(b, b));
      SquareOrder(Dot(a, b), s);
      QuotientInRange(Dot(a, b), s);
    }
  }

  // ---------- Scaling ----------

  function Times(k: real, a: seq<real>): (r: seq<real>)
    ensures |r| == |a|
  {
    seq(|a|, i requires 0 <= i < |a| => Product(k, a[i]))
  }

  lemma TimesSnoc(k: real, a: seq<real>)
    requires a != []
    ensures Times(k, a) == Times(k, a[..|a| - 1]) + [Product(k, a[|a| - 1])]
  {
    hide Product;
  }

  lemma {:induction false} DotScales(k: real, a: seq<real>, b: seq<real>)
    requires |a| == |b|
    ensures Dot(Times(k, a), b) == Product(k, Dot(a, b))
    ensures Dot(Times(k, a), Times(k, a)) == Product(Product(k, k), Dot(a, a))
  {
    hide Product, Times;
    if a == [] {
      ZeroProducts(k);
    } else {
      var n := |a| - 1;
      DotScales(k, a[..n], b[..n]);
      TimesSnoc(k, a);
      var rest, x := Times(k, a[..n]), Product(k, a[n]);
      assert b == b[..n] + [b[n]];
      DotSnoc(rest, b[..n], x, b[n]);
      DotSnoc(rest, rest, x, x);
      Distribute(k, Dot(a[..n], b[..n]), a[n], b[n]);
      DistributeSquare(k, Dot(a[..n], a[..n]), a[n]);
    }
  }

  lemma ZeroProducts(k: real)
    ensures Product(k, 0.0) == 0.0 && Product(Product(k, k), 0.0) == 0.0
  {
  }

  lemma Distribute(k: real, d: real, x: real, y: real)
    ensures Product(k, d) + Product(Product(k, x), y) == Product(k, d + Product(x, y))
  {
    assert k * (d + x * y) == k * d + k * (x * y);
    assert (k * x) * y == k * (x * y);
  }

  lemma DistributeSquare(k: real, d: real, x: real)
    ensures Product(Product(k, k), d) + Product(Product(k, x), Product(k, x)) == Product(Product(k, k), d + Product(x, x))
  {
    assert (k * k) * (d + x * x) == (k * k) * d + (k * k) * (x * x);
    assert (k * x) * (k * x) == (k * k) * (x * x);
  }

  lemma RootScales(sqrt: real -> real, k: real, x: real)
    requires IsRoot(sqrt) && k > 0.0 && x > 0.0
    ensures Product(Product(k, k), x) > 0.0
    ensures sqrt(Product(Product(k, k), x)) == Product(k, sqrt(x))
  {
    hide Product;
    PositiveProduct(k, k);
    PositiveProduct(Product(k, k), x);
    RootPositive(sqrt, x);
    PositiveProduct(k, sqrt(x));
    RootPositive(sqrt, Product(Product(k, k), x));
    SquareOfProducts(k, sqrt(x));
    assert Product(sqrt(x), sqrt(x)) == x;
    RootIsUnique(sqrt(Product(Product(k, k), x)), Product(k, sqrt(x)));
  }

  lemma SquareOfProducts(k: real, x: real)
    ensures Product(Product(k, x), Product(k, x)) == Product(Product(k, k), Product(x, x))
  {
    assert (k * x) * (k * x) == (k * k) * (x * x);
  }

  lemma CancelFactor(k: real, d: real, p: real, q: real)
    requires k > 0.0 && p > 0.0 && q > 0.0
    ensures Product(p, q) > 0.0 && Product(Product(k, p), q) > 0.0
    ensures Product(k, d) / Product(Product(k, p), q) == d / Product(p, q)
  {
    var s := p * q;
    assert s > 0.0;
    assert (k * p) * q == k * s;
    CancelQuotient(k, d, s);
  }

  lemma CancelQuotient(k: real, d: real, s: real)
    requires k > 0.0 && s > 0.0
    ensures k * s > 0.0 && (k * d) / (k * s) == d / s
  {
    var x := d / s;
    assert x * s == d;
    assert k * d == x * (k * s);
  }

  /** A positive factor on either vector does not change the score. */
  lemma CosineScaleInvariant(sqrt: real -> real, k: real, a: seq<real>, b: seq<real>)
    requires IsRoot(sqrt) && |a| == |b| && k > 0.0
    ensures Cosine(sqrt, Times(k, a), b) == Cosine(sqrt, a, b)
    ensures Cosine(sqrt, b, Times(k, a)) == Cosine(sqrt, b, a)
  {
    hide Product, Dot, Times;
    DotScales(k, a, b);
    DotCommutes(Times(k, a), b);
    DotCommutes(a, b);
    MagnitudeNotNegative(a);
    MagnitudeNotNegative(b);
    ZeroProducts(k);
    if Dot(a, a) > 0.0 && Dot(b, b) > 0.0 {
      RootScales(sqrt, k, Dot(a, a));
      RootPositive(sqrt, Dot(a, a));
      RootPositive(sqrt, Dot(b, b));
      CancelFactor(k, Dot(a, b), sqrt(Dot(a, a)), sqrt(Dot(b, b)));
      ProductCommutes(Product(k, sqrt(Dot(a, a))), sqrt(Dot(b, b)));
      ProductCommutes(sqrt(Dot(a, a)), sqrt(Dot(b, b)));
    } else if Dot(a, a) > 0.0 {
    } else {
      assert Dot(a, a) == 0.0;
    }
  }

  lemma ProductCommutes(x: real, y: real)
    ensures Product(x, y) == Product(y, x)
  {
  }

  lemma {:induction false} DotCommutes(a: seq<real>, b: seq<real>)
    requires |a| == |b|
    ensures Dot(a, b) == Dot(b, a)
  {
    hide Product;
    if a != [] {
      var n := |a| - 1;
      DotCommutes(a[..n], b[..n]);
      ProductCommutes(a[n], b[n]);
    }
  }
}
