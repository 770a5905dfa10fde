/**
  The deterministic embedding: a 64-bit mixing function generates a stream of words from
  a hash of the text, each word is scaled into [-1, 1), and the vector is brought to
  length 1.
 */
module Mixing {
  import opened Reals
  import opened Words

  // ---------- Mixing ----------

  const GAMMA: Word := 0x9e3779b97f4a7c15
  const FIRST: Word := 0xbf58476d1ce4e5b9
  const SECOND: Word := 0x94d049bb133111eb
  const FIRST_INVERSE: Word := 0x96de1b173f119089
  const SECOND_INVERSE: Word := 0x319642b2d24d8ec3

  /** splitmix64 */
  function Splitmix(v: Word): Word {
    Fold(Mul(Fold(Mul(Fold(Add(v, GAMMA), 30), FIRST), 27), SECOND), 31)
  }

  /** Its steps undone in reverse. */
  function Unmix(w: Word): Word {
    Add(Unfold(Mul(Unfold(Mul(Unfold(w, 31), SECOND_INVERSE), 27), FIRST_INVERSE), 30), WORDS - GAMMA)
  }

  lemma MultipliersAreUnits()
    ensures Mul(FIRST, FIRST_INVERSE) == 1 && Mul(FIRST_INVERSE, FIRST) == 1
    ensures Mul(SECOND, SECOND_INVERSE) == 1 && Mul(SECOND_INVERSE, SECOND) == 1
  {
  }

  // Three shifts by 30, 27 or 31 bits clear a word of 64 bits.
  lemma FoldsUndone(v: Word, k: nat)
    requires 22 <= k
    ensures Unfold(Fold(v, k), k) == v && Fold(Unfold(v, k), k) == v
  {
    hide Pow2;
    WordsAre64Bits();
    Pow2Add(64, 3 * k - 64);
    assert Pow2(3 * k) >= WORDS by {
      assert Pow2(64) * Pow2(3 * k - 64) >= Pow2(64);
    }
    FoldUndone(v, k);
  }

  /** splitmix64 is a bijection on 64-bit words: Unmix is its inverse on both sides. */
  lemma SplitmixIsBijection(v: Word)
    ensures Unmix(Splitmix(v)) == v
    ensures Splitmix(Unmix(v)) == v
  {
    hide Add, Mul, Fold, Unfold;
    MultipliersAreUnits();
    var a := Add(v, GAMMA);
    var b := Mul(Fold(a, 30), FIRST);
    var c := Mul(Fold(b, 27), SECOND);
    FoldsUndone(c, 31);
    MulUndone(Fold(b, 27), SECOND, SECOND_INVERSE);
    FoldsUndone(b, 27);
    MulUndone(Fold(a, 30), FIRST, FIRST_INVERSE);
    FoldsUndone(a, 30);
    AddUndone(v, GAMMA);
    var d := Mul(Unfold(v, 31), SECOND_INVERSE);
    var e := Mul(Unfold(d, 27), FIRST_INVERSE);
    AddUndone(Unfold(e, 30), GAMMA);
    FoldsUndone(e, 30);
    MulUndone(Unfold(d, 27), FIRST_INVERSE, FIRST);
    FoldsUndone(d, 27);
    MulUndone(Unfold(v, 31), SECOND_INVERSE, SECOND);
    FoldsUndone(v, 31);
  }

  // ---------- Streams ----------

  /** The state after n rounds. */
  function Stream(state: Word, n: nat): Word
    decreases n
  {
    if n == 0 then state else Splitmix(Stream(state, n - 1))
  }

  /** Two streams agree at a position exactly when they started from the same state. */
  lemma {:induction false} StreamsNeverMerge(s: Word, t: Word, n: nat)
    ensures Stream(s, n) == Stream(t, n) <==> s == t
  {
    hide Splitmix, Unmix;
    if n > 0 {
      StreamsNeverMerge(s, t, n - 1);
      SplitmixIsBijection(Stream(s, n - 1));
      SplitmixIsBijection(Stream(t, n - 1));
    }
  }

  /** Every word can be reached at every position, from exactly one start. */
  lemma {:induction false} StreamReachesEverything(w: Word, n: nat) returns (s: Word)
    ensures Stream(s, n) == w
    decreases n
  {
    hide Splitmix, Unmix;
    if n == 0 {
      s := w;
    } else {
      SplitmixIsBijection(w);
      s := StreamReachesEverything(Unmix(w), n - 1);
    }
  }

  /** The start state: a zero hash is replaced, a zero seed is ignored. */
  function Start(hash: Word, seed: Word): Word {
    var state := if hash == 0 then GAMMA else hash;
    XorIsWord(state, seed);
    if seed != 0 then Xor(state, seed) else state
  }

  /** Taking the seed out of the start state again leaves the hash, or the constant that replaces a zero hash. */
  lemma StartWithoutSeed(hash: Word, seed: Word)
    ensures Xor(Start(hash, seed), seed) == if hash == 0 then 0x9e3779b97f4a7c15 else hash
  {
    hide Xor;
    var state := if hash == 0 then GAMMA else hash;
    XorTwice(state, seed);
    XorZero(state);
  }

  predicate IsZeroOrItsReplacement(hash: Word) {
    hash == 0 || hash == GAMMA
  }

  lemma StartsAgreeIff(h1: Word, h2: Word, seed: Word)
    ensures Start(h1, seed) == Start(h2, seed) <==> h1 == h2 || (IsZeroOrItsReplacement(h1) && IsZeroOrItsReplacement(h2))
  {
    hide Xor;
    XorTwice(if h1 == 0 then GAMMA else h1, seed);
    XorTwice(if h2 == 0 then GAMMA else h2, seed);
  }

  /** At every position, two texts share a word of their streams exactly when their hashes start alike. */
  lemma TextsShareIff(h1: Word, h2: Word, seed: Word, n: nat)
    ensures Stream(Start(h1, seed), n) == Stream(Start(h2, seed), n) <==>
              h1 == h2 || (IsZeroOrItsReplacement(h1) && IsZeroOrItsReplacement(h2))
  {
    hide Splitmix, Start, IsZeroOrItsReplacement;
    StartsAgreeIff(h1, h2, seed);
    StreamsNeverMerge(Start(h1, seed), Start(h2, seed), n);
  }

  // ---------- Scaling ----------

  const TWO_53 := 0x20_0000_0000_0000

  function Top53(v: Word): (n: nat)
    ensures n < TWO_53
  {
    ShrIsDivision(v, 11);
    ElevenBits();
    Shr(v, 11)
  }

  lemma ElevenBits()
    ensures Pow2(11) == 2048
  {
    BytesAre8Bits();
    Pow2Add(8, 3);
  }

  /** scaleToFloat64; all three operations are exact on 53-bit integers. */
  function Scale(v: Word): real {
    (Top53(v) as real / TWO_53 as real) * 2.0 - 1.0
  }

  /** Every scaled value lies in [-1, 1), and only the top 53 bits decide it. */
  lemma ScaleInRange(v: Word)
    ensures -1.0 <= Scale(v) < 1.0
  {
    hide Top53;
    ScaleOfInteger(Top53(v));
  }

  lemma ScaleOfInteger(n: nat)
    requires n < TWO_53
    ensures -1.0 <= (n as real / TWO_53 as real) * 2.0 - 1.0 < 1.0
  {
    var q := n as real / TWO_53 as real;
    assert q * TWO_53 as real == n as real;
  }

  lemma ScaleAgreesIff(v: Word, w: Word)
    ensures Scale(v) == Scale(w) <==> Top53(v) == Top53(w)
  {
    hide Top53;
    var x, y := Top53(v) as real / TWO_53 as real, Top53(w) as real / TWO_53 as real;
    assert x * TWO_53 as real == Top53(v) as real && y * TWO_53 as real == Top53(w) as real;
  }

  // ---------- The embedding ----------

  function SumSquares(values: seq<real>): (r: real)
    ensures r >= 0.0
  {
    if values == [] then 0.0
    else SumSquares(values[..|values| - 1]) + values[|values| - 1] * values[|values| - 1]
  }

  /** The scaled words of the stream from position 1 on. */
  function Raw(state: Word, dimension: nat): (r: seq<real>)
    ensures |r| == dimension
  {
    seq(dimension, i requires 0 <= i < dimension => Scale(Stream(state, i + 1)))
  }

  function Scaled(values: seq<real>, factor: real): (r: seq<real>)
    ensures |r| == |values|
  {
    seq(|values|, i requires 0 <= i < |values| => Product(values[i], factor))
  }

  /** embed, from the start state on; sqrt stands for math.Sqrt. */
  function Embed(state: Word, dimension: nat, sqrt: real -> real): seq<real>
    requires dimension > 0 && IsRoot(sqrt)
  {
    var values := Raw(state, dimension);
    var magnitude := SumSquares(values);
    if magnitude == 0.0 then seq(dimension, i => 1.0 / dimension as real)
    else
      RootPositive(sqrt, magnitude);
      Scaled(values, 1.0 / sqrt(magnitude))
  }

  lemma SumSquaresSnoc(values: seq<real>, x: real)
    ensures SumSquares(values + [x]) == SumSquares(values) + x * x
  {
    assert (values + [x])[..|values|] == values;
  }

  lemma {:induction false} SumSquaresScaled(values: seq<real>, factor: real)
    ensures SumSquares(Scaled(values, factor)) == SumSquares(values) * (factor * factor)
  {
    hide SumSquares, Scaled;
    if values == [] {
      assert SumSquares([]) == 0.0 && Scaled([], factor) == [] by { EmptyScaled(factor); }
    } else {
      var init, last := values[..|values| - 1], values[|values| - 1];
      SumSquaresScaled(init, factor);
      ScaledInit(values, factor);
      var rest := Scaled(init, factor);
      SumSquaresSnoc(rest, Product(last, factor));
      SumSquaresSnoc(init, last);
      assert values == init + [last];
      SquareOfProduct(SumSquares(init), last, factor);
    }
  }

  lemma EmptyScaled(factor: real)
    ensures SumSquares([]) == 0.0 && Scaled([], factor) == []
  {
  }

  lemma ScaledInit(values: seq<real>, factor: real)
    requires values != []
    ensures Scaled(values, factor) == Scaled(values[..|values| - 1], factor) + [Product(values[|values| - 1], factor)]
  {
    hide Product;
  }

  lemma SquareOfProduct(sum: real, x: real, factor: real)
    ensures sum * (factor * factor) + (x * factor) * (x * factor) == (sum + x * x) * (factor * factor)
  {
  }

  lemma {:induction false} SumSquaresOfEqual(n: nat, x: real)
    ensures SumSquares(seq(n, i => x)) == n as real * (x * x)
  {
    if n > 0 {
      assert seq(n, i => x)[..n - 1] == seq(n - 1, i => x);
      SumSquaresOfEqual(n - 1, x);
      MoreByOne(n, x * x);
    }
  }

  lemma MoreByOne(n: nat, y: real)
    requires n > 0
    ensures n as real * y == (n - 1) as real * y + y
  {
  }

  /** A sum of squares is zero only when all components are. */
  lemma {:induction false} SumSquaresZeroIff(values: seq<real>)
    ensures SumSquares(values) == 0.0 <==> forall i :: 0 <= i < |values| ==> values[i] == 0.0
  {
    if values != [] {
      var init, last := values[..|values| - 1], values[|values| - 1];
      SumSquaresZeroIff(init);
      SquareZeroIff(last);
    }
  }

  // What the two branches of embed give; that an all-zero stream needs dimension 1 is shown in MixingZeros.
  lemma UnitUnlessAllZero(state: Word, dimension: nat, sqrt: real -> real)
    requires dimension > 0 && IsRoot(sqrt)
    ensures |Embed(state, dimension, sqrt)| == dimension
    ensures SumSquares(Embed(state, dimension, sqrt)) == 1.0 <==>
              dimension == 1 || exists i :: 0 <= i < dimension && Raw(state, dimension)[i] != 0.0
  {
    hide Raw, SumSquares;
    var values := Raw(state, dimension);
    SumSquaresZeroIff(values);
    var m := SumSquares(values);
    if m == 0.0 {
      SumSquaresOfEqual(dimension, 1.0 / dimension as real);
      Reciprocal(dimension);
      assert Embed(state, dimension, sqrt) == seq(dimension, i => 1.0 / dimension as real);
    } else {
      RootPositive(sqrt, m);
      SumSquaresScaled(values, 1.0 / sqrt(m));
      UnitFactor(m, sqrt(m));
    }
  }

  lemma Reciprocal(n: nat)
    requires n > 0
    ensures n as real * ((1.0 / n as real) * (1.0 / n as real)) == 1.0 / n as real
    ensures 1.0 / n as real == 1.0 <==> n == 1
  {
    var q := 1.0 / n as real;
    assert n as real * q == 1.0;
    assert n as real * (q * q) == (n as real * q) * q;
  }

  lemma UnitFactor(m: real, root: real)
    requires root != 0.0 && Product(root, root) == m
    ensures m * ((1.0 / root) * (1.0 / root)) == 1.0
  {
    var q := 1.0 / root;
    assert root * q == 1.0;
    assert m * (q * q) == (root * q) * (root * q);
  }

  // The first pass: fill the array from the stream and sum the squares.
  method FillFromStream(values: array<real>, start: Word) returns (magnitude: real)
    modifies values
    ensures values[..] == Raw(start, values.Length) && magnitude == SumSquares(values[..])
  {
    hide Scale, Splitmix;
    var state := start;
    magnitude := 0.0;
    for i := 0 to values.Length
      invariant state == Stream(start, i)
      invariant values[..i] == Raw(start, i)
      invariant magnitude == SumSquares(values[..i])
    {
      state := Splitmix(state);
      values[i] := Scale(state);
      magnitude := magnitude + values[i] * values[i];
      assert values[..i + 1][..i] == values[..i];
    }
    assert values[..] == values[..values.Length];
  }

  /** embed as the program runs it: two passes over a fixed array. */
  method EmbedInto(values: array<real>, start: Word, sqrt: real -> real)
    requires values.Length > 0 && IsRoot(sqrt)
    modifies values
    ensures values[..] == Embed(start, values.Length, sqrt)
  {
    hide Raw, SumSquares, Product;
    var dimension := values.Length;
    var magnitude := FillFromStream(values, start);
    ghost var raw := values[..];
    if magnitude == 0.0 {
      var share := 1.0 / dimension as real;
      for i := 0 to dimension
        invariant forall j :: 0 <= j < i ==> values[j] == share
      {
        values[i] := share;
      }
      return;
    }
    RootPositive(sqrt, magnitude);
    var factor := 1.0 / sqrt(magnitude);
    for i := 0 to dimension
      invariant forall j :: 0 <= j < i ==> values[j] == Product(raw[j], factor)
      invariant forall j :: i <= j < dimension ==> values[j] == raw[j]
    {
      values[i] := Product(values[i], factor);
    }
  }
}
