/**
  The stream of words never scales to zero twice in a row, and so every embedding has
  length 1. A word scales to zero when its top 53 bits are MIDDLE; only 2048 words do, and
  the middle of the mixing function sends none of them to another. That is shown without
  going through them, by two combinations of the multipliers that are small modulo 2^64.
 */
module MixingZeros {
  import opened Reals
  import opened Words
  import opened Mixing

  const MIDDLE := 0x10_0000_0000_0000

  // ---------- Powers and shifts ----------

  lemma PowersOfTwo()
    ensures Pow2(20) == 0x10_0000 && Pow2(30) == 0x4000_0000 && Pow2(31) == 0x8000_0000
    ensures Pow2(37) == 0x20_0000_0000 && Pow2(21) == 0x20_0000 && Pow2(62) == 0x4000_0000_0000_0000
  {
    BytesAre8Bits();
    Pow2Add(8, 2);
    Doubled(10, 1024);
    Pow2Add(20, 10);
    Pow2Add(20, 1);
    Pow2Add(30, 1);
    Pow2Add(30, 7);
    Doubled(31, 0x8000_0000);
  }

  lemma {:induction false} XorShifted(a: nat, b: nat, k: nat)
    ensures Xor(a * Pow2(k), b * Pow2(k)) == Xor(a, b) * Pow2(k)
    decreases k
  {
    if k > 0 {
      XorShifted(a, b, k - 1);
      EvenHalves(a, Pow2(k - 1));
      EvenHalves(b, Pow2(k - 1));
      XorUnfold(a * Pow2(k), b * Pow2(k));
      Twice(Xor(a, b), Pow2(k - 1));
    }
  }

  lemma EvenHalves(a: nat, p: nat)
    ensures a * (2 * p) >= 0 && a * (2 * p) / 2 == a * p && a * (2 * p) % 2 == 0
  {
    Twice(a, p);
  }

  lemma Twice(a: nat, p: nat)
    ensures a * (2 * p) == 2 * (a * p)
  {
  }

  function XorBit(x: nat, y: nat): nat {
    if x % 2 == y % 2 then 0 else 1
  }

  // Exclusive or of hexadecimal digits.
  function XorDigit(x: nat, y: nat): nat {
    8 * XorBit(x / 8, y / 8) + 4 * XorBit(x / 4, y / 4) + 2 * XorBit(x / 2, y / 2) + XorBit(x, y)
  }

  lemma XorByBit(a: nat, b: nat, x: nat, y: nat)
    ensures Xor(2 * a + x % 2, 2 * b + y % 2) == 2 * Xor(a, b) + XorBit(x, y)
  {
    hide Xor;
    XorUnfold(2 * a + x % 2, 2 * b + y % 2);
    Halved(a, x % 2);
    Halved(b, y % 2);
  }

  lemma Halved(a: nat, bit: nat)
    requires bit < 2
    ensures (2 * a + bit) / 2 == a && (2 * a + bit) % 2 == bit
  {
  }

  lemma DigitOfBits(x: nat)
    requires x < 16
    ensures x == 2 * (2 * (2 * (x / 8 % 2) + x / 4 % 2) + x / 2 % 2) + x % 2
  {
  }

  lemma XorByDigit(a: nat, b: nat, x: nat, y: nat)
    requires x < 16 && y < 16
    ensures Xor(16 * a + x, 16 * b + y) == 16 * Xor(a, b) + XorDigit(x, y)
  {
    hide Xor, XorBit;
    DigitOfBits(x);
    DigitOfBits(y);
    var a1, b1 := 2 * a + x / 8 % 2, 2 * b + y / 8 % 2;
    var a2, b2 := 2 * a1 + x / 4 % 2, 2 * b1 + y / 4 % 2;
    var a3, b3 := 2 * a2 + x / 2 % 2, 2 * b2 + y / 2 % 2;
    XorByBit(a, b, x / 8, y / 8);
    XorByBit(a1, b1, x / 4, y / 4);
    XorByBit(a2, b2, x / 2, y / 2);
    XorByBit(a3, b3, x, y);
  }

  // ---------- The last fold ----------

  // The 53 leading bits MIDDLE come from these, and only these.
  const LAST_LEAD := 0x10_0000_0020_0000

  lemma MiddleUnfolds(h: Word)
    requires Fold(h, 31) == MIDDLE
    ensures h == LAST_LEAD
  {
    hide Xor, Shr, Pow2;
    FoldsUndone(h, 31);
    PowersOfTwo();
    ShrIsDivision(MIDDLE, 31);
    ShrAway(MIDDLE, 62);
    XorShifted(0x8000_0000, 1, 21);
    XorByBit(0x4000_0000, 0, 0, 1);
    XorZero(0x4000_0000);
    XorZero(LAST_LEAD);
  }

  lemma LeadOfFold(w: Word, k: nat)
    ensures Shr(Fold(w, k), 11) == Fold(Shr(w, 11), k)
  {
    hide Xor, Shr;
    ShrXor(w, Shr(w, k), 11);
    ShrShr(w, k, 11);
    ShrShr(w, 11, k);
  }

  lemma LeadOf(w: Word, lead: nat)
    requires Shr(w, 11) == lead
    ensures 2048 * lead <= w < 2048 * lead + 2048
  {
    hide Pow2, Shr;
    ShrIsDivision(w, 11);
    ElevenBits();
  }

  lemma LastFold(w: Word)
    requires Top53(Fold(w, 31)) == MIDDLE
    ensures 2048 * LAST_LEAD <= w < 2048 * LAST_LEAD + 2048
  {
    hide Xor, Shr, Fold;
    LeadOfFold(w, 31);
    MiddleUnfolds(Shr(w, 11));
    LeadOf(w, LAST_LEAD);
  }

  // ---------- The first fold ----------

  const LOW_LEAD := 0x3_c6ef_3720_f2f3
  const HIGH_LEAD := 0x3_c6ef_3720_f2ec

  lemma SomeDigits()
    ensures XorDigit(0xf, 0xf) == 0x0 && XorDigit(0xe, 0x1) == 0xf && XorDigit(0x9, 0xb) == 0x2
    ensures XorDigit(0x4, 0xb) == 0xf && XorDigit(0x5, 0xb) == 0xe
    ensures XorDigit(0xf, 0xc) == 0x3 && XorDigit(0x0, 0xc) == 0xc
  {
    hide Xor, Shr, Pow2;
  }

  lemma LeadsFold()
    ensures Xor(0x3_c6ef_372f_e94f, 0xf_1bbc) == LOW_LEAD
    ensures Xor(0x3_c6ef_372f_e950, 0xf_1bbc) == HIGH_LEAD
  {
    hide Xor, XorDigit;
    SomeDigits();
    XorZero(0x3c6ef372);
    XorByDigit(0x3c6ef372, 0, 0xf, 0xf);
    XorByDigit(0x3c6ef372f, 0xf, 0xe, 0x1);
    XorByDigit(0x3c6ef372fe, 0xf1, 0x9, 0xb);
    XorByDigit(0x3c6ef372fe9, 0xf1b, 0x4, 0xb);
    XorByDigit(0x3c6ef372fe9, 0xf1b, 0x5, 0xb);
    XorByDigit(0x3c6ef372fe94, 0xf1bb, 0xf, 0xc);
    XorByDigit(0x3c6ef372fe95, 0xf1bb, 0x0, 0xc);
  }

  lemma FirstFold(v: Word)
    requires Top53(v) == MIDDLE
    ensures var lead := Shr(Fold(Add(v, GAMMA), 30), 11); lead == LOW_LEAD || lead == HIGH_LEAD
  {
    hide Xor, Shr, Pow2, Fold;
    LeadOf(v, MIDDLE);
    var z := Add(v, GAMMA);
    assert z == v + GAMMA - WORDS;
    FoldedLead(z);
    LeadsFold();
  }

  lemma FoldedLead(z: Word)
    requires 0x1e37_79b9_7f4a_7c15 <= z < 0x1e37_79b9_7f4a_7c15 + 2048
    ensures var lead := Shr(Fold(z, 30), 11);
            lead == Xor(0x3_c6ef_372f_e94f, 0xf_1bbc) || lead == Xor(0x3_c6ef_372f_e950, 0xf_1bbc)
  {
    hide Xor, Shr, Pow2;
    PowersOfTwo();
    ElevenBits();
    ShrXor(z, Shr(z, 30), 11);
    ShrIsDivision(z, 30);
    ShrIsDivision(z, 11);
    ShrIsDivision(Shr(z, 30), 11);
  }

  // ---------- The middle fold ----------

  // The middle fold leaves the leading 27 bits as they are.
  lemma MiddleFold(x: Word)
    ensures -0x20_0000_0000 < Fold(x, 27) - x < 0x20_0000_0000
  {
    hide Xor, Shr, Pow2;
    var u := Fold(x, 27);
    ShrXor(x, Shr(x, 27), 37);
    ShrShr(x, 27, 37);
    WordsAre64Bits();
    ShrAway(x, 64);
    XorZero(Shr(x, 37));
    PowersOfTwo();
    ShrIsDivision(x, 37);
    ShrIsDivision(u, 37);
  }

  // ---------- No solution ----------

  // 11783672 times either multiplier is small modulo 2^64, and the constants are not.
  lemma LowLeadMissed(t: nat, e: nat, x: int, u: int, q: int, p: int)
    requires t < 2048 && e < 2048
    requires (2048 * LOW_LEAD + t) * FIRST == q * WORDS + x
    requires (2048 * LAST_LEAD + e) * SECOND_INVERSE == p * WORDS + u
    ensures !(-0x20_0000_0000 < u - x < 0x20_0000_0000)
  {
    var wraps := (2048 * LOW_LEAD + t) * 8807597 - (2048 * LAST_LEAD + e) * 2282486 - 11783672 * (q - p) - 310220278121378;
    assert 11783672 * (x - u) == wraps * WORDS + 8320159536533553152 + t * 780532628500536 - e * 804699314680808;
  }

  lemma HighLeadMissed(t: nat, e: nat, x: int, u: int, q: int, p: int)
    requires t < 2048 && e < 2048
    requires (2048 * HIGH_LEAD + t) * FIRST == q * WORDS + x
    requires (2048 * LAST_LEAD + e) * SECOND_INVERSE == p * WORDS + u
    ensures !(-0x20_0000_0000 < u - x < 0x20_0000_0000)
  {
    var wraps := (2048 * HIGH_LEAD + t) * 1502128 - (2048 * LAST_LEAD + e) * 389276 - 2009695 * (q - p) - 489598438533290;
    assert 2009695 * (x - u) == wraps * WORDS + 12999042161023361024 - t * 1590440798447193 - e * 603744734509149;
  }

  lemma LeadsMiss(y: Word, w: Word, x: Word, u: Word)
    requires Shr(y, 11) == LOW_LEAD || Shr(y, 11) == HIGH_LEAD
    requires 2048 * LAST_LEAD <= w < 2048 * LAST_LEAD + 2048
    requires x == Mul(y, FIRST) && u == Mul(w, SECOND_INVERSE)
    ensures !(-0x20_0000_0000 < u - x < 0x20_0000_0000)
  {
    hide Shr;
    var q, p := y * FIRST / WORDS, w * SECOND_INVERSE / WORDS;
    LeadOf(y, Shr(y, 11));
    if Shr(y, 11) == LOW_LEAD {
      LowLeadMissed(y - 2048 * LOW_LEAD, w - 2048 * LAST_LEAD, x, u, q, p);
    } else {
      HighLeadMissed(y - 2048 * HIGH_LEAD, w - 2048 * LAST_LEAD, x, u, q, p);
    }
  }

  /** No two successive words of the stream scale to zero. */
  lemma NeverZeroTwice(v: Word)
    requires Top53(v) == MIDDLE
    ensures Top53(Splitmix(v)) != MIDDLE
  {
    hide Xor, Shr, Fold, Unfold, Top53;
    var y := Fold(Add(v, GAMMA), 30);
    var x := Mul(y, FIRST);
    var u := Fold(x, 27);
    var w := Mul(u, SECOND);
    if Top53(Fold(w, 31)) == MIDDLE {
      FirstFold(v);
      MiddleFold(x);
      LastFold(w);
      MultipliersAreUnits();
      MulUndone(u, SECOND, SECOND_INVERSE);
      LeadsMiss(y, w, x, u);
    }
  }

  // ---------- Embeddings ----------

  lemma ScalesToZeroIff(v: Word)
    ensures Scale(v) == 0.0 <==> Top53(v) == MIDDLE
  {
    hide Top53;
    var q := Top53(v) as real / TWO_53 as real;
    assert q * TWO_53 as real == Top53(v) as real;
  }

  /** Every embedding has length 1; the fallback for an all-zero stream is met in dimension 1 only. */
  lemma EmbeddingIsUnit(state: Word, dimension: nat, sqrt: real -> real)
    requires dimension > 0 && IsRoot(sqrt)
    ensures |Embed(state, dimension, sqrt)| == dimension
    ensures SumSquares(Embed(state, dimension, sqrt)) == 1.0
    ensures SumSquares(Raw(state, dimension)) == 0.0 ==> dimension == 1
  {
    hide Scale, Splitmix, SumSquares, Embed;
    UnitUnlessAllZero(state, dimension, sqrt);
    SumSquaresZeroIff(Raw(state, dimension));
    if dimension >= 2 {
      ScalesToZeroIff(Stream(state, 1));
      ScalesToZeroIff(Stream(state, 2));
      assert Stream(state, 2) == Splitmix(Stream(state, 1));
      if Scale(Stream(state, 1)) == 0.0 {
        NeverZeroTwice(Stream(state, 1));
      }
      assert Raw(state, dimension)[0] == Scale(Stream(state, 1));
      assert Raw(state, dimension)[1] == Scale(Stream(state, 2));
    }
  }

  const HALF: real := 4503599627370496.0

  lemma ShiftedIsDivided(v: Word)
    ensures Top53(v) == v / 2048
  {
    hide Shr, Pow2;
    ShrIsDivision(v, 11);
    ElevenBits();
  }

  /** A word scales to its leading 53 bits, as a fraction of 2^52, less 1. */
  lemma ScaleMeaning(v: Word)
    ensures Product(Scale(v) + 1.0, HALF) == (v / 2048) as real
  {
    hide Top53;
    ShiftedIsDivided(v);
    var q := Top53(v) as real / TWO_53 as real;
    assert q * TWO_53 as real == Top53(v) as real;
  }

  lemma UndoneByLength(x: real, root: real)
    requires root > 0.0
    ensures Product(Product(x, 1.0 / root), root) == x
  {
    var q := 1.0 / root;
    assert q * root == 1.0;
    assert (x * q) * root == x * (q * root);
  }

  /** Times the length, each component is the scaled word of the stream at its place, from the first word on. */
  predicate Restores(e: seq<real>, length: real, state: Word) {
    forall i :: 0 <= i < |e| ==> Product(Product(e[i], length) + 1.0, HALF) == (Stream(state, i + 1) / 2048) as real
  }

  lemma RawAllZero(state: Word, dimension: nat)
    requires dimension > 0
    ensures SumSquares(Raw(state, dimension)) == 0.0 <==> dimension == 1 && Top53(Stream(state, 1)) == MIDDLE
  {
    hide Scale, Splitmix, SumSquares, Top53;
    var raw := Raw(state, dimension);
    SumSquaresZeroIff(raw);
    assert raw[0] == Scale(Stream(state, 1));
    ScalesToZeroIff(Stream(state, 1));
    if dimension >= 2 {
      ScalesToZeroIff(Stream(state, 2));
      assert raw[1] == Scale(Stream(state, 2)) && Stream(state, 2) == Splitmix(Stream(state, 1));
      if Top53(Stream(state, 1)) == MIDDLE {
        NeverZeroTwice(Stream(state, 1));
      }
    }
  }

  lemma DirectionOfScaled(state: Word, dimension: nat, root: real)
    requires root > 0.0
    ensures Restores(Scaled(Raw(state, dimension), 1.0 / root), root, state)
  {
    hide Scale, Splitmix, Product, Stream;
    var raw := Raw(state, dimension);
    var e := Scaled(raw, 1.0 / root);
    forall i | 0 <= i < |e|
      ensures Product(Product(e[i], root) + 1.0, HALF) == (Stream(state, i + 1) / 2048) as real
    {
      UndoneByLength(raw[i], root);
      ScaleMeaning(Stream(state, i + 1));
    }
  }

  /**
    The direction of an embedding: some positive length restores from it the scaled words
    of the stream, in order. The one exception is dimension 1 with a word that scales to
    zero, where it is the vector [1].
   */
  lemma EmbeddingDirection(state: Word, dimension: nat, sqrt: real -> real) returns (length: real)
    requires dimension > 0 && IsRoot(sqrt)
    ensures |Embed(state, dimension, sqrt)| == dimension && length > 0.0
    ensures if dimension == 1 && Top53(Stream(state, 1)) == MIDDLE then Embed(state, dimension, sqrt) == [1.0]
            else Restores(Embed(state, dimension, sqrt), length, state)
  {
    hide Scale, Splitmix, SumSquares, Top53, Restores, Raw, Scaled;
    RawAllZero(state, dimension);
    EmbeddingIsUnit(state, dimension, sqrt);
    var m := SumSquares(Raw(state, dimension));
    if m == 0.0 {
      length := 1.0;
      assert 1.0 / 1.0 == 1.0;
    } else {
      RootPositive(sqrt, m);
      length := sqrt(m);
      DirectionOfScaled(state, dimension, length);
    }
  }
}
