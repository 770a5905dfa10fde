/** 64-bit unsigned words as numbers below 2^64: wrapping arithmetic, right shifts and exclusive or. */
module Words {

  const WORDS := 0x1_0000_0000_0000_0000

  type Word = n: nat | n < WORDS

  function Pow2(k: nat): (p: nat)
    ensures p >= 1
  {
    if k == 0 then 1 else 2 * Pow2(k - 1)
  }

  /** Bit by bit, the sum without carry. */
  function Xor(a: nat, b: nat): nat {
    if a == 0 && b == 0 then 0
    else 2 * Xor(a / 2, b / 2) + (a % 2 + b % 2) % 2
  }

  function Shr(a: nat, k: nat): (r: nat)
    ensures r <= a
    decreases k
  {
    if k == 0 then a else Shr(a / 2, k - 1)
  }

  function Add(a: Word, b: Word): Word { (a + b) % WORDS }

  function Mul(a: Word, b: Word): Word { (a * b) % WORDS }

  // ---------- Exclusive or ----------

  lemma {:induction false} XorHalf(a: nat, b: nat)
    ensures Xor(a, b) / 2 == Xor(a / 2, b / 2) && Xor(a, b) % 2 == (a % 2 + b % 2) % 2
  {
  }

  lemma {:induction false} XorZero(a: nat)
    ensures Xor(a, 0) == a && Xor(0, a) == a
  {
    if a != 0 {
      XorZero(a / 2);
    }
  }

  lemma {:induction false} XorSelf(a: nat)
    ensures Xor(a, a) == 0
  {
    if a != 0 {
      XorSelf(a / 2);
    }
  }

  lemma {:induction false} XorCommutes(a: nat, b: nat)
    ensures Xor(a, b) == Xor(b, a)
  {
    if a != 0 || b != 0 {
      XorCommutes(a / 2, b / 2);
    }
  }

  lemma XorUnfold(a: nat, b: nat)
    ensures Xor(a, b) == 2 * Xor(a / 2, b / 2) + (a % 2 + b % 2) % 2
  {
  }

  lemma {:induction false} XorAssociates(a: nat, b: nat, c: nat)
    ensures Xor(Xor(a, b), c) == Xor(a, Xor(b, c))
    decreases a + b + c
  {
    hide Xor;
    if a == 0 && b == 0 && c == 0 {
      XorZero(0);
    } else {
      XorAssociates(a / 2, b / 2, c / 2);
      XorHalf(a, b);
      XorHalf(b, c);
      XorUnfold(Xor(a, b), c);
      XorUnfold(a, Xor(b, c));
      SumsAgree(a % 2, b % 2, c % 2);
    }
  }

  lemma SumsAgree(x: nat, y: nat, z: nat)
    ensures ((x + y) % 2 + z) % 2 == (x + (y + z) % 2) % 2
  {
  }

  /** Applying the same word twice gives back the first one. */
  lemma XorTwice(a: nat, b: nat)
    ensures Xor(Xor(a, b), b) == a
  {
    XorAssociates(a, b, b);
    XorSelf(b);
    XorZero(a);
  }

  lemma {:induction false} XorBound(a: nat, b: nat, k: nat)
    requires a < Pow2(k) && b < Pow2(k)
    ensures Xor(a, b) < Pow2(k)
    decreases k
  {
    if k > 0 && (a != 0 || b != 0) {
      XorBound(a / 2, b / 2, k - 1);
    }
  }

  lemma {:induction false} Pow2Add(j: nat, k: nat)
    ensures Pow2(j + k) == Pow2(j) * Pow2(k)
  {
    if j > 0 {
      Pow2Add(j - 1, k);
    }
  }

  lemma BytesAre8Bits()
    ensures Pow2(8) == 256
  {
  }

  lemma Doubled(k: nat, p: nat)
    requires Pow2(k) == p
    ensures Pow2(k + k) == p * p
  {
    Pow2Add(k, k);
  }

  lemma WordsAre64Bits()
    ensures Pow2(64) == WORDS
  {
    hide Pow2;
    BytesAre8Bits();
    Doubled(8, 0x100);
    Doubled(16, 0x1_0000);
    Doubled(32, 0x1_0000_0000);
  }

  lemma XorIsWord(a: Word, b: Word)
    ensures Xor(a, b) < WORDS
  {
    WordsAre64Bits();
    XorBound(a, b, 64);
  }

  // ---------- Shifts ----------

  lemma {:induction false} ShrIsDivision(a: nat, k: nat)
    ensures Shr(a, k) == a / Pow2(k)
    decreases k
  {
    if k > 0 {
      ShrIsDivision(a / 2, k - 1);
      DivideTwice(a, Pow2(k - 1));
    }
  }

  lemma DivideTwice(a: nat, p: nat)
    requires p >= 1
    ensures a / 2 / p == a / (2 * p)
  {
    var q, r := a / 2 / p, a / 2 % p;
    var s := 2 * r + a % 2;
    assert a == 2 * (q * p + r) + a % 2;
    assert a == q * (2 * p) + s;
    DivisionIs(a, 2 * p, q, s);
  }

  lemma DivisionIs(a: nat, d: nat, q: nat, r: nat)
    requires d > 0 && a == q * d + r && r < d
    ensures a / d == q
  {
    var x := a / d;
    assert a == x * d + a % d;
    NextMultiple(x, q, d);
    NextMultiple(q, x, d);
  }

  lemma Distributes(x: int, k: int, d: int)
    ensures (x + 1 + k) * d == x * d + d + k * d
  {
  }

  lemma NatProduct(k: nat, d: nat)
    ensures k * d >= 0
  {
  }

  lemma NextMultiple(x: int, y: int, d: nat)
    ensures x < y ==> x * d + d <= y * d
  {
    var k := y - x - 1;
    Distributes(x, k, d);
    if k >= 0 {
      NatProduct(k, d);
    }
  }

  lemma {:induction false} ShrXor(a: nat, b: nat, k: nat)
    ensures Shr(Xor(a, b), k) == Xor(Shr(a, k), Shr(b, k))
    decreases k
  {
    if k > 0 {
      XorHalf(a, b);
      ShrXor(a / 2, b / 2, k - 1);
    }
  }

  lemma {:induction false} ShrShr(a: nat, j: nat, k: nat)
    ensures Shr(Shr(a, j), k) == Shr(a, j + k)
    decreases j
  {
    if j > 0 {
      ShrShr(a / 2, j - 1, k);
    }
  }

  lemma {:induction false} ShrAway(a: nat, k: nat)
    requires a < Pow2(k)
    ensures Shr(a, k) == 0
    decreases k
  {
    if k > 0 {
      ShrAway(a / 2, k - 1);
    }
  }

  // ---------- Folding a word onto itself ----------

  /** v ^ (v >> k) */
  function Fold(v: Word, k: nat): Word {
    XorIsWord(v, Shr(v, k));
    Xor(v, Shr(v, k))
  }

  /** v ^ (v >> k) ^ (v >> 2k), which undoes the fold when three shifts clear the word. */
  function Unfold(v: Word, k: nat): Word {
    XorIsWord(v, Shr(v, k));
    XorIsWord(Xor(v, Shr(v, k)), Shr(v, 2 * k));
    Xor(Xor(v, Shr(v, k)), Shr(v, 2 * k))
  }

  // Three terms that cancel in pairs.
  lemma Telescope(x: nat, y: nat, z: nat)
    ensures Xor(Xor(Xor(x, y), Xor(y, z)), z) == x
  {
    XorAssociates(x, y, Xor(y, z));
    XorAssociates(y, y, z);
    XorSelf(y);
    XorZero(z);
    XorTwice(x, z);
  }

  lemma FoldUndone(v: Word, k: nat)
    requires v < Pow2(3 * k)
    ensures Unfold(Fold(v, k), k) == v
    ensures Fold(Unfold(v, k), k) == v
  {
    hide Xor, Shr;
    var y, z := Shr(v, k), Shr(v, 2 * k);
    ShrShr(v, k, k);
    ShrShr(v, k, 2 * k);
    ShrShr(v, 2 * k, k);
    ShrAway(v, 3 * k);
    XorZero(y);
    XorZero(z);
    var f := Fold(v, k);
    ShrXor(v, y, k);
    ShrXor(v, y, 2 * k);
    assert Unfold(f, k) == Xor(Xor(f, Xor(y, z)), z);
    Telescope(v, y, z);
    var u := Unfold(v, k);
    ShrXor(Xor(v, y), z, k);
    assert Shr(u, k) == Xor(Xor(y, z), Shr(v, 3 * k));
    XorZero(Xor(y, z));
    assert Fold(u, k) == Xor(Xor(Xor(v, y), z), Xor(y, z));
    XorCommutes(z, Xor(y, z));
    XorAssociates(Xor(v, y), z, Xor(y, z));
    XorAssociates(Xor(v, y), Xor(y, z), z);
  }

  // ---------- Multiplying by a unit ----------

  /** A product with a multiplier is undone by its inverse modulo 2^64. */
  lemma MulUndone(v: Word, m: Word, inverse: Word)
    requires Mul(m, inverse) == 1
    ensures Mul(Mul(v, m), inverse) == v
  {
    var q := v * m / WORDS;
    var p := m * inverse / WORDS;
    assert v * m == q * WORDS + Mul(v, m);
    assert m * inverse == p * WORDS + 1;
    Regroup(v, m, inverse, Mul(v, m), q, p);
    RemainderIs(Mul(v, m) * inverse, v * p - q * inverse, v);
  }

  lemma Regroup(v: int, m: int, inverse: int, product: int, q: int, p: int)
    requires v * m == q * WORDS + product && m * inverse == p * WORDS + 1
    ensures product * inverse == (v * p - q * inverse) * WORDS + v
  {
    assert (v * m) * inverse == v * (m * inverse);
    assert (q * WORDS + product) * inverse == (q * inverse) * WORDS + product * inverse;
    assert v * (p * WORDS + 1) == (v * p) * WORDS + v;
  }

  lemma RemainderIs(a: int, q: int, r: nat)
    requires a == q * WORDS + r && r < WORDS
    ensures a % WORDS == r
  {
  }

  lemma AddUndone(v: Word, g: Word)
    requires g > 0
    ensures Add(Add(v, g), WORDS - g) == v && Add(Add(v, WORDS - g), g) == v
  {
  }
}
