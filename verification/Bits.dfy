/**
 The bucket index of se_hash. Machine words are natural numbers below 2^32, shifts
 lose what leaves the word, and `And` is the bitwise conjunction.
 */
module Bits {

  function Pow2(n: nat): (r: nat)
    ensures r > 0
  {
    if n == 0 then 1 else 2 * Pow2(n - 1)
  }

  function And(x: nat, y: nat): nat {
    if x == 0 || y == 0 then 0 else 2 * And(x / 2, y / 2) + (x % 2) * (y % 2)
  }

  const WORD := 0x1_0000_0000

  function Shl(x: nat, k: nat): nat {
    (x * Pow2(k)) % WORD
  }

  lemma DivNonNeg(x: int, d: int)
    requires x >= 0 && d > 0
    ensures x / d >= 0
  {
    var q := x / d;
    if q < 0 {
      MulNonNeg(-q - 1, d);
    }
  }

  function Shr(x: nat, k: nat): nat {
    DivNonNeg(x, Pow2(k));
    x / Pow2(k)
  }

  /** The mask the constructor computes: `middle` ones over `right` zeros. */
  function Template(middle: nat, right: nat): nat
    requires 0 < middle && middle + right <= 32
  {
    var k := 32 - middle - right;
    Shl(Shr(Shr(Shl(0xFFFF_FFFF, k), k), right), right)
  }

  function BucketIndex(hashkey: nat, middle: nat, right: nat): nat
    requires 0 < middle && middle + right <= 32
  {
    Shr(And(hashkey, Template(middle, right)), right)
  }

  // ------------------------------------------------------------------ arithmetic

  lemma MulNonNeg(a: int, b: int)
    requires a >= 0 && b >= 0
    ensures a * b >= 0
  {
  }

  lemma MulSmall(k: int, d: int)
    requires d > 0 && -d < k * d < d
    ensures k == 0
  {
    if k > 0 { MulNonNeg(k - 1, d); }
    if k < 0 { MulNonNeg(-k - 1, d); }
  }

  /** A quotient and a remainder below the divisor are the quotient and the remainder. */
  lemma DivUnique(x: int, d: int, q: int, r: int)
    requires 0 <= r < d && x == q * d + r
    ensures x / d == q && x % d == r
  {
    var q', r' := x / d, x % d;
    assert (q' - q) * d == r - r' by {
      assert x == d * q' + r' && (q' - q) * d == q' * d - q * d && q' * d == d * q';
    }
    MulSmall(q' - q, d);
  }

  lemma {:induction false} PowSum(a: nat, b: nat)
    ensures Pow2(a + b) == Pow2(a) * Pow2(b)
  {
    if a > 0 {
      PowSum(a - 1, b);
      assert Pow2(a + b) == 2 * Pow2(a - 1 + b);
    }
  }

  lemma PowWord()
    ensures Pow2(32) == WORD
  {
    PowSum(16, 16);
    PowSum(8, 8);
    assert Pow2(8) == 256;
  }

  lemma {:induction false} PowMonotone(b: nat, a: nat)
    requires b <= a
    ensures Pow2(b) <= Pow2(a)
  {
    if b < a { PowMonotone(b, a - 1); }
  }

  lemma HalfArith(h: int, p: int)
    requires h >= 0 && p > 0
    ensures h % (2 * p) == 2 * ((h / 2) % p) + h % 2
  {
    var q, r := (h / 2) / p, (h / 2) % p;
    assert h / 2 == q * p + r;
    assert h == q * (2 * p) + (2 * r + h % 2);
    DivUnique(h, 2 * p, q, 2 * r + h % 2);
  }

  /** The remainder by a power of two, one bit at a time. */
  lemma ModHalf(h: nat, a: nat)
    requires a > 0
    ensures h % Pow2(a) == 2 * ((h / 2) % Pow2(a - 1)) + h % 2
  {
    HalfArith(h, Pow2(a - 1));
  }

  lemma AndStep(x: nat, y: nat)
    ensures And(x, y) == 2 * And(x / 2, y / 2) + (x % 2) * (y % 2)
  {
    if x != 0 && y != 0 {
      assert And(x, y) == 2 * And(x / 2, y / 2) + (x % 2) * (y % 2);
    } else if x == 0 {
      assert And(0, y / 2) == 0;
    } else {
      assert And(x / 2, 0) == 0;
    }
  }

  /** Halving a mask of ones at positions b..a-1. */
  lemma MaskHalf(a: nat, b: nat)
    requires b < a
    ensures Pow2(b) <= Pow2(a) && Pow2(if b == 0 then 0 else b - 1) <= Pow2(a - 1)
    ensures (Pow2(a) - Pow2(b)) / 2 == Pow2(a - 1) - Pow2(if b == 0 then 0 else b - 1)
    ensures (Pow2(a) - Pow2(b)) % 2 == if b == 0 then 1 else 0
  {
    PowMonotone(b, a);
    PowMonotone(if b == 0 then 0 else b - 1, a - 1);
  }

  /** Masking with ones at positions b..a-1 keeps exactly those bits. */
  lemma {:induction false} AndMask(h: nat, a: nat, b: nat)
    requires b <= a
    ensures Pow2(b) <= Pow2(a)
    ensures And(h, Pow2(a) - Pow2(b)) == h % Pow2(a) - h % Pow2(b)
    decreases a
  {
    PowMonotone(b, a);
    if b < a {
      MaskHalf(a, b);
      AndStep(h, Pow2(a) - Pow2(b));
      ModHalf(h, a);
      AndMask(h / 2, a - 1, if b == 0 then 0 else b - 1);
      if b == 0 { ModOne(h); ModOne(h / 2); } else { ModHalf(h, b); }
    }
  }

  lemma ModOne(h: nat)
    ensures h % Pow2(0) == 0
  {
  }

  // ------------------------------------------------------------------ the index

  /** Shifting a word of ones left loses the top: w - 1 becomes w - pk. */
  lemma ShlOnes(w: int, pk: int)
    requires 0 < pk <= w
    ensures ((w - 1) * pk) % w == w - pk
  {
    assert (w - 1) * pk == (pk - 1) * w + (w - pk);
    DivUnique((w - 1) * pk, w, pk - 1, w - pk);
  }

  lemma ShrOnes(pm: int, pr: int)
    requires pm > 0 && pr > 0
    ensures (pm * pr - 1) / pr == pm - 1
    ensures (pm * pr - pr) / pr == pm - 1
  {
    assert pm * pr - 1 == (pm - 1) * pr + (pr - 1);
    DivUnique(pm * pr - 1, pr, pm - 1, pr - 1);
    DivUnique(pm * pr - pr, pr, pm - 1, 0);
  }

  lemma TemplateMask(middle: nat, right: nat)
    requires 0 < middle && middle + right <= 32
    ensures Pow2(right) <= Pow2(middle + right)
    ensures Template(middle, right) == Pow2(middle + right) - Pow2(right)
  {
    var k, n := 32 - middle - right, middle + right;
    PowWord();
    PowSum(k, n);
    PowSum(middle, right);
    PowMonotone(right, n);
    PowMonotone(n, 32);
    PowMonotone(k, 32);
    TemplateArith(Pow2(k), Pow2(n), Pow2(middle), Pow2(right));
  }

  lemma TemplateArith(pk: int, pn: int, pm: int, pr: int)
    requires 0 < pk <= WORD && pm > 0 && 0 < pr <= pn <= WORD && pn == pm * pr && WORD == pk * pn
    ensures ((((((WORD - 1) * pk) % WORD) / pk) / pr) * pr) % WORD == pn - pr
  {
    ShlOnes(WORD, pk);
    assert WORD - pk == pn * pk - pk;
    ShrOnes(pn, pk);
    ShrOnes(pm, pr);
    assert (pm - 1) * pr == pn - pr;
    DivUnique(pn - pr, WORD, 0, pn - pr);
  }

  lemma IndexArith(h: int, pm: int, pr: int)
    requires h >= 0 && pm > 0 && pr > 0 && pm * pr > 0
    ensures (h % (pm * pr) - h % pr) / pr == (h / pr) % pm
  {
    var q, r := h / pr, h % pr;
    var q', r' := q / pm, q % pm;
    assert h == q * pr + r && q == q' * pm + r';
    assert (r' * pr) + pr <= pm * pr by { MulNonNeg(pm - r' - 1, pr); }
    MulNonNeg(r', pr);
    assert h == q' * (pm * pr) + (r' * pr + r) by { assert (q' * pm) * pr == q' * (pm * pr); }
    DivUnique(h, pm * pr, q', r' * pr + r);
    DivUnique(r' * pr, pr, r', 0);
  }

  lemma MaskedIndex(hashkey: nat, middle: nat, right: nat)
    requires 0 < middle && middle + right <= 32
    ensures And(hashkey, Template(middle, right)) == hashkey % Pow2(middle + right) - hashkey % Pow2(right)
  {
    TemplateMask(middle, right);
    AndMask(hashkey, middle + right, right);
  }

  /** The bucket index is the `middle` bits of the hash key above its `right` lowest bits. */
  lemma BucketIndexIs(hashkey: nat, middle: nat, right: nat)
    requires 0 < middle && middle + right <= 32
    ensures BucketIndex(hashkey, middle, right) == (hashkey / Pow2(right)) % Pow2(middle)
    ensures BucketIndex(hashkey, middle, right) < Pow2(middle)
  {
    MaskedIndex(hashkey, middle, right);
    PowSum(middle, right);
    IndexArith(hashkey, Pow2(middle), Pow2(right));
  }
}
