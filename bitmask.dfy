/**
 * Subsets of {0, .., n-1} encoded as the bits of a natural number, as the
 * bitmask dynamic programme reads them: `mask & (1 << v)` tests a member,
 * `mask | (1 << v)` on a mask without v is `mask + 2^v`, and `mask ^ (1 << v)`
 * on a mask with v is `mask - 2^v`. Bit v of m is defined by halving, so no
 * shift or bitwise operator is needed.
 */
module Bitmask {

  /** `1 << k`. */
  function Pow2(k: nat): (p: nat)
    ensures p >= 1
  {
    if k == 0 then 1 else 2 * Pow2(k - 1)
  }

  /** `(m & (1 << v)) !== 0`. */
  predicate Has(m: nat, v: nat)
    decreases v
  {
    if v == 0 then m % 2 == 1 else Has(m / 2, v - 1)
  }

  lemma {:induction false} NoBitsInZero(v: nat)
    ensures !Has(0, v)
  {
    if v > 0 {
      NoBitsInZero(v - 1);
    }
  }

  /** Adding 2^v to a mask without bit v adds exactly bit v. */
  lemma {:induction false} AddBit(m: nat, v: nat, w: nat)
    requires !Has(m, v)
    ensures Has(m + Pow2(v), w) <==> Has(m, w) || w == v
    decreases v
  {
    if v == 0 {
      assert m % 2 == 0;
      if w > 0 {
        assert (m + 1) / 2 == m / 2;
      }
    } else {
      assert (m + Pow2(v)) % 2 == m % 2;
      assert (m + Pow2(v)) / 2 == m / 2 + Pow2(v - 1);
      if w > 0 {
        AddBit(m / 2, v - 1, w - 1);
      }
    }
  }

  /** A member bit contributes 2^v to the number. */
  lemma {:induction false} HasAtLeast(m: nat, v: nat)
    requires Has(m, v)
    ensures m >= Pow2(v)
    decreases v
  {
    if v > 0 {
      HasAtLeast(m / 2, v - 1);
    }
  }

  /** Subtracting 2^v from a mask with bit v clears exactly bit v. */
  lemma {:induction false} RemoveBit(m: nat, v: nat)
    requires Has(m, v)
    ensures m >= Pow2(v) && !Has(m - Pow2(v), v)
    decreases v
  {
    HasAtLeast(m, v);
    if v > 0 {
      RemoveBit(m / 2, v - 1);
      assert (m - Pow2(v)) / 2 == m / 2 - Pow2(v - 1);
    }
  }

  /** The members of m - 2^v are those of m other than v. */
  lemma RemoveBitMembers(m: nat, v: nat, w: nat)
    requires Has(m, v)
    ensures m >= Pow2(v)
    ensures Has(m - Pow2(v), w) <==> Has(m, w) && w != v
  {
    RemoveBit(m, v);
    AddBit(m - Pow2(v), v, w);
  }

  /** A number below 2^n has no bit at position n or above. */
  lemma {:induction false} NoHighBits(m: nat, n: nat, w: nat)
    requires m < Pow2(n) && w >= n
    ensures !Has(m, w)
    decreases n
  {
    if n == 0 {
      assert m == 0;
      NoBitsInZero(w);
    } else {
      NoHighBits(m / 2, n - 1, w - 1);
    }
  }

  /** Adding a bit below n to a number below 2^n stays below 2^n. */
  lemma {:induction false} AddBitBound(m: nat, v: nat, n: nat)
    requires !Has(m, v) && m < Pow2(n) && v < n
    ensures m + Pow2(v) < Pow2(n)
    decreases v
  {
    if v == 0 {
      assert m % 2 == 0;
    } else {
      AddBitBound(m / 2, v - 1, n - 1);
    }
  }

  /** 2^n - 1, the full mask, has every bit below n. */
  lemma {:induction false} FullHasAll(n: nat, w: nat)
    requires w < n
    ensures Has(Pow2(n) - 1, w)
    decreases n
  {
    if w > 0 {
      assert (Pow2(n) - 1) / 2 == Pow2(n - 1) - 1;
      FullHasAll(n - 1, w - 1);
    }
  }

  /** Two numbers below 2^n with the same bits are equal. */
  lemma {:induction false} SameBits(a: nat, b: nat, n: nat)
    requires a < Pow2(n) && b < Pow2(n)
    requires forall w :: 0 <= w < n ==> (Has(a, w) <==> Has(b, w))
    ensures a == b
    decreases n
  {
    if n > 0 {
      forall w | 0 <= w < n - 1 ensures Has(a / 2, w) <==> Has(b / 2, w) {
        assert Has(a, w + 1) <==> Has(b, w + 1);
      }
      SameBits(a / 2, b / 2, n - 1);
      assert Has(a, 0) <==> Has(b, 0);
    }
  }

  /** `(1 << n) - 1`: every station 0 .. n-1. */
  function FullMask(n: nat): nat
  {
    Pow2(n) - 1
  }
}
