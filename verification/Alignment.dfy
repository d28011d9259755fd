/** ALIGN_VAL (esconf/esconf-channel.c): rounding an offset up with a mask, in 64-bit arithmetic. */
module Alignment {
  import opened Base

  function Pow2(k: nat): (p: nat)
    ensures p >= 1
  {
    if k == 0 then 1 else 2 * Pow2(k - 1)
  }

  /** The bitwise "and" of two natural numbers. */
  function BitAnd(a: nat, b: nat): nat {
    if a == 0 || b == 0 then 0 else 2 * BitAnd(a / 2, b / 2) + (a % 2) * (b % 2)
  }

  /** ((val) + ((align) - 1)) & ~((align) - 1), on a 64-bit gsize. */
  function AlignVal(val: nat, align: nat): nat
    requires 1 <= align <= TWO_64
  {
    BitAnd((val + (align - 1)) % TWO_64, TWO_64 - 1 - (align - 1))
  }

  /** Rounding up to a multiple of 2^k: half of it is half of the offset, rounded up to a multiple of
      2^(k-1). */
  function AlignUp(val: nat, k: nat): nat
    decreases k
  {
    if k == 0 then val else 2 * AlignUp((val + 1) / 2, k - 1)
  }

  // ---------- the mask rounds up ----------

  lemma {:induction false} AndWithOnes(v: nat, w: nat)
    requires v < Pow2(w)
    ensures BitAnd(v, Pow2(w) - 1) == v
    decreases w
  {
    if v > 0 {
      var m := Pow2(w) - 1;
      assert m / 2 == Pow2(w - 1) - 1 && m % 2 == 1;
      AndWithOnes(v / 2, w - 1);
    }
  }

  lemma {:induction false} AlignZero(k: nat)
    ensures AlignUp(0, k) == 0
  {
    if k > 0 {
      AlignZero(k - 1);
    }
  }

  lemma {:induction false} Monotone(k: nat, w: nat)
    requires k <= w
    ensures Pow2(k) <= Pow2(w)
    decreases w
  {
    if k < w {
      Monotone(k, w - 1);
    }
  }

  /** A mask of `w` bits of which the lowest `k` are clear. */
  lemma {:induction false} MaskRoundsUp(v: nat, w: nat, k: nat)
    requires k <= w && v + Pow2(k) <= Pow2(w)
    ensures BitAnd(v + Pow2(k) - 1, Pow2(w) - Pow2(k)) == AlignUp(v, k)
    decreases k
  {
    if k == 0 {
      AndWithOnes(v, w);
    } else {
      var half := Pow2(k - 1);
      MaskRoundsUp((v + 1) / 2, w - 1, k - 1);
      AlignZero(k);
      AndHalves(v + 2 * half - 1, Pow2(w) - 2 * half, (v + 1) / 2 + half - 1, Pow2(w - 1) - half);
    }
  }

  lemma AndHalves(x: nat, m: nat, x': nat, m': nat)
    requires m == 2 * m' && x / 2 == x'
    ensures BitAnd(x, m) == 2 * BitAnd(x', m')
  {
    assert m / 2 == m' && m % 2 == 0;
    if x == 0 || m == 0 {
      assert x' == 0 || m' == 0;
    }
  }

  lemma {:induction false} Doubling(a: nat, b: nat)
    ensures Pow2(a + b) == Pow2(a) * Pow2(b)
    decreases b
  {
    if b > 0 {
      Doubling(a, b - 1);
      assert Pow2(a + b) == 2 * Pow2(a + (b - 1));
    }
  }

  lemma TwoTo64()
    ensures Pow2(64) == TWO_64
  {
    assert Pow2(4) == 0x10;
    Doubling(4, 4);
    Doubling(8, 8);
    Doubling(16, 16);
    Doubling(32, 32);
  }

  /** For every power of two, the mask rounds the offset up. */
  lemma AlignValRoundsUp(val: nat, k: nat)
    requires k <= 64 && val + Pow2(k) <= TWO_64
    ensures Pow2(k) <= TWO_64 && AlignVal(val, Pow2(k)) == AlignUp(val, k)
  {
    TwoTo64();
    MaskOfWord(val, 64, k);
  }

  lemma MaskOfWord(val: nat, w: nat, k: nat)
    requires k <= w && val + Pow2(k) <= Pow2(w) == TWO_64
    ensures AlignVal(val, Pow2(k)) == AlignUp(val, k)
  {
    var x := val + Pow2(k) - 1;
    assert x % TWO_64 == x;
    MaskRoundsUp(val, w, k);
  }

  // ---------- rounding up gives the least multiple ----------

  lemma {:induction false} AlignUpBounds(val: nat, k: nat)
    ensures val <= AlignUp(val, k) < val + Pow2(k)
  {
    if k > 0 {
      AlignUpBounds((val + 1) / 2, k - 1);
    }
  }

  lemma {:induction false} AlignUpMultiple(val: nat, k: nat) returns (q: nat)
    ensures AlignUp(val, k) == q * Pow2(k)
  {
    if k == 0 {
      q := val;
    } else {
      q := AlignUpMultiple((val + 1) / 2, k - 1);
      assert q * Pow2(k) == 2 * (q * Pow2(k - 1));
    }
  }

  /** The least multiple that is not below the offset. */
  lemma AlignUpIsLeast(val: nat, k: nat, m: nat)
    ensures AlignUp(val, k) % Pow2(k) == 0
    ensures val <= m && m % Pow2(k) == 0 ==> AlignUp(val, k) <= m
  {
    var q := AlignUpMultiple(val, k);
    AlignUpBounds(val, k);
    LeastMultiple(val, q, Pow2(k), m);
  }

  lemma LeastMultiple(val: nat, q: nat, a: nat, m: nat)
    requires a >= 1 && q * a < val + a
    ensures q * a % a == 0
    ensures val <= m && m % a == 0 ==> q * a <= m
  {
    MultipleMod(q, a);
    if m % a == 0 {
      MultiplesApart(q, m / a, a);
    }
  }

  lemma MultipleMod(q: nat, a: nat)
    requires a >= 1
    ensures (q * a) % a == 0
  {
    var d := q * a / a;
    assert d < q ==> (d + 1) * a <= q * a;
    assert q < d ==> (q + 1) * a <= d * a;
  }

  /** A multiple within less than one step above another number is not above the next multiple. */
  lemma MultiplesApart(q: nat, d: nat, a: nat)
    requires a >= 1
    ensures d < q ==> d * a + a <= q * a
    ensures q <= d ==> q * a <= d * a
  {
    assert d < q ==> (d + 1) * a <= q * a;
    assert q <= d ==> q * a <= d * a;
  }
}
