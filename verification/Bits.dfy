/**
 Machine words as natural numbers, with the bitwise operators of the source spelled out bit by bit.
 `And` and `Or` are defined on binary digits, so that masking and flag combination are theorems here
 rather than modelling decisions; shifts are repeated doubling and halving.
 */
module Bits {
  import opened Machine

  function Pow2(n: nat): (p: nat)
    ensures p > 0
  {
    if n == 0 then 1 else 2 * Pow2(n - 1)
  }

  /** Bitwise conjunction (`x & y`). */
  function And(x: nat, y: nat): nat {
    if x == 0 || y == 0 then 0
    else 2 * And(x / 2, y / 2) + (if x % 2 == 1 && y % 2 == 1 then 1 else 0)
  }

  /** Bitwise disjunction (`x | y`). */
  function Or(x: nat, y: nat): nat {
    if x == 0 then y
    else if y == 0 then x
    else 2 * Or(x / 2, y / 2) + (if x % 2 == 1 || y % 2 == 1 then 1 else 0)
  }

  /** `x << n`, before truncation to a word. */
  function Shl(x: nat, n: nat): nat {
    if n == 0 then x else 2 * Shl(x, n - 1)
  }

  /** `x >> n`. */
  function Shr(x: nat, n: nat): nat {
    if n == 0 then x else Shr(x / 2, n - 1)
  }

  /** The low n bits of x. */
  function Low(x: nat, n: nat): nat {
    if n == 0 then 0 else 2 * Low(x / 2, n - 1) + x % 2
  }

  /** A word of n ones. */
  function Ones(n: nat): nat {
    if n == 0 then 0 else 2 * Ones(n - 1) + 1
  }

  lemma {:induction false} Pow2Add(m: nat, n: nat)
    ensures Pow2(m + n) == Pow2(m) * Pow2(n)
  {
    if m > 0 { Pow2Add(m - 1, n); }
  }

  lemma Pow2Double(n: nat, p: nat)
    requires Pow2(n) == p
    ensures Pow2(2 * n) == p * p
  {
    Pow2Add(n, n);
  }

  lemma Pow2Of64()
    ensures Pow2(64) == U64
  {
    assert Pow2(2) == 4;
    Pow2Double(2, 4);
    Pow2Double(4, 0x10);
    Pow2Double(8, 0x100);
    Pow2Double(16, 0x1_0000);
    Pow2Double(32, 0x1_0000_0000);
  }

  lemma DivUnique(x: int, m: int, q: int, r: int)
    requires m > 0 && x == q * m + r && 0 <= r < m
    ensures x / m == q && x % m == r
  {
    assert (x / m - q) * m == r - x % m;
    Between((x / m - q), m, r - x % m);
  }

  lemma Between(d: int, m: int, e: int)
    requires m > 0 && d * m == e && -m < e < m
    ensures d == 0
  {
  }

  lemma DivisionOf(x: nat, m: nat)
    requires m > 0
    ensures x == x / m * m + x % m && x % m < m
  {
  }

  lemma SplitParts(a: nat, p: nat, h: nat, s: nat, q: nat, r: nat)
    requires s < a && r < p && h == q * p + r
    ensures h * a + s == q * (a * p) + (a * r + s)
    ensures a * r + s < a * p
  {
    assert h * a == q * (a * p) + a * r;
    assert a * r <= a * (p - 1);
  }

  /** Dividing by a * p is dividing by a and then by p. */
  lemma SplitDivMod(x: nat, a: nat, p: nat, m: nat)
    requires a > 0 && p > 0 && m == a * p
    ensures m > 0 && x / m == x / a / p && x % m == a * (x / a % p) + x % a
  {
    var h, s := x / a, x % a;
    var q, r := h / p, h % p;
    DivisionOf(x, a);
    DivisionOf(h, p);
    SplitParts(a, p, h, s, q, r);
    DivUnique(x, m, q, a * r + s);
  }

  /** Shifting right divides, and the low bits are the remainder. */
  lemma {:induction false} ShrLowIsDivMod(x: nat, n: nat)
    ensures Shr(x, n) == x / Pow2(n) && Low(x, n) == x % Pow2(n)
  {
    if n > 0 {
      ShrLowIsDivMod(x / 2, n - 1);
      SplitDivMod(x, 2, Pow2(n - 1), Pow2(n));
    }
  }

  lemma {:induction false} OnesIsPow2(n: nat)
    ensures Ones(n) == Pow2(n) - 1
  {
    if n > 0 { OnesIsPow2(n - 1); }
  }

  lemma AndUnfold(x: nat, y: nat)
    ensures And(x, y) == 2 * And(x / 2, y / 2) + (if x % 2 == 1 && y % 2 == 1 then 1 else 0)
  {
  }

  lemma OrUnfold(x: nat, y: nat)
    ensures Or(x, y) == 2 * Or(x / 2, y / 2) + (if x % 2 == 1 || y % 2 == 1 then 1 else 0)
  {
  }

  /** Masking with n ones keeps the low n bits. */
  lemma {:induction false} AndOnes(x: nat, n: nat)
    ensures And(x, Ones(n)) == Low(x, n)
  {
    if n > 0 {
      AndOnes(x / 2, n - 1);
      AndUnfold(x, Ones(n));
    }
  }

  /** The mask of the m bits above bit n, applied to any word, extracts exactly that field in place. */
  lemma {:induction false} FieldAnd(x: nat, n: nat, m: nat)
    ensures And(x, Shl(Ones(m), n)) == Shl(Low(Shr(x, n), m), n)
  {
    if n == 0 {
      AndOnes(x, m);
    } else {
      FieldAnd(x / 2, n - 1, m);
      AndUnfold(x, Shl(Ones(m), n));
    }
  }

  /** `|` joins a word below bit n with a word shifted above it. */
  lemma {:induction false} OrJoin(lo: nat, hi: nat, n: nat)
    requires Shr(lo, n) == 0
    ensures Or(lo, Shl(hi, n)) == lo + Shl(hi, n) == Or(Shl(hi, n), lo)
  {
    if n == 0 {
    } else {
      OrJoin(lo / 2, hi, n - 1);
      OrUnfold(lo, Shl(hi, n));
      OrUnfold(Shl(hi, n), lo);
    }
  }

  /** `!(2^k - 1)` in a w-bit word is w - k ones above k zeros. */
  lemma {:induction false} NotOnes(k: nat, w: nat)
    requires k <= w
    ensures Shl(Ones(w - k), k) == Pow2(w) - Pow2(k)
  {
    if k == 0 {
      OnesIsPow2(w);
    } else {
      NotOnes(k - 1, w - 1);
    }
  }

  lemma {:induction false} LowIdentity(x: nat, n: nat)
    requires Shr(x, n) == 0
    ensures Low(x, n) == x
  {
    if n > 0 { LowIdentity(x / 2, n - 1); }
  }

  lemma {:induction false} ShrShr(x: nat, m: nat, n: nat)
    ensures Shr(Shr(x, m), n) == Shr(x, m + n)
  {
    if m > 0 { ShrShr(x / 2, m - 1, n); }
  }

  lemma {:induction false} ShlShr(x: nat, n: nat)
    ensures x == Shl(Shr(x, n), n) + Low(x, n)
  {
    if n > 0 { ShlShr(x / 2, n - 1); }
  }

  lemma {:induction false} ShrSmall(x: nat, n: nat)
    ensures Shr(x, n) == 0 <==> x < Pow2(n)
  {
    if n > 0 { ShrSmall(x / 2, n - 1); }
  }

  /** `x & !(2^k - 1)` on w-bit words rounds down to a multiple of 2^k. */
  lemma AlignMask(x: nat, k: nat, w: nat)
    requires x < Pow2(w) && k <= w
    ensures Pow2(k) <= Pow2(w)
    ensures And(x, Pow2(w) - Pow2(k)) == x - x % Pow2(k)
  {
    NotOnes(k, w);
    FieldAnd(x, k, w - k);
    ShrSmall(x, w);
    ShrShr(x, k, w - k);
    LowIdentity(Shr(x, k), w - k);
    ShlShr(x, k);
    ShrLowIsDivMod(x, k);
  }
}
