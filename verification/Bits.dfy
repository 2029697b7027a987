/** The bitwise operators of the machine integers, on unbounded integers.

    A negative `a` stands for its two's-complement pattern, which Euclidean
    halving reads from the low end. A mask is never negative. Everything recurs
    one bit at a time, so that proofs about symbolic bit counts stay linear;
    `ShlIs`, `ShrIs` and `LowIs` give the arithmetic reading. */
module Bits {

  /** `a << k`, before any truncation to the width of the type. */
  function Shl(a: int, k: nat): (r: int)
    ensures a >= 0 ==> r >= a
    ensures a > 0 ==> r > 0
  {
    if k == 0 then a else 2 * Shl(a, k - 1)
  }

  /** `a >> k`, arithmetic for negative `a`. */
  function Shr(a: int, k: nat): (r: int)
    ensures a >= 0 ==> 0 <= r <= a
    decreases k, a
  {
    if k == 0 then a else Shr(a / 2, k - 1)
  }

  /** The number formed by the `k` low bits of `a`. */
  function Low(a: int, k: nat): (r: nat)
    ensures r < Pow2(k)
    decreases k, a
  {
    if k == 0 then 0 else a % 2 + 2 * Low(a / 2, k - 1)
  }

  function Pow2(k: nat): (p: nat)
    ensures p > 0
  {
    Shl(1, k)
  }

  /** `k` ones shifted up by `s`. */
  function Mask(k: nat, s: nat): nat {
    Shl(Pow2(k) - 1, s)
  }

  function Bit(a: int, i: nat): (b: int)
    ensures b == 0 || b == 1
  {
    Shr(a, i) % 2
  }

  /** `a & mask` */
  function And(a: int, mask: nat): nat
    decreases mask, a
  {
    if mask == 0 then 0
    else (if a % 2 == 1 && mask % 2 == 1 then 1 else 0) + 2 * And(a / 2, mask / 2)
  }

  /** `a | b` */
  function Or(a: nat, b: nat): nat
    decreases a + b
  {
    if a == 0 && b == 0 then 0
    else (if a % 2 == 1 || b % 2 == 1 then 1 else 0) + 2 * Or(a / 2, b / 2)
  }

  // The operators act bit by bit

  lemma {:induction false} ShrZero(i: nat)
    ensures Shr(0, i) == 0
  {
    if i > 0 { ShrZero(i - 1); }
  }

  lemma {:induction false} AndBit(a: int, mask: nat, i: nat)
    ensures Bit(And(a, mask), i) == if Bit(a, i) == 1 && Bit(mask, i) == 1 then 1 else 0
    decreases i
  {
    if mask == 0 {
      ShrZero(i);
    } else if i > 0 {
      AndBit(a / 2, mask / 2, i - 1);
    }
  }

  lemma {:induction false} OrBit(a: nat, b: nat, i: nat)
    ensures Bit(Or(a, b), i) == if Bit(a, i) == 1 || Bit(b, i) == 1 then 1 else 0
    decreases i
  {
    if a == 0 && b == 0 {
      ShrZero(i);
    } else if i > 0 {
      OrBit(a / 2, b / 2, i - 1);
    }
  }

  // Bit fields

  /** Masking with `k` low ones keeps the low bits, for negative numbers too. */
  lemma {:induction false} AndLow(a: int, k: nat)
    ensures And(a, Pow2(k) - 1) == Low(a, k)
    decreases k
  {
    if k > 0 {
      AndLow(a / 2, k - 1);
      assert (Pow2(k) - 1) / 2 == Pow2(k - 1) - 1;
    }
  }

  /** Masking with `k` ones shifted up by `s` isolates one bit field in place. */
  lemma {:induction false} AndField(a: int, k: nat, s: nat)
    ensures And(a, Mask(k, s)) == Shl(Low(Shr(a, s), k), s)
    decreases s
  {
    if s == 0 {
      AndLow(a, k);
    } else {
      AndField(a / 2, k, s - 1);
      assert Mask(k, s) / 2 == Mask(k, s - 1);
    }
  }

  /** `a & (2^k - 1)`, and the same field in place at bit `s`. */
  function LowBits(a: int, k: nat): (r: nat)
    ensures r == Low(a, k)
  {
    AndLow(a, k);
    And(a, Pow2(k) - 1)
  }

  function Field(a: int, k: nat, s: nat): (r: nat)
    ensures r == Shl(Low(Shr(a, s), k), s)
  {
    AndField(a, k, s);
    And(a, Mask(k, s))
  }

  /** Disjoint bit fields: `|` is `+`. */
  lemma {:induction false} OrDisjoint(hi: nat, lo: nat, k: nat)
    requires lo < Pow2(k)
    ensures Or(Shl(hi, k), lo) == Shl(hi, k) + lo
    decreases k
  {
    if k == 0 {
      OrZero(hi);
    } else {
      OrDisjoint(hi, lo / 2, k - 1);
    }
  }

  lemma {:induction false} OrZero(a: nat)
    ensures Or(a, 0) == a
  {
    if a > 0 {
      OrZero(a / 2);
    }
  }

  /** A number is its high part shifted up plus its low bits, in one way only. */
  lemma {:induction false} SplitAt(a: int, k: nat)
    ensures a == Shl(Shr(a, k), k) + Low(a, k)
    decreases k
  {
    if k > 0 {
      SplitAt(a / 2, k - 1);
    }
  }

  lemma {:induction false} SplitUnique(hi: int, lo: nat, k: nat)
    requires lo < Pow2(k)
    ensures Shr(Shl(hi, k) + lo, k) == hi
    ensures Low(Shl(hi, k) + lo, k) == lo
  {
    if k > 0 {
      SplitUnique(hi, lo / 2, k - 1);
      assert (Shl(hi, k) + lo) / 2 == Shl(hi, k - 1) + lo / 2;
    }
  }

  lemma {:induction false} ShlAdd(a: int, j: nat, k: nat)
    ensures Shl(a, j + k) == Shl(Shl(a, j), k)
  {
    if k > 0 {
      ShlAdd(a, j, k - 1);
    }
  }

  lemma {:induction false} ShrAdd(a: int, j: nat, k: nat)
    ensures Shr(a, j + k) == Shr(Shr(a, j), k)
    decreases j
  {
    if j > 0 {
      ShrAdd(a / 2, j - 1, k);
    }
  }

  lemma {:induction false} LowLow(a: int, n: nat, k: nat)
    requires k <= n
    ensures Low(Low(a, n), k) == Low(a, k)
    decreases k
  {
    if k > 0 {
      LowLow(a / 2, n - 1, k - 1);
    }
  }

  /** Truncation to `s + n` bits keeps every field that lies below. */
  lemma {:induction false} ShrOfLow(a: int, s: nat, n: nat)
    ensures Shr(Low(a, s + n), s) == Low(Shr(a, s), n)
    decreases s
  {
    if s > 0 {
      ShrOfLow(a / 2, s - 1, n);
    }
  }

  lemma {:induction false} BitOfLow(a: int, k: nat, i: nat)
    requires i < k
    ensures Bit(Low(a, k), i) == Bit(a, i)
    decreases i
  {
    if i > 0 {
      BitOfLow(a / 2, k - 1, i - 1);
    }
  }

  lemma {:induction false} ShlSum(a: int, b: int, k: nat)
    ensures Shl(a + b, k) == Shl(a, k) + Shl(b, k)
  {
    if k > 0 {
      ShlSum(a, b, k - 1);
    }
  }

  lemma {:induction false} LowSmall(a: nat, k: nat)
    requires a < Pow2(k)
    ensures Low(a, k) == a && Shr(a, k) == 0
  {
    if k > 0 {
      LowSmall(a / 2, k - 1);
    }
  }

  // Arithmetic readings, where the bit count is a constant

  lemma {:induction false} ShlIs(a: int, k: nat, p: nat)
    requires p == Pow2(k)
    ensures Shl(a, k) == a * p
  {
    if k > 0 {
      ShlIs(a, k - 1, Pow2(k - 1));
      assert a * (2 * Pow2(k - 1)) == 2 * (a * Pow2(k - 1));
    }
  }

  lemma ShrIs(a: int, k: nat, p: nat)
    requires p == Pow2(k)
    ensures Shr(a, k) == a / p && Low(a, k) == a % p
  {
    SplitAt(a, k);
    ShlIs(Shr(a, k), k, p);
    DivUnique(a, p, Shr(a, k), Low(a, k));
  }

  lemma DivUnique(a: int, m: int, q: int, r: int)
    requires m > 0 && a == q * m + r && 0 <= r < m
    ensures a / m == q && a % m == r
  {
    var d := a / m - q;
    assert d * m == r - a % m by {
      assert a == a / m * m + a % m;
      assert d * m == a / m * m - q * m;
    }
    assert d == 0 by {
      if d != 0 { MulGap(m, d); }
    }
  }

  lemma {:induction false} MulGap(m: int, d: int)
    requires m > 0 && d != 0
    ensures if d > 0 then d * m >= m else d * m <= -m
    decreases if d > 0 then d else -d
  {
    if d > 1 {
      MulGap(m, d - 1);
      assert d * m == (d - 1) * m + m;
    } else if d < -1 {
      MulGap(m, d + 1);
      assert d * m == (d + 1) * m - m;
    }
  }

  lemma Pow2Values()
    ensures Pow2(3) == 8 && Pow2(10) == 0x400 && Pow2(16) == 0x1_0000
    ensures Pow2(20) == 0x10_0000 && Pow2(23) == 0x80_0000 && Pow2(31) == 0x8000_0000 && Pow2(32) == 0x1_0000_0000
    ensures Pow2(43) == 0x800_0000_0000 && Pow2(64) == 0x1_0000_0000_0000_0000
  {
    assert Shl(1, 3) == 8;
    assert Shl(1, 10) == 0x400;
    assert Shl(1, 16) == 0x1_0000;
    ShlAdd(1, 10, 10);
    ShlIs(Shl(1, 10), 10, 0x400);
    ShlAdd(1, 20, 3);
    ShlIs(Shl(1, 20), 3, 8);
    ShlAdd(1, 16, 16);
    ShlIs(Shl(1, 16), 16, 0x1_0000);
    assert Pow2(32) == 2 * Pow2(31);
    ShlAdd(1, 23, 20);
    ShlIs(Shl(1, 23), 20, 0x10_0000);
    ShlAdd(1, 32, 32);
    ShlIs(Shl(1, 32), 32, 0x1_0000_0000);
  }
}
