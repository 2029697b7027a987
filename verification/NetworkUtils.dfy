/** Angle quantization and the shift constants derived from it.

    Angles are `real`. The division by 360 rounds in floating point, so the
    error bounds are those of the ideal arithmetic. */
module NetworkUtils {
  import opened Bits
  import opened Serialize

  /** C++ `%`: the remainder has the sign of the dividend. */
  function CMod(a: int, b: int): int
    requires b > 0
  {
    if a >= 0 then a % b else -(-a % b)
  }

  method Wrap(value: int, range: int) returns (r: int)
    requires range > 0
    ensures r == value % range
  {
    r := CMod(value, range);
    if r < 0 {
      r := r + range;
    }
    ghost var q := if value >= 0 then value / range else -(-value / range) - (if -value % range > 0 then 1 else 0);
    assert q * range + r == value by {
      if value >= 0 {
        assert value == value / range * range + value % range;
      } else {
        assert -value == -value / range * range + -value % range;
        assert -(-value / range) * range == -(-value / range * range);
        assert (-(-value / range) - 1) * range == -(-value / range * range) - range;
      }
    }
    DivUnique(value, range, q, r);
  }

  /** C++ conversion to an integer type: towards zero. */
  function Trunc(x: real): (t: int)
    ensures x >= 0.0 ==> 0 <= t && t as real <= x < (t + 1) as real
    ensures x < 0.0 ==> t <= 0 && (t - 1) as real < x <= t as real
  {
    if x >= 0.0 then x.Floor else -(-x).Floor
  }

  predicate FitsInt(x: real) {
    -0x8000_0000 <= Trunc(x) < 0x8000_0000
  }

  lemma FitsIntIs(x: real)
    ensures FitsInt(x) <==> -2147483649.0 < x < 2147483648.0
  {
  }

  function ConvertToDeg(value: int, range: int): real
    requires range > 0
  {
    value as real / range as real * 360.0
  }

  function Scaled(value: real, range: int): real {
    value * range as real
  }

  function ConvertRange(value: real, range: int): (r: int)
    requires range > 0 && FitsInt(Scaled(value, range))
    ensures 0 <= r < range
  {
    Trunc(Scaled(value, range)) % range
  }

  function ConvertDegToQuantitized(value: real, quantitization: int): (r: int)
    requires quantitization > 0 && FitsInt(Scaled(value / 360.0, quantitization))
    ensures 0 <= r < quantitization
  {
    ConvertRange(value / 360.0, quantitization)
  }

  function Turns(k: int): real {
    360.0 * k as real
  }

  /** `a` and `b` are less than `eps` degrees apart on the circle. */
  ghost predicate NearOnCircle(a: real, b: real, eps: real) {
    exists k :: -eps < a - b - Turns(k) < eps
  }

  /** What `a` loses on the circle to become `b`: less than `eps`, towards zero. */
  ghost predicate Loses(a: real, b: real, eps: real) {
    exists k :: if a >= 0.0 then 0.0 <= a - b - Turns(k) < eps else -eps < a - b - Turns(k) <= 0.0
  }

  /** Negative and multi-turn angles included, encoding loses less than one step. */
  lemma AngleError(a: real, q: int)
    requires q > 0 && FitsInt(Scaled(a / 360.0, q))
    ensures NearOnCircle(a, ConvertToDeg(ConvertDegToQuantitized(a, q), q), 360.0 / q as real)
  {
    var k := AngleLoss(a, q);
    assert -(360.0 / q as real) < a - ConvertToDeg(ConvertDegToQuantitized(a, q), q) - Turns(k);
  }

  /** And that towards zero. */
  lemma AngleTowardsZero(a: real, q: int)
    requires q > 0 && FitsInt(Scaled(a / 360.0, q))
    ensures Loses(a, ConvertToDeg(ConvertDegToQuantitized(a, q), q), 360.0 / q as real)
  {
    var k := AngleLoss(a, q);
  }

  lemma AngleLoss(a: real, q: int) returns (k: int)
    requires q > 0 && FitsInt(Scaled(a / 360.0, q))
    ensures var loss, step := a - ConvertToDeg(ConvertDegToQuantitized(a, q), q) - Turns(k), 360.0 / q as real;
            if a >= 0.0 then 0.0 <= loss < step else -step < loss <= 0.0
  {
    var s := Scaled(a / 360.0, q);
    var t := Trunc(s);
    RealDivision(t, q);
    ScaledSign(a, q);
    StepBound(s - t as real, q as real);
    ErrorIsScaled(a, t % q, t / q, q, s - t as real);
    k := t / q;
  }

  lemma ScaledSign(a: real, q: int)
    requires q > 0
    ensures a >= 0.0 <==> Scaled(a / 360.0, q) >= 0.0
  {
  }

  /** Half a degree below zero is between one and two steps: one is kept, where
      rounding down would keep two. */
  lemma HalfDegreeBelow()
    ensures FitsInt(Scaled(-0.5 / 360.0, 1024)) && ConvertDegToQuantitized(-0.5, 1024) == 1023
  {
    var s := Scaled(-0.5 / 360.0, 1024);
    assert s * 360.0 == -512.0;
    assert Trunc(s) == -1;
  }

  /** A code is that fraction of the full turn. */
  lemma DegreesOf(value: int, range: int)
    requires range > 0
    ensures ConvertToDeg(value, range) * range as real == 360.0 * value as real
  {
    UndoDivision(value as real, range as real);
    var r := range as real;
    assert value as real / r * 360.0 * r == value as real / r * r * 360.0;
  }

  lemma RealDivision(t: int, q: int)
    requires q > 0
    ensures t as real == (t / q) as real * q as real + (t % q) as real
  {
    CastProduct(t / q, q);
    assert t == t / q * q + t % q;
  }

  lemma ErrorIsScaled(a: real, c: int, k: int, q: int, e: real)
    requires q > 0 && e == Scaled(a / 360.0, q) - (k as real * q as real + c as real)
    ensures a - ConvertToDeg(c, q) - Turns(k) == 360.0 / q as real * e
  {
    ScaledError(a, Scaled(a / 360.0, q), c as real, k as real, q as real, ConvertToDeg(c, q));
  }

  lemma CastProduct(k: int, q: int)
    ensures (k * q) as real == k as real * q as real
  {
  }

  lemma ScaledError(a: real, s: real, c: real, k: real, q: real, deg: real)
    requires q > 0.0 && s == a / 360.0 * q && deg == c / q * 360.0
    ensures a - deg - 360.0 * k == 360.0 / q * (s - (k * q + c))
  {
    var step := 360.0 / q;
    assert step * q == 360.0;
    assert step * s == a by {
      assert step * s == a / 360.0 * (step * q);
    }
    assert step * c == deg by {
      assert c / q * 360.0 == c * step;
    }
    assert step * (k * q) == k * (step * q);
    assert step * (s - (k * q + c)) == step * s - step * (k * q) - step * c;
  }

  lemma StepBound(e: real, q: real)
    requires q > 0.0 && -1.0 < e < 1.0
    ensures -(360.0 / q) < 360.0 / q * e < 360.0 / q
    ensures (e >= 0.0 ==> 360.0 / q * e >= 0.0) && (e <= 0.0 ==> 360.0 / q * e <= 0.0)
  {
    var step := 360.0 / q;
    assert step > 0.0;
    assert step * (1.0 - e) > 0.0;
    assert step * (1.0 + e) > 0.0;
  }

  /** Every code is a fixed point of decoding then encoding. */
  lemma CodeFixedPoint(c: int, q: int)
    requires 0 <= c < q && q < 0x8000_0000
    ensures FitsInt(Scaled(ConvertToDeg(c, q) / 360.0, q))
    ensures ConvertDegToQuantitized(ConvertToDeg(c, q), q) == c
  {
    ScaledBack(c, q);
    DivUnique(c, q, 0, c);
  }

  lemma ScaledBack(c: int, q: int)
    requires q > 0
    ensures Scaled(ConvertToDeg(c, q) / 360.0, q) == c as real
  {
    assert ConvertToDeg(c, q) / 360.0 == c as real / q as real;
    UndoDivision(c as real, q as real);
  }

  lemma UndoDivision(x: real, q: real)
    requires q > 0.0
    ensures x / q * q == x
  {
  }

  /** `x & (x - 1)` on the 32 bits of an int. The subtraction overflows for the
      least int. */
  predicate IsPowerOfTwo(x: S32)
    requires x > -0x8000_0000
  {
    And(x - 1, ToU32(x)) == 0
  }

  /** The documented reading holds for every positive number, and no negative one
      passes; zero does. */
  lemma IsPowerOfTwoExact(x: S32)
    requires x > -0x8000_0000
    ensures IsPowerOfTwo(x) <==> x == 0 || exists k: nat :: x == Pow2(k)
  {
    if x >= 0 { NoBitsLeft(x); } else { SignBitStays(x); }
  }

  lemma SignBit(a: int)
    requires -0x8000_0000 <= a < 0 || 0x8000_0000 <= a < 0x1_0000_0000
    ensures Bit(a, 31) == 1
  {
    Pow2Values();
    ShrIs(a, 31, 0x8000_0000);
  }

  lemma SignBitStays(x: S32)
    requires -0x8000_0000 < x < 0
    ensures And(x - 1, ToU32(x)) != 0
  {
    SignBit(x - 1);
    SignBit(ToU32(x));
    AndBit(x - 1, ToU32(x), 31);
    ShrZero(31);
  }

  lemma {:induction false} NoBitsLeft(x: nat)
    ensures And(x - 1, x) == 0 <==> x == 0 || exists k: nat :: x == Pow2(k)
    decreases x
  {
    if x > 1 {
      if x % 2 == 1 {
        var h := x / 2;
        assert And(x - 1, x) == 2 * And(h, h);
        AndSelf(h);
        forall k: nat ensures x != Pow2(k) { assert k > 0 ==> Pow2(k) == 2 * Pow2(k - 1); }
      } else {
        NoBitsLeft(x / 2);
        assert (x - 1) / 2 == x / 2 - 1;
        assert And(x - 1, x) == 2 * And(x / 2 - 1, x / 2);
        if k: nat :| x / 2 == Pow2(k) {
          assert x == Pow2(k + 1);
        }
        forall k: nat | x == Pow2(k) ensures exists j: nat :: x / 2 == Pow2(j) {
          assert x / 2 == Pow2(k - 1);
        }
      }
    } else if x == 1 {
      assert x == Pow2(0);
    }
  }

  lemma {:induction false} AndSelf(x: nat)
    ensures And(x, x) == x
  {
    if x > 0 { AndSelf(x / 2); }
  }

  /** The position of the lowest set bit of a 32-bit int, or -1. */
  method GetBitPosition(input: S32) returns (i: int)
    ensures i == -1 <==> input == 0
    ensures i != -1 ==> 0 <= i < 32 && Bit(input, i) == 1 && Low(input, i) == 0
    ensures forall k: nat :: k < 31 && input == Pow2(k) ==> i == k
  {
    i := 0;
    while i < 32
      invariant 0 <= i <= 32
      invariant Low(input, i) == 0
    {
      if Field(input, 1, i) != 0 {
        SingleBit(input, i);
        forall k: nat | k < 31 && input == Pow2(k) ensures i == k { PowerBits(k, i); }
        return i;
      }
      SingleBit(input, i);
      LowNext(input, i);
      i := i + 1;
    }
    ZeroBits(input);
    i := -1;
  }

  lemma SingleBit(a: int, i: nat)
    ensures Field(a, 1, i) != 0 <==> Bit(a, i) == 1
  {
    assert Low(Shr(a, i), 1) == Bit(a, i) by { assert Low(Shr(a, i) / 2, 0) == 0; }
    ShrZero(i);
    if Bit(a, i) == 0 { ShlZero(i); }
  }

  lemma {:induction false} ShlZero(k: nat)
    ensures Shl(0, k) == 0
  {
    if k > 0 { ShlZero(k - 1); }
  }

  lemma {:induction false} LowNext(a: int, k: nat)
    ensures Low(a, k + 1) == Low(a, k) + Shl(Bit(a, k), k)
    decreases k
  {
    if k > 0 { LowNext(a / 2, k - 1); }
  }

  /** A 32-bit number none of whose bits is set is zero. */
  lemma ZeroBits(input: S32)
    requires Low(input, 32) == 0
    ensures input == 0
  {
    Pow2Values();
    SplitAt(input, 32);
    ShlIs(Shr(input, 32), 32, 0x1_0000_0000);
  }

  lemma {:induction false} PowerBits(k: nat, i: nat)
    ensures Bit(Pow2(k), i) == 1 && Low(Pow2(k), i) == 0 ==> i == k
  {
    if i > 0 {
      if k == 0 {
        LowNonzero(i);
      } else {
        assert Pow2(k) / 2 == Pow2(k - 1);
        PowerBits(k - 1, i - 1);
      }
    }
  }

  lemma LowNonzero(i: nat)
    requires i > 0
    ensures Low(1, i) > 0
  {
  }
}
