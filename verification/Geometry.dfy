/** Quantized positions. */
module Geometry {
  import opened Bits
  import opened Serialize
  import opened NetworkUtils

  datatype Vector3 = Vector3(x: real, y: real, z: real)

  // Positions: three 20-bit magnitudes in 1/256 units and three sign bits.
  // Every step scales by a power of two, so `real` is exact here.

  const X_SHIFT := 43
  const Y_SHIFT := 23
  const Z_SHIFT := 3
  const PRECISION := 256.0

  function Abs(v: real): real {
    if v < 0.0 then -v else v
  }

  /** What `(long)(v * precision)` demands. */
  predicate FitsLong(v: real) {
    FitsInt(Abs(v) * PRECISION)
  }

  predicate AllFitLong(v: Vector3) {
    FitsLong(v.x) && FitsLong(v.y) && FitsLong(v.z)
  }

  function Magnitude(v: real): nat {
    Trunc(Abs(v) * PRECISION)
  }

  /** `(m << shift) & mask` in 64 bits. */
  function PackField(m: nat, shift: nat): nat {
    Field(Low(Shl(m, shift), 64), 20, shift)
  }

  /** `signs |= 1 << bit` for each negative axis. */
  function Signs(x: bool, y: bool, z: bool): (s: nat)
    ensures s == (if x then 4 else 0) + (if y then 2 else 0) + (if z then 1 else 0)
  {
    assert Shl(1, 2) == 4 && Shl(1, 1) == 2 && Shl(1, 0) == 1;
    assert Or(0, 4) == 4 && Or(0, 2) == 2 && Or(4, 2) == 6;
    assert Or(0, 1) == 1 && Or(2, 1) == 3 && Or(4, 1) == 5 && Or(6, 1) == 7;
    var s0 := if x then Or(0, Shl(1, 2)) else 0;
    var s1 := if y then Or(s0, Shl(1, 1)) else s0;
    if z then Or(s1, Shl(1, 0)) else s1
  }

  function SignsOf(v: Vector3): nat {
    Signs(v.x < 0.0, v.y < 0.0, v.z < 0.0)
  }

  function PackFields(x: nat, y: nat, z: nat, signs: nat): nat {
    Or(Or(Or(PackField(x, X_SHIFT), PackField(y, Y_SHIFT)), PackField(z, Z_SHIFT)), signs)
  }

  function PackPosition(v: Vector3): U64
    requires AllFitLong(v)
  {
    PackShape(Magnitude(v.x), Magnitude(v.y), Magnitude(v.z), SignsOf(v));
    PackFields(Magnitude(v.x), Magnitude(v.y), Magnitude(v.z), SignsOf(v))
  }

  /** `((p & mask) >> shift) / precision`, negated when the sign bit is set. */
  function UnpackAxis(p: U64, shift: nat, signBit: nat): real {
    AxisValue(Shr(Field(p, 20, shift), shift), Field(p, 1, signBit) != 0)
  }

  function AxisValue(code: nat, negative: bool): real {
    var u := code as real / PRECISION;
    if negative then -u else u
  }

  function UnpackPosition(p: U64): Vector3 {
    Vector3(UnpackAxis(p, X_SHIFT, 2), UnpackAxis(p, Y_SHIFT, 1), UnpackAxis(p, Z_SHIFT, 0))
  }

  /** The fields laid end to end: 20 bits each, above three sign bits. */
  function Compose(x: nat, y: nat, z: nat, signs: nat): nat {
    0x8 * (0x10_0000 * (0x10_0000 * x + y) + z) + signs
  }

  lemma PackFieldIs(m: nat, shift: nat)
    requires shift + 20 <= 64
    ensures PackField(m, shift) == Shl(Low(m, 20), shift)
  {
    ShrOfLow(Shl(m, shift), shift, 64 - shift);
    SplitUnique(m, 0, shift);
    LowLow(m, 64 - shift, 20);
  }

  lemma PackFieldsAre(x: nat, y: nat, z: nat)
    ensures PackField(x, X_SHIFT) == Low(x, 20) * 0x800_0000_0000
    ensures PackField(y, Y_SHIFT) == Low(y, 20) * 0x80_0000
    ensures PackField(z, Z_SHIFT) == Low(z, 20) * 0x8
  {
    PackFieldIs(x, X_SHIFT);
    PackFieldIs(y, Y_SHIFT);
    PackFieldIs(z, Z_SHIFT);
    Pow2Values();
    ShlIs(Low(x, 20), X_SHIFT, 0x800_0000_0000);
    ShlIs(Low(y, 20), Y_SHIFT, 0x80_0000);
    ShlIs(Low(z, 20), Z_SHIFT, 0x8);
  }

  lemma OrScaled(hi: nat, lo: nat, k: nat, p: nat)
    requires p == Pow2(k) && lo < p
    ensures Or(hi * p, lo) == hi * p + lo
  {
    ShlIs(hi, k, p);
    OrDisjoint(hi, lo, k);
  }

  lemma OrCompose(x: nat, y: nat, z: nat, signs: nat)
    requires x < 0x10_0000 && y < 0x10_0000 && z < 0x10_0000 && signs < 0x8
    ensures Or(Or(Or(x * 0x800_0000_0000, y * 0x80_0000), z * 0x8), signs) == Compose(x, y, z, signs)
  {
    Pow2Values();
    OrScaled(x, y * 0x80_0000, 43, 0x800_0000_0000);
    OrScaled(0x10_0000 * x + y, z * 0x8, 23, 0x80_0000);
    OrScaled(0x10_0000 * (0x10_0000 * x + y) + z, signs, 3, 0x8);
  }

  lemma Low20(m: nat)
    ensures Low(m, 20) < 0x10_0000 && Low(m, 20) == m % 0x10_0000
  {
    Pow2Values();
    ShrIs(m, 20, 0x10_0000);
  }

  /** The three magnitudes and the signs never overlap. */
  lemma PackShape(x: nat, y: nat, z: nat, signs: nat)
    requires signs < 8
    ensures PackFields(x, y, z, signs) == Compose(Low(x, 20), Low(y, 20), Low(z, 20), signs)
    ensures PackFields(x, y, z, signs) < 0x8000_0000_0000_0000
  {
    PackFieldsAre(x, y, z);
    Low20(x);
    Low20(y);
    Low20(z);
    OrCompose(Low(x, 20), Low(y, 20), Low(z, 20), signs);
  }

  /** The fields that the masks and shifts read. */
  lemma FieldsOf(p: nat)
    ensures Shr(p, Z_SHIFT) == p / 0x8 && Low(p, 3) == p % 0x8
    ensures Shr(p, Y_SHIFT) == p / 0x8 / 0x10_0000
    ensures Shr(p, X_SHIFT) == p / 0x8 / 0x10_0000 / 0x10_0000
  {
    Pow2Values();
    ShrIs(p, 3, 0x8);
    ShrAdd(p, 3, 20);
    ShrIs(p / 0x8, 20, 0x10_0000);
    ShrAdd(p, 23, 20);
    ShrIs(p / 0x8 / 0x10_0000, 20, 0x10_0000);
  }

  /** The fields of a composed code. */
  lemma Decompose(p: nat, x: nat, y: nat, z: nat, signs: nat)
    requires y < 0x10_0000 && z < 0x10_0000 && signs < 0x8
    requires p == Compose(x, y, z, signs)
    ensures Shr(p, X_SHIFT) == x && Low(Shr(p, Y_SHIFT), 20) == y
    ensures Low(Shr(p, Z_SHIFT), 20) == z && Low(p, 3) == signs
  {
    FieldsOf(p);
    Low20(p / 0x8);
    Low20(p / 0x8 / 0x10_0000);
  }

  /** Every 64-bit word is composed of its fields; the top one has 21 bits. */
  lemma Recompose(p: U64)
    ensures p == Compose(Shr(p, X_SHIFT), Low(Shr(p, Y_SHIFT), 20), Low(Shr(p, Z_SHIFT), 20), Low(p, 3))
  {
    FieldsOf(p);
    Low20(p / 0x8);
    Low20(p / 0x8 / 0x10_0000);
  }

  /** What one axis becomes: truncated to 20 bits of magnitude, sign kept. */
  function Quantize(v: real): real {
    AxisValue(Low(Magnitude(v), 20), v < 0.0)
  }

  lemma UnpackAxisIs(p: U64, shift: nat, signBit: nat, code: nat)
    requires signBit < 3 && code == Low(Shr(p, shift), 20)
    ensures UnpackAxis(p, shift, signBit) == AxisValue(code, Bit(Low(p, 3), signBit) == 1)
  {
    SplitUnique(code, 0, shift);
    SingleBit(p, signBit);
    BitOfLow(p, 3, signBit);
  }

  lemma SignBits(x: bool, y: bool, z: bool)
    ensures Bit(Signs(x, y, z), 2) == 1 <==> x
    ensures Bit(Signs(x, y, z), 1) == 1 <==> y
    ensures Bit(Signs(x, y, z), 0) == 1 <==> z
  {
    var s := Signs(x, y, z);
    assert Shr(s, 1) == s / 2;
    assert Shr(s, 2) == s / 2 / 2 by { assert Shr(s / 2, 1) == Shr(s / 2 / 2, 0); }
  }

  /** Unpacking gives back every axis quantized on its own: no axis, and no
      sign, disturbs another. */
  lemma PositionAxesIndependent(v: Vector3)
    requires AllFitLong(v)
    ensures UnpackPosition(PackPosition(v)) == Vector3(Quantize(v.x), Quantize(v.y), Quantize(v.z))
  {
    var p := PackPosition(v);
    var x, y, z := Low(Magnitude(v.x), 20), Low(Magnitude(v.y), 20), Low(Magnitude(v.z), 20);
    PackShape(Magnitude(v.x), Magnitude(v.y), Magnitude(v.z), SignsOf(v));
    Low20(Magnitude(v.x));
    Low20(Magnitude(v.y));
    Low20(Magnitude(v.z));
    Decompose(p, x, y, z, SignsOf(v));
    LowLow(Magnitude(v.x), 20, 20);
    SignBits(v.x < 0.0, v.y < 0.0, v.z < 0.0);
    UnpackAxisIs(p, X_SHIFT, 2, x);
    UnpackAxisIs(p, Y_SHIFT, 1, y);
    UnpackAxisIs(p, Z_SHIFT, 0, z);
  }

  /** The quantized axis is never larger in magnitude and never of the opposite
      sign, and it is within 1/256 exactly when the magnitude fits 20 bits. */
  lemma AxisError(v: real)
    ensures Abs(Quantize(v)) <= Abs(v)
    ensures if v < 0.0 then Quantize(v) <= 0.0 else Quantize(v) >= 0.0
    ensures Abs(v - Quantize(v)) < 1.0 / 256.0 <==> Abs(v) < 4096.0
  {
    Low20(Magnitude(v));
    TruncationError(Abs(v), Magnitude(v), Low(Magnitude(v), 20));
  }

  /** The first magnitude beyond the field: it comes back as zero. */
  lemma AxisOverflows()
    ensures Quantize(4096.0) == 0.0
  {
    assert Abs(4096.0) * PRECISION == 1048576.0;
    assert Magnitude(4096.0) == 0x10_0000;
    Low20(0x10_0000);
  }

  lemma TruncationError(a: real, m: nat, code: nat)
    requires m as real <= a * PRECISION < (m + 1) as real && code == m % 0x10_0000
    ensures code as real / PRECISION <= a
    ensures a - code as real / PRECISION < 1.0 / 256.0 <==> a < 4096.0
  {
    var u := code as real / PRECISION;
    assert u * PRECISION == code as real;
    if a < 4096.0 {
      assert m < 0x10_0000;
    } else {
      assert code as real <= 1048575.0;
    }
  }

  // The layout in numbers

  /** Magnitudes count 256ths, rounded towards zero, and must fit an int. */
  lemma MagnitudeIs(v: real)
    ensures Magnitude(v) as real <= 256.0 * (if v < 0.0 then -v else v) < (Magnitude(v) + 1) as real
    ensures FitsLong(v) <==> -8388608.0 < v < 8388608.0
  {
  }

  /** 20 bits of x from bit 43 on, of y from bit 23 on and of z from bit 3 on, and
      the signs of x, y and z in the bits 2, 1 and 0. */
  lemma PositionBits(v: Vector3)
    requires AllFitLong(v)
    ensures PackPosition(v) ==
            Magnitude(v.x) % 0x10_0000 * 0x800_0000_0000
            + Magnitude(v.y) % 0x10_0000 * 0x80_0000
            + Magnitude(v.z) % 0x10_0000 * 8
            + (if v.x < 0.0 then 4 else 0) + (if v.y < 0.0 then 2 else 0) + (if v.z < 0.0 then 1 else 0)
  {
    PackShape(Magnitude(v.x), Magnitude(v.y), Magnitude(v.z), SignsOf(v));
    Low20(Magnitude(v.x));
    Low20(Magnitude(v.y));
    Low20(Magnitude(v.z));
  }

  lemma UnpackedBits(p: U64)
    ensures var v := UnpackPosition(p);
            && v.x * 256.0 == Signed(p / 4 % 2 == 1, p / 0x800_0000_0000 % 0x10_0000)
            && v.y * 256.0 == Signed(p / 2 % 2 == 1, p / 0x80_0000 % 0x10_0000)
            && v.z * 256.0 == Signed(p % 2 == 1, p / 8 % 0x10_0000)
  {
    Pow2Values();
    LastBits(p);
    AxisBits(p, X_SHIFT, 2, 0x800_0000_0000);
    AxisBits(p, Y_SHIFT, 1, 0x80_0000);
    AxisBits(p, Z_SHIFT, 0, 8);
  }

  lemma AxisBits(p: U64, shift: nat, signBit: nat, w: nat)
    requires signBit < 3 && w == Pow2(shift)
    ensures UnpackAxis(p, shift, signBit) * 256.0 == Signed(Bit(Low(p, 3), signBit) == 1, p / w % 0x10_0000)
  {
    ShiftedBits(p, shift, w);
    UnpackAxisIs(p, shift, signBit, Low(Shr(p, shift), 20));
  }

  function Signed(negative: bool, n: nat): real {
    if negative then -(n as real) else n as real
  }

  lemma ShiftedBits(p: nat, shift: nat, w: nat)
    requires w == Pow2(shift)
    ensures Low(Shr(p, shift), 20) == p / w % 0x10_0000
  {
    ShrIs(p, shift, w);
    Low20(p / w);
  }

  lemma LastBits(p: nat)
    ensures Bit(Low(p, 3), 2) == p / 4 % 2 && Bit(Low(p, 3), 1) == p / 2 % 2 && Bit(Low(p, 3), 0) == p % 2
  {
    BitOfLow(p, 3, 2);
    BitOfLow(p, 3, 1);
    BitOfLow(p, 3, 0);
    assert Shr(p, 1) == p / 2;
    assert Shr(p, 2) == p / 2 / 2 by { assert Shr(p / 2, 1) == Shr(p / 2 / 2, 0); }
  }

  /** The sign bit of an axis is set although its magnitude field is zero. */
  predicate SignOnZero(p: U64, shift: nat, signBit: nat) {
    Bit(p, signBit) == 1 && Low(Shr(p, shift), 20) == 0
  }

  /** Exactly the codes with the unused top bit clear and no sign on a zero
      magnitude survive decoding and encoding again. */
  lemma PositionCodeSurvives(p: U64)
    ensures AllFitLong(UnpackPosition(p))
    ensures PackPosition(UnpackPosition(p)) == p <==>
            p < 0x8000_0000_0000_0000
            && !SignOnZero(p, X_SHIFT, 2) && !SignOnZero(p, Y_SHIFT, 1) && !SignOnZero(p, Z_SHIFT, 0)
  {
    var v := UnpackPosition(p);
    AxisReencodes(p, X_SHIFT, 2);
    AxisReencodes(p, Y_SHIFT, 1);
    AxisReencodes(p, Z_SHIFT, 0);
    PackShape(Magnitude(v.x), Magnitude(v.y), Magnitude(v.z), SignsOf(v));
    LowLow(Shr(p, X_SHIFT), 20, 20);
    LowLow(Shr(p, Y_SHIFT), 20, 20);
    LowLow(Shr(p, Z_SHIFT), 20, 20);
    ReencodeExact(p, PackPosition(v), SignsOf(v));
    SignsExact(p, v.x < 0.0, v.y < 0.0, v.z < 0.0);
  }

  lemma ReencodeExact(p: U64, p': nat, signs: nat)
    requires signs < 8
    requires p' == Compose(Low(Shr(p, X_SHIFT), 20), Low(Shr(p, Y_SHIFT), 20), Low(Shr(p, Z_SHIFT), 20), signs)
    ensures p' == p <==> p < 0x8000_0000_0000_0000 && signs == Low(p, 3)
  {
    Recompose(p);
    FieldsOf(p);
    Low20(Shr(p, X_SHIFT));
    Low20(Shr(p, Y_SHIFT));
    Low20(Shr(p, Z_SHIFT));
    ComposeExact(Shr(p, X_SHIFT), Low(Shr(p, Y_SHIFT), 20), Low(Shr(p, Z_SHIFT), 20), Low(p, 3), signs);
  }

  lemma ComposeExact(x: nat, y: nat, z: nat, s: nat, signs: nat)
    requires x < 0x20_0000 && y < 0x10_0000 && z < 0x10_0000 && s < 0x8 && signs < 0x8
    ensures Compose(x, y, z, s) < 0x8000_0000_0000_0000 <==> x < 0x10_0000
    ensures Compose(x % 0x10_0000, y, z, signs) == Compose(x, y, z, s) <==> x < 0x10_0000 && signs == s
  {
  }

  lemma SignsExact(p: U64, x: bool, y: bool, z: bool)
    ensures Signs(x, y, z) == Low(p, 3) <==>
            (x <==> Bit(p, 2) == 1) && (y <==> Bit(p, 1) == 1) && (z <==> Bit(p, 0) == 1)
  {
    Pow2Values();
    ThreeBits(Low(p, 3));
    BitOfLow(p, 3, 0);
    BitOfLow(p, 3, 1);
    BitOfLow(p, 3, 2);
  }

  lemma ThreeBits(s: nat)
    requires s < 8
    ensures s == 4 * Bit(s, 2) + 2 * Bit(s, 1) + Bit(s, 0)
  {
    assert Shr(s, 1) == s / 2;
    assert Shr(s, 2) == s / 2 / 2 by { assert Shr(s / 2, 1) == Shr(s / 2 / 2, 0); }
  }

  lemma AxisReencodes(p: U64, shift: nat, signBit: nat)
    requires signBit < 3
    ensures var v := UnpackAxis(p, shift, signBit);
            && FitsLong(v)
            && Magnitude(v) == Low(Shr(p, shift), 20)
            && (v < 0.0 <==> Bit(p, signBit) == 1 && Low(Shr(p, shift), 20) != 0)
  {
    Low20(Shr(p, shift));
    UnpackAxisIs(p, shift, signBit, Low(Shr(p, shift), 20));
    BitOfLow(p, 3, signBit);
  }
}
