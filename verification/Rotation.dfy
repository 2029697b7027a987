/** Rotations: three quantized angles in one int. */
module Rotation {
  import opened Bits
  import opened Serialize
  import opened NetworkUtils
  import opened Geometry

  /** The quantizations as bit counts: `quantizationX == 2^bitsX`, and so on. The
      shifts are the bit positions of `quantizationY` and `quantizationZ`. */
  datatype Settings = Settings(bitsX: nat, bitsY: nat, bitsZ: nat) {
    predicate Valid() {
      bitsX + bitsY + bitsZ <= 31
    }

    /** `shiftX + shiftY` */
    function TopShift(): nat {
      bitsY + bitsZ
    }

    function Codes(): (n: nat)
      ensures n > 0
    {
      Pow2(bitsX + bitsY + bitsZ)
    }
  }

  const SHIPPED := Settings(10, 10, 10)

  /** The shift constants, as computed when the program loads. */
  method Shifts(quantizationY: S32, quantizationZ: S32, s: Settings) returns (shiftX: int, shiftY: int)
    requires s.bitsY < 31 && s.bitsZ < 31
    requires quantizationY == Pow2(s.bitsY) && quantizationZ == Pow2(s.bitsZ)
    ensures shiftX == s.bitsY && shiftY == s.bitsZ
  {
    shiftX := GetBitPosition(quantizationY);
    shiftY := GetBitPosition(quantizationZ);
  }

  datatype Angles = Angles(x: int, y: int, z: int)

  predicate InRange(s: Settings, a: Angles) {
    0 <= a.x < Pow2(s.bitsX) && 0 <= a.y < Pow2(s.bitsY) && 0 <= a.z < Pow2(s.bitsZ)
  }

  function Pack(s: Settings, a: Angles): int {
    Shl(a.x, s.TopShift()) + Shl(a.y, s.bitsZ) + a.z
  }

  /** What `Unpack` leaves in its reference arguments. */
  function Unpacked(s: Settings, value: int): Angles {
    var x := Field(value, s.bitsX, s.TopShift());
    var y := Field(value - x, s.bitsY, s.bitsZ);
    Angles(Shr(x, s.TopShift()), Shr(y, s.bitsZ), value - x - y)
  }

  method Unpack(s: Settings, value: int) returns (x: int, y: int, z: int)
    ensures Angles(x, y, z) == Unpacked(s, value)
  {
    var rest := value;
    x := Field(rest, s.bitsX, s.TopShift());
    rest := rest - x;
    ghost var top, below := x, rest;
    x := Shr(x, s.TopShift());
    y := Field(rest, s.bitsY, s.bitsZ);
    UnpackedIs(s, value, top, y, below);
    rest := rest - y;
    y := Shr(y, s.bitsZ);
    z := rest;
  }

  /** `n`, `y` and `z` as the digits of one number. */
  function Join(s: Settings, n: int, y: int, z: int): int {
    Shl(Shl(n, s.bitsY) + y, s.bitsZ) + z
  }

  lemma JoinDigits(s: Settings, n: int, y: nat, z: nat)
    requires y < Pow2(s.bitsY) && z < Pow2(s.bitsZ)
    ensures var v := Join(s, n, y, z);
            Shr(v, s.TopShift()) == n && Shr(v, s.bitsZ) == Shl(n, s.bitsY) + y
    ensures Low(Shl(n, s.bitsY) + y, s.bitsY) == y
  {
    SplitUnique(Shl(n, s.bitsY) + y, z, s.bitsZ);
    SplitUnique(n, y, s.bitsY);
    TopShr(s, Join(s, n, y, z));
  }

  lemma JoinMinusTop(s: Settings, n: int, x: int, y: int, z: int)
    ensures Join(s, n, y, z) - Shl(x, s.TopShift()) == Join(s, n - x, y, z)
  {
    ShlAdd(x, s.bitsY, s.bitsZ);
    ShlSum(n - x, x, s.bitsY);
    ShlSum(Shl(n - x, s.bitsY) + y, Shl(x, s.bitsY), s.bitsZ);
  }

  lemma JoinMinusMiddle(s: Settings, n: int, y: int, z: int)
    ensures Join(s, n, y, z) - Shl(y, s.bitsZ) == Join(s, n, 0, z)
  {
    ShlSum(Shl(n, s.bitsY), y, s.bitsZ);
  }

  lemma TopField(s: Settings, n: int, y: nat, z: nat)
    requires y < Pow2(s.bitsY) && z < Pow2(s.bitsZ)
    ensures Field(Join(s, n, y, z), s.bitsX, s.TopShift()) == Shl(Low(n, s.bitsX), s.TopShift())
  {
    JoinDigits(s, n, y, z);
  }

  lemma MiddleField(s: Settings, n: int, y: nat, z: nat)
    requires y < Pow2(s.bitsY) && z < Pow2(s.bitsZ)
    ensures Field(Join(s, n, y, z), s.bitsY, s.bitsZ) == Shl(y, s.bitsZ)
  {
    JoinDigits(s, n, y, z);
  }

  /** The masks take one digit each; z keeps the rest. */
  lemma UnpackedDigits(s: Settings, n: int, y: nat, z: nat)
    requires y < Pow2(s.bitsY) && z < Pow2(s.bitsZ)
    ensures Unpacked(s, Join(s, n, y, z)) ==
            Angles(Low(n, s.bitsX), y, Join(s, n - Low(n, s.bitsX), 0, z))
  {
    var x := Low(n, s.bitsX);
    TopField(s, n, y, z);
    JoinMinusTop(s, n, x, y, z);
    MiddleField(s, n - x, y, z);
    JoinMinusMiddle(s, n - x, y, z);
    UnpackedSteps(s, Join(s, n, y, z), Join(s, n - x, y, z), Join(s, n - x, 0, z), x, y);
  }

  lemma UnpackedSteps(s: Settings, v: int, v1: int, v2: int, x: int, y: int)
    requires Field(v, s.bitsX, s.TopShift()) == Shl(x, s.TopShift()) == v - v1
    requires Field(v1, s.bitsY, s.bitsZ) == Shl(y, s.bitsZ) == v1 - v2
    ensures Unpacked(s, v) == Angles(x, y, v2)
  {
    ShrOfShl(x, s.TopShift());
    ShrOfShl(y, s.bitsZ);
    UnpackedIs(s, v, Shl(x, s.TopShift()), Shl(y, s.bitsZ), v1);
  }

  lemma UnpackedIs(s: Settings, v: int, x: int, y: int, rest: int)
    requires x == Field(v, s.bitsX, s.TopShift()) && rest == v - x && y == Field(rest, s.bitsY, s.bitsZ)
    ensures Unpacked(s, v) == Angles(Shr(x, s.TopShift()), Shr(y, s.bitsZ), rest - y)
  {
  }

  lemma ShrOfShl(x: int, n: nat)
    ensures Shr(Shl(x, n), n) == x
  {
    SplitUnique(x, 0, n);
  }

  lemma DigitsOf(s: Settings, v: int)
    ensures v == Join(s, Shr(v, s.TopShift()), Low(Shr(v, s.bitsZ), s.bitsY), Low(v, s.bitsZ))
  {
    SplitAt(v, s.bitsZ);
    SplitAt(Shr(v, s.bitsZ), s.bitsY);
    TopShr(s, v);
  }

  lemma TopShr(s: Settings, v: int)
    ensures Shr(v, s.TopShift()) == Shr(Shr(v, s.bitsZ), s.bitsY)
  {
    assert s.TopShift() == s.bitsZ + s.bitsY;
    ShrAdd(v, s.bitsZ, s.bitsY);
  }

  lemma PackIsJoin(s: Settings, a: Angles)
    ensures Pack(s, a) == Join(s, a.x, a.y, a.z)
  {
    ShlAdd(a.x, s.bitsY, s.bitsZ);
    ShlSum(Shl(a.x, s.bitsY), a.y, s.bitsZ);
  }

  /** In-range triples survive, whatever the quantizations, and fit an int. */
  lemma UnpackInvertsPack(s: Settings, a: Angles)
    requires InRange(s, a)
    ensures Unpacked(s, Pack(s, a)) == a
    ensures 0 <= Pack(s, a) < s.Codes()
    ensures s.Valid() ==> s.Codes() <= 0x8000_0000
  {
    PackIsJoin(s, a);
    UnpackedDigits(s, a.x, a.y, a.z);
    LowSmall(a.x, s.bitsX);
    ShlZero(s.bitsY);
    ShlZero(s.bitsZ);
    JoinBound(s, a);
    if s.Valid() { Pow2At31(s.bitsX + s.TopShift()); }
  }

  lemma JoinBound(s: Settings, a: Angles)
    requires InRange(s, a)
    ensures 0 <= Join(s, a.x, a.y, a.z) < s.Codes()
  {
    ShlBound(a.x, s.bitsX, s.bitsY);
    ShlBound(Shl(a.x, s.bitsY) + a.y, s.bitsX + s.bitsY, s.bitsZ);
  }

  lemma {:induction false} ShlBound(a: nat, n: nat, k: nat)
    requires a < Pow2(n)
    ensures Shl(a, k) + Pow2(k) <= Pow2(n + k)
  {
    if k > 0 { ShlBound(a, n, k - 1); }
  }

  lemma {:induction false} Pow2At31(n: nat)
    requires n <= 31
    ensures Pow2(n) <= 0x8000_0000
    decreases 31 - n
  {
    if n < 31 {
      Pow2At31(n + 1);
    } else {
      Pow2Values();
      assert Pow2(32) == 2 * Pow2(31);
    }
  }

  /** Every int, negative or over-long, survives decoding and encoding again,
      because z takes all that the masks leave. */
  lemma PackInvertsUnpack(s: Settings, v: int)
    ensures Pack(s, Unpacked(s, v)) == v
  {
    var x := Field(v, s.bitsX, s.TopShift());
    var y := Field(v - x, s.bitsY, s.bitsZ);
    ShlAdd(Low(Shr(v, s.TopShift()), s.bitsX), s.bitsY, s.bitsZ);
    SplitUnique(Low(Shr(v, s.TopShift()), s.bitsX), 0, s.TopShift());
    SplitUnique(Low(Shr(v - x, s.bitsZ), s.bitsY), 0, s.bitsZ);
    assert Shl(Shr(x, s.TopShift()), s.TopShift()) == x;
    assert Shl(Shr(y, s.bitsZ), s.bitsZ) == y;
  }

  /** x and y always decode in range; z does exactly for the non-negative
      values below the number of codes. */
  lemma UnpackInRange(s: Settings, v: int)
    ensures 0 <= Unpacked(s, v).x < Pow2(s.bitsX) && 0 <= Unpacked(s, v).y < Pow2(s.bitsY)
    ensures 0 <= Unpacked(s, v).z < Pow2(s.bitsZ) <==> 0 <= v < s.Codes()
  {
    DigitsOf(s, v);
    UnpackedDigits(s, Shr(v, s.TopShift()), Low(Shr(v, s.bitsZ), s.bitsY), Low(v, s.bitsZ));
    if 0 <= v < s.Codes() {
      SmallValueInRange(s, v);
    } else {
      PackInvertsUnpack(s, v);
      if InRange(s, Unpacked(s, v)) { UnpackInvertsPack(s, Unpacked(s, v)); }
    }
  }

  lemma SmallValueInRange(s: Settings, v: int)
    requires 0 <= v < s.Codes()
    ensures var n := Shr(v, s.TopShift());
            Low(n, s.bitsX) == n && Join(s, n - Low(n, s.bitsX), 0, Low(v, s.bitsZ)) == Low(v, s.bitsZ)
  {
    TopIsSmall(s, v, Shr(v, s.TopShift()));
    JoinOfZero(s, Low(v, s.bitsZ));
  }

  lemma TopIsSmall(s: Settings, v: int, n: int)
    requires 0 <= v < s.Codes() && n == Shr(v, s.TopShift())
    ensures Low(n, s.bitsX) == n
  {
    ShrAdd(v, s.TopShift(), s.bitsX);
    assert s.TopShift() + s.bitsX == s.bitsX + s.bitsY + s.bitsZ;
    LowSmall(v, s.bitsX + s.bitsY + s.bitsZ);
    SplitAt(n, s.bitsX);
    ShlZero(s.bitsX);
  }

  lemma JoinOfZero(s: Settings, z: int)
    ensures Join(s, 0, 0, z) == z
  {
    ShlZero(s.bitsY);
    ShlZero(s.bitsZ);
  }

  /** `RotationCompressed::Set` and `Get` with the shipped constants. */
  predicate AnglesFit(v: Vector3) {
    FitsInt(Scaled(v.x / 360.0, 1024)) && FitsInt(Scaled(v.y / 360.0, 1024)) && FitsInt(Scaled(v.z / 360.0, 1024))
  }

  function Encode(v: Vector3): (r: S32)
    requires AnglesFit(v)
  {
    EncodeFits(v);
    Pack(SHIPPED, AngleCodes(v))
  }

  function AngleCodes(v: Vector3): Angles
    requires AnglesFit(v)
  {
    Angles(ConvertDegToQuantitized(v.x, 1024), ConvertDegToQuantitized(v.y, 1024), ConvertDegToQuantitized(v.z, 1024))
  }

  function Decode(r: S32): Vector3 {
    ToDegrees(Unpacked(SHIPPED, r))
  }

  function ToDegrees(a: Angles): Vector3 {
    Vector3(ConvertToDeg(a.x, 1024), ConvertToDeg(a.y, 1024), ConvertToDeg(a.z, 1024))
  }

  lemma AnglesFitIs(v: Vector3)
    ensures AnglesFit(v) <==>
            && -754974720.3515625 < v.x < 754974720.0
            && -754974720.3515625 < v.y < 754974720.0
            && -754974720.3515625 < v.z < 754974720.0
  {
    FitsIntIs(Scaled(v.x / 360.0, 1024));
    FitsIntIs(Scaled(v.y / 360.0, 1024));
    FitsIntIs(Scaled(v.z / 360.0, 1024));
  }

  /** The codes of x, y and z are the digits of one number. */
  lemma PackIs(s: Settings, a: Angles)
    ensures Pack(s, a) == a.x * Pow2(s.bitsY + s.bitsZ) + a.y * Pow2(s.bitsZ) + a.z
  {
    ShlIs(a.x, s.TopShift(), Pow2(s.TopShift()));
    ShlIs(a.y, s.bitsZ, Pow2(s.bitsZ));
  }

  /** With the shipped constants: ten bits of each. */
  lemma EncodedBits(v: Vector3)
    requires AnglesFit(v)
    ensures Encode(v) ==
            ConvertDegToQuantitized(v.x, 1024) * 0x10_0000
            + ConvertDegToQuantitized(v.y, 1024) * 0x400
            + ConvertDegToQuantitized(v.z, 1024)
  {
    Pow2Values();
    PackIs(SHIPPED, AngleCodes(v));
  }

  /** x and y are the middle digits, and z is all the rest. */
  lemma DecodedBits(r: S32)
    ensures var x, y := r / 0x10_0000 % 0x400, r / 0x400 % 0x400;
            && Decode(r).x == ConvertToDeg(x, 1024)
            && Decode(r).y == ConvertToDeg(y, 1024)
            && Decode(r).z == ConvertToDeg(r - x * 0x10_0000 - y * 0x400, 1024)
  {
    Pow2Values();
    var n, y, z := Shr(r, 20), Low(Shr(r, 10), 10), Low(r, 10);
    ShrIs(r, 20, 0x10_0000);
    ShrIs(r, 10, 0x400);
    ShrIs(r / 0x400, 10, 0x400);
    ShrIs(n, 10, 0x400);
    DigitsOf(SHIPPED, r);
    UnpackedDigits(SHIPPED, n, y, z);
    PackInvertsUnpack(SHIPPED, r);
    PackIs(SHIPPED, Unpacked(SHIPPED, r));
  }

  lemma EncodeFits(v: Vector3)
    requires AnglesFit(v)
    ensures InRange(SHIPPED, AngleCodes(v))
    ensures 0 <= Pack(SHIPPED, AngleCodes(v)) < 0x8000_0000
    ensures Unpacked(SHIPPED, Pack(SHIPPED, AngleCodes(v))) == AngleCodes(v)
  {
    Pow2Values();
    UnpackInvertsPack(SHIPPED, AngleCodes(v));
  }

  ghost predicate NearAngles(a: Vector3, b: Vector3, eps: real) {
    NearOnCircle(a.x, b.x, eps) && NearOnCircle(a.y, b.y, eps) && NearOnCircle(a.z, b.z, eps)
  }

  /** Each axis comes back less than one step away on the circle. */
  lemma RotationError(v: Vector3)
    requires AnglesFit(v)
    ensures NearAngles(v, Decode(Encode(v)), 360.0 / 1024.0)
  {
    EncodeFits(v);
    assert Decode(Encode(v)) == ToDegrees(AngleCodes(v));
    CodesNear(v);
  }

  lemma CodesNear(v: Vector3)
    requires AnglesFit(v)
    ensures NearAngles(v, ToDegrees(AngleCodes(v)), 360.0 / 1024.0)
  {
    AngleError(v.x, 1024);
    AngleError(v.y, 1024);
    AngleError(v.z, 1024);
  }

  /** A value survives decoding to degrees and encoding again exactly when it is
      a code: encoding gives nothing else. */
  lemma RotationCodeSurvives(r: S32)
    ensures AnglesFit(Decode(r)) && Encode(Decode(r)) == r <==> 0 <= r < 0x4000_0000
  {
    Codes30();
    if 0 <= r < 0x4000_0000 { CodeSurvives(r); }
    if AnglesFit(Decode(r)) { EncodeIsCode(Decode(r)); }
  }

  lemma CodeSurvives(r: S32)
    requires 0 <= r < SHIPPED.Codes()
    ensures AnglesFit(Decode(r)) && Encode(Decode(r)) == r
  {
    UnpackInRange(SHIPPED, r);
    PackInvertsUnpack(SHIPPED, r);
    Pow2Values();
    var a := Unpacked(SHIPPED, r);
    CodeFixedPoint(a.x, 1024);
    CodeFixedPoint(a.y, 1024);
    CodeFixedPoint(a.z, 1024);
  }

  lemma EncodeIsCode(v: Vector3)
    requires AnglesFit(v)
    ensures 0 <= Encode(v) < SHIPPED.Codes()
  {
    EncodeFits(v);
    UnpackInvertsPack(SHIPPED, AngleCodes(v));
  }

  lemma Codes30()
    ensures SHIPPED.Codes() == 0x4000_0000
  {
    Pow2Values();
    ShlAdd(1, 20, 10);
    ShlIs(Shl(1, 20), 10, 0x400);
  }
}
