/** Exact numeric casts. A finite binary float is the real number it stands for, so the sign of zero plays no part;
    rounding to a float format is a parameter of which only one thing is used: it leaves a number of the format alone.
    */
module Casts {
  import opened Basics
  import opened Schemas

  // ---------- powers of two ----------

  function Power(e: nat): (p: nat)
    ensures p > 0
  {
    if e == 0 then 1 else 2 * Power(e - 1)
  }

  /** Two to a positive or negative exponent. */
  function Scale(e: int): (s: real)
    ensures s > 0.0
    decreases if e < 0 then -e else e
  {
    if e == 0 then 1.0 else if e > 0 then 2.0 * Scale(e - 1) else Scale(e + 1) / 2.0
  }

  lemma {:induction false} ScaleIsPower(e: nat)
    ensures Scale(e) == Power(e) as real
  {
    if e > 0 {
      ScaleIsPower(e - 1);
    }
  }

  lemma {:induction false} ScaleInverse(e: nat)
    ensures Scale(0 - e) * Power(e) as real == 1.0
  {
    if e > 0 {
      ScaleInverse(e - 1);
      var a, b := Scale(1 - e), Power(e - 1) as real;
      assert Scale(0 - e) == a / 2.0 && Power(e) as real == 2.0 * b;
      assert (a / 2.0) * (2.0 * b) == a * b;
    }
  }

  lemma {:induction false} PowerSum(a: nat, b: nat)
    ensures Power(a + b) == Power(a) * Power(b)
  {
    if a > 0 {
      PowerSum(a - 1, b);
      assert Power(a) * Power(b) == 2 * (Power(a - 1) * Power(b));
    }
  }

  lemma {:induction false} PowerGrows(a: nat, b: nat)
    requires a <= b
    ensures Power(a) <= Power(b)
    decreases b
  {
    if a < b {
      PowerGrows(a, b - 1);
    }
  }

  // ---------- integers that fit a mantissa ----------

  /** The number of bits up to the leading one: the word size less the leading zeros. */
  function SignificantBits(value: nat): nat {
    if value == 0 then 0 else 1 + SignificantBits(value / 2)
  }

  function TrailingZeros(value: nat): nat
    requires value > 0
  {
    if value % 2 == 1 then 0 else 1 + TrailingZeros(value / 2)
  }

  function IntegerIsExact(value: nat, digits: nat): bool {
    if value == 0 then true
    else
      SignificantBits(value) <= digits || TrailingZeros(value) >= SignificantBits(value) - digits
  }

  lemma {:induction false} BitsBound(value: nat, bits: nat)
    ensures SignificantBits(value) <= bits <==> value < Power(bits)
  {
    if value == 0 || bits == 0 {
    } else {
      BitsBound(value / 2, bits - 1);
    }
  }

  /** The trailing zeros are the largest power of two that divides the value. */
  lemma {:induction false} TrailingZerosDivide(value: nat) returns (odd: nat)
    requires value > 0
    ensures value == odd * Power(TrailingZeros(value)) && odd % 2 == 1
  {
    if value % 2 == 1 {
      odd := value;
    } else {
      odd := TrailingZerosDivide(value / 2);
      var p := Power(TrailingZeros(value / 2));
      assert value == 2 * (odd * p) == odd * (2 * p);
    }
  }

  lemma {:induction false} TrailingZerosAtLeast(k: nat, e: nat)
    requires k > 0
    ensures k * Power(e) > 0 && TrailingZeros(k * Power(e)) >= e
  {
    if e > 0 {
      TrailingZerosAtLeast(k, e - 1);
      var half := k * Power(e - 1);
      assert k * Power(e) == 2 * half;
    }
  }

  /** The value is a mantissa of that many digits times a power of two. */
  predicate IsMantissa(value: nat, k: nat, e: nat, digits: nat) {
    k < Power(digits) && value == k * Power(e)
  }

  /** An integer counts as exact precisely when it is a mantissa of that many digits times a power of two. */
  lemma ExactIffMantissa(value: nat, digits: nat)
    ensures IntegerIsExact(value, digits) <==> exists k: nat, e: nat :: IsMantissa(value, k, e, digits)
  {
    if value == 0 {
      assert IsMantissa(value, 0, 0, digits);
    } else {
      if IntegerIsExact(value, digits) {
        ExactHasMantissa(value, digits);
      }
      forall k: nat, e: nat | IsMantissa(value, k, e, digits) ensures IntegerIsExact(value, digits) {
        MantissaIsExact(k, e, digits);
      }
    }
  }

  lemma ExactHasMantissa(value: nat, digits: nat)
    requires value > 0 && IntegerIsExact(value, digits)
    ensures exists k: nat, e: nat :: IsMantissa(value, k, e, digits)
  {
    var bits, zeros := SignificantBits(value), TrailingZeros(value);
    if bits <= digits {
      BitsBound(value, digits);
      assert IsMantissa(value, value, 0, digits);
    } else {
      var odd := TrailingZerosDivide(value);
      BitsBound(value, bits);
      PowerSum(digits, zeros);
      PowerGrows(bits, digits + zeros);
      SmallerFactor(odd, Power(digits), Power(zeros));
      assert IsMantissa(value, odd, zeros, digits);
    }
  }

  lemma SmallerFactor(a: nat, b: nat, c: nat)
    requires c > 0 && a * c < b * c
    ensures a < b
  {
  }

  lemma SmallerProduct(a: nat, b: nat, c: nat)
    requires c > 0 && a < b
    ensures a * c < b * c
  {
  }

  lemma MantissaIsExact(k: nat, e: nat, digits: nat)
    requires k < Power(digits)
    ensures IntegerIsExact(k * Power(e), digits)
  {
    if k > 0 {
      var value := k * Power(e);
      TrailingZerosAtLeast(k, e);
      PowerSum(digits, e);
      SmallerProduct(k, Power(digits), Power(e));
      BitsBound(value, digits + e);
    }
  }

  // ---------- floats ----------

  /** A binary float format: mantissa digits and the range of the exponent of the last digit. */
  datatype Format = Format(digits: nat, lowest: int, highest: int)

  const BINARY32: Format := Format(24, -149, 104)
  const BINARY64: Format := Format(53, -1074, 971)

  function Absolute(v: int): nat {
    if v < 0 then -v else v
  }

  /** `x` is the mantissa `k` scaled by two to the `e`. */
  predicate IsScaled(x: real, k: int, e: int) {
    x == k as real * Scale(e)
  }

  /** The format has that mantissa and that exponent. */
  predicate Writes(format: Format, x: real, k: int, e: int) {
    Absolute(k) < Power(format.digits) && format.lowest <= e <= format.highest && IsScaled(x, k, e)
  }

  ghost predicate InFormat(x: real, format: Format) {
    exists k: int, e: int :: Writes(format, x, k, e)
  }

  datatype Float = Finite(value: real) | NotFinite

  /** Rounding to the two formats. */
  datatype Rounding = Rounding(to32: real -> Float, to64: real -> Float)

  /** Rounding gives a number of the format or none, and leaves the numbers of the format alone. */
  ghost predicate Rounds(rounding: Rounding) {
    && (forall x: real :: InFormat(x, BINARY32) ==> rounding.to32(x) == Finite(x))
    && (forall x: real :: InFormat(x, BINARY64) ==> rounding.to64(x) == Finite(x))
    && (forall x: real :: rounding.to32(x).Finite? ==> InFormat(rounding.to32(x).value, BINARY32))
    && (forall x: real :: rounding.to64(x).Finite? ==> InFormat(rounding.to64(x).value, BINARY64))
  }

  /** Every binary32 number is a binary64 number. */
  lemma Widening(x: real)
    requires InFormat(x, BINARY32)
    ensures InFormat(x, BINARY64)
  {
    hide Power, Scale;
    var k: int, e: int :| Writes(BINARY32, x, k, e);
    PowerGrows(BINARY32.digits, BINARY64.digits);
    assert Writes(BINARY64, x, k, e);
  }

  lemma NegatedInFormat(x: real, format: Format)
    requires InFormat(x, format)
    ensures InFormat(-x, format)
  {
    hide Power, Scale;
    var k: int, e: int :| Writes(format, x, k, e);
    assert (-k) as real * Scale(e) == -(k as real * Scale(e));
    assert Writes(format, -x, -k, e);
  }

  predicate Formats(format: Format) {
    format == BINARY32 || format == BINARY64
  }

  /** For integers of 64 bits, exactness is membership in the format. */
  lemma ExactIffInFormat(value: nat, format: Format)
    requires value < Power(64) && Formats(format)
    ensures IntegerIsExact(value, format.digits) <==> InFormat(value as real, format)
  {
    if IntegerIsExact(value, format.digits) {
      ExactInFormat(value, format);
    }
    if InFormat(value as real, format) {
      InFormatExact(value, format);
    }
  }

  lemma ExactInFormat(value: nat, format: Format)
    requires value < Power(64) && Formats(format) && IntegerIsExact(value, format.digits)
    ensures InFormat(value as real, format)
  {
    hide Power, Scale, IntegerIsExact;
    ExactIffMantissa(value, format.digits);
    var k: nat, e: nat :| IsMantissa(value, k, e, format.digits);
    if value == 0 {
      assert Writes(format, 0.0, 0, 0);
    } else {
      ExponentBound(k, e);
      ScaleIsPower(e);
      assert Writes(format, value as real, k, e);
    }
  }

  lemma ExponentBound(k: nat, e: nat)
    requires 0 < k * Power(e) < Power(64)
    ensures e < 64
  {
    hide Power;
    if e >= 64 {
      PowerGrows(64, e);
      AtLeastOnce(k, Power(e));
    }
  }

  lemma AtLeastOnce(k: nat, p: nat)
    requires k * p > 0
    ensures k * p >= p
  {
  }

  lemma InFormatExact(value: nat, format: Format)
    requires Formats(format) && InFormat(value as real, format)
    ensures IntegerIsExact(value, format.digits)
  {
    hide Power, Scale, IntegerIsExact;
    var k: int, e: int :| Writes(format, value as real, k, e);
    if e >= 0 {
      ScaleIsPower(e);
      assert value as real == (k * Power(e)) as real;
      NonNegativeFactor(k, Power(e));
      MantissaIsExact(k, e, format.digits);
    } else {
      ShrinkingScale(value, k, -e);
      MantissaIsExact(value, 0, format.digits);
      PowerZero();
    }
  }

  lemma PowerZero()
    ensures Power(0) == 1
  {
  }

  lemma NonNegativeFactor(k: int, p: nat)
    requires p > 0 && k * p >= 0
    ensures k >= 0
  {
  }

  /** Scaling an integer down to an integer does not make it larger. */
  lemma ShrinkingScale(value: nat, k: int, e: nat)
    requires IsScaled(value as real, k, 0 - e)
    ensures value <= k
  {
    hide Scale, Power;
    ScaleInverse(e);
    Undo(value as real, k as real, Scale(0 - e), Power(e) as real);
    Multiple(value, k, Power(e));
  }

  lemma Undo(x: real, k: real, s: real, p: real)
    requires x == k * s && s * p == 1.0
    ensures x * p == k
  {
    assert x * p == k * (s * p);
  }

  lemma Multiple(value: nat, k: int, p: nat)
    requires p > 0 && value as real * p as real == k as real
    ensures value <= k
  {
    assert (value * p) as real == value as real * p as real;
    assert value * p == k;
    assert value * p >= value;
  }

  // ---------- the casts ----------

  datatype Scalar = Integer(kind: LogicalType, number: int) | Floating(kind: LogicalType, float: Float)

  const I32_MIN: int := -0x8000_0000
  const I32_MAX: int := 0x7FFF_FFFF
  const U32_MAX: int := 0xFFFF_FFFF
  const I64_LOWER: int := -0x8000_0000_0000_0000

  predicate InRange(number: int, kind: LogicalType) {
    match kind
    case Int32 => I32_MIN <= number <= I32_MAX
    case Int64 => I64_LOWER <= number <= I64_MAX
    case UInt32 => 0 <= number <= U32_MAX
    case UInt64 => 0 <= number <= U64_MAX
    case _ => false
  }

  function FormatOf(kind: LogicalType): Format {
    if kind.Float32? then BINARY32 else BINARY64
  }

  predicate IsFloat(kind: LogicalType) {
    kind.Float32? || kind.Float64?
  }

  /** A value of its type. */
  ghost predicate WellTyped(scalar: Scalar) {
    match scalar
    case Integer(kind, number) => InRange(number, kind)
    case Floating(kind, float) => IsFloat(kind) && (float.Finite? ==> InFormat(float.value, FormatOf(kind)))
  }

  datatype NumericValue = SignedValue(signed: int) | UnsignedValue(unsigned: nat) | Value32(f: real) | Value64(d: real)

  datatype CastError = InvalidCast

  function NumericValueOf(scalar: Scalar): Result<NumericValue, CastError> {
    match scalar
    case Integer(kind, number) =>
      if kind.Int32? || kind.Int64? then Success(SignedValue(number))
      else if (kind.UInt32? || kind.UInt64?) && number >= 0 then Success(UnsignedValue(number))
      else Failure(InvalidCast)
    case Floating(Float32, Finite(value)) => Success(Value32(value))
    case Floating(Float64, Finite(value)) => Success(Value64(value))
    case Floating(_, _) => Failure(InvalidCast)
  }

  predicate IsInteger(x: real) {
    x == x.Floor as real
  }

  function FloatToInteger(x: real, kind: LogicalType): Result<int, CastError> {
    match kind
    case Int32 =>
      if IsInteger(x) && x >= I32_MIN as real && x <= I32_MAX as real then Success(x.Floor) else Failure(InvalidCast)
    case Int64 =>
      if IsInteger(x) && -9_223_372_036_854_775_808.0 <= x < 9_223_372_036_854_775_808.0
        then Success(x.Floor) else Failure(InvalidCast)
    case UInt32 =>
      if IsInteger(x) && x >= 0.0 && x <= U32_MAX as real then Success(x.Floor) else Failure(InvalidCast)
    case UInt64 =>
      if IsInteger(x) && 0.0 <= x < 18_446_744_073_709_551_616.0 then Success(x.Floor) else Failure(InvalidCast)
    case _ => Failure(InvalidCast)
  }

  function ToInteger(value: NumericValue, kind: LogicalType): Result<int, CastError> {
    match value
    case SignedValue(v) => if InRange(v, kind) then Success(v) else Failure(InvalidCast)
    case UnsignedValue(v) => if InRange(v, kind) then Success(v) else Failure(InvalidCast)
    case Value32(x) => FloatToInteger(x, kind)
    case Value64(x) => FloatToInteger(x, kind)
  }

  function ToFloat32(value: NumericValue, rounding: Rounding): Result<Float, CastError> {
    match value
    case SignedValue(v) =>
      if IntegerIsExact(Absolute(v), 24) then FiniteOnly(rounding.to32(v as real)) else Failure(InvalidCast)
    case UnsignedValue(v) =>
      if IntegerIsExact(v, 24) then FiniteOnly(rounding.to32(v as real)) else Failure(InvalidCast)
    case Value32(x) => Success(Finite(x))
    case Value64(x) =>
      var converted := rounding.to32(x);
      if converted != Finite(x) then Failure(InvalidCast) else FiniteOnly(converted)
  }

  function ToFloat64(value: NumericValue, rounding: Rounding): Result<Float, CastError> {
    match value
    case SignedValue(v) =>
      if IntegerIsExact(Absolute(v), 53) then FiniteOnly(rounding.to64(v as real)) else Failure(InvalidCast)
    case UnsignedValue(v) =>
      if IntegerIsExact(v, 53) then FiniteOnly(rounding.to64(v as real)) else Failure(InvalidCast)
    case Value32(x) => Success(Finite(x))
    case Value64(x) => Success(Finite(x))
  }

  function FiniteOnly(float: Float): Result<Float, CastError> {
    if float.Finite? then Success(float) else Failure(InvalidCast)
  }

  function Cast(scalar: Scalar, target: LogicalType, rounding: Rounding): Result<Scalar, CastError> {
    var value := NumericValueOf(scalar);
    if value.Failure? then Failure(InvalidCast)
    else if IsFloat(target) then
      var float := if target.Float32? then ToFloat32(value.value, rounding) else ToFloat64(value.value, rounding);
      if float.Success? then Success(Floating(target, float.value)) else Failure(InvalidCast)
    else
      var number := ToInteger(value.value, target);
      if number.Success? then Success(Integer(target, number.value)) else Failure(InvalidCast)
  }

  // ---------- what the casts mean ----------

  /** The number a scalar stands for, if it stands for one. */
  function NumberOf(scalar: Scalar): Option<real> {
    match scalar
    case Integer(_, number) => Some(number as real)
    case Floating(_, Finite(value)) => Some(value)
    case Floating(_, NotFinite) => None
  }

  /** The type has a value for the number. */
  ghost predicate Holds(kind: LogicalType, x: real) {
    if IsFloat(kind) then InFormat(x, FormatOf(kind)) else IsInteger(x) && InRange(x.Floor, kind)
  }

  /** The single and double precision numbers are the fractions of 24 and 53 bits with exponents in their ranges. */
  lemma FloatsAre(x: real)
    ensures Holds(Float32, x) <==>
              exists k: int, e: int :: -0x100_0000 < k < 0x100_0000 && -149 <= e <= 104 && IsScaled(x, k, e)
    ensures Holds(Float64, x) <==>
              exists k: int, e: int ::
                -0x20_0000_0000_0000 < k < 0x20_0000_0000_0000 && -1074 <= e <= 971 && IsScaled(x, k, e)
  {
    MantissaSizes();
    hide Power, Scale, IsScaled;
    if k: int, e: int :| -0x100_0000 < k < 0x100_0000 && -149 <= e <= 104 && IsScaled(x, k, e) {
      assert Writes(BINARY32, x, k, e);
    }
    if k: int, e: int :|
      -0x20_0000_0000_0000 < k < 0x20_0000_0000_0000 && -1074 <= e <= 971 && IsScaled(x, k, e)
    {
      assert Writes(BINARY64, x, k, e);
    }
  }

  lemma MantissaSizes()
    ensures Power(24) == 0x100_0000 && Power(53) == 0x20_0000_0000_0000
  {
    hide Power;
    ByteSize();
    PowerSum(8, 8);
    PowerSum(16, 8);
    PowerSum(24, 24);
    PowerSum(48, 5);
    SmallPower();
  }

  lemma SmallPower()
    ensures Power(5) == 32
  {
    assert Power(5) == 2 * Power(4) && Power(4) == 2 * Power(3) && Power(3) == 2 * Power(2);
    assert Power(2) == 2 * Power(1) && Power(1) == 2 * Power(0);
  }

  lemma WordSizes()
    ensures Power(64) == 0x1_0000_0000_0000_0000
  {
    hide Power;
    ByteSize();
    PowerSum(8, 8);
    PowerSum(16, 16);
    PowerSum(32, 32);
  }

  lemma ByteSize()
    ensures Power(8) == 256
  {
  }

  lemma IntegerInFormat(v: int, format: Format)
    requires Formats(format) && I64_LOWER <= v <= U64_MAX
    ensures IntegerIsExact(Absolute(v), format.digits) <==> InFormat(v as real, format)
  {
    hide Power, InFormat, IntegerIsExact;
    WordSizes();
    ExactIffInFormat(Absolute(v), format);
    if v < 0 {
      var x := Absolute(v) as real;
      assert v as real == -x;
      if InFormat(v as real, format) {
        NegatedInFormat(v as real, format);
        assert -(v as real) == x;
      }
      if InFormat(x, format) {
        NegatedInFormat(x, format);
      }
    }
  }

  lemma IntegerTarget(scalar: Scalar, target: LogicalType, rounding: Rounding)
    requires WellTyped(scalar) && !IsFloat(target)
    ensures var x := NumberOf(scalar);
            if x.Some? && Holds(target, x.value)
            then Cast(scalar, target, rounding) == Success(Integer(target, x.value.Floor))
            else Cast(scalar, target, rounding) == Failure(InvalidCast)
  {
    hide InFormat, IntegerIsExact;
  }

  lemma FloatTarget(scalar: Scalar, target: LogicalType, rounding: Rounding)
    requires Rounds(rounding) && WellTyped(scalar) && IsFloat(target)
    ensures var x := NumberOf(scalar);
            if x.Some? && Holds(target, x.value)
            then Cast(scalar, target, rounding) == Success(Floating(target, Finite(x.value)))
            else Cast(scalar, target, rounding) == Failure(InvalidCast)
  {
    hide InFormat, IntegerIsExact;
    match scalar
    case Integer(kind, number) =>
      IntegerInFormat(number, FormatOf(target));
    case Floating(kind, float) =>
      if float.Finite? && InFormat(float.value, BINARY32) {
        Widening(float.value);
      }
  }

  /** A cast succeeds exactly when the target type has the number, and then gives it. */
  lemma CastIsExact(scalar: Scalar, target: LogicalType, rounding: Rounding)
    requires Rounds(rounding) && WellTyped(scalar)
    ensures var x := NumberOf(scalar);
            var r := Cast(scalar, target, rounding);
            && (r.Success? <==> x.Some? && Holds(target, x.value))
            && (r.Success? ==> r.value.kind == target && WellTyped(r.value) && NumberOf(r.value) == x)
  {
    if IsFloat(target) {
      FloatTarget(scalar, target, rounding);
    } else {
      IntegerTarget(scalar, target, rounding);
    }
    hide InFormat, Cast;
  }

  /** Casting back gives the original. */
  lemma CastsInvert(scalar: Scalar, target: LogicalType, rounding: Rounding)
    requires Rounds(rounding) && WellTyped(scalar) && Cast(scalar, target, rounding).Success?
    ensures Cast(Cast(scalar, target, rounding).value, scalar.kind, rounding) == Success(scalar)
  {
    hide InFormat, Cast;
    CastIsExact(scalar, target, rounding);
    var there := Cast(scalar, target, rounding).value;
    if IsFloat(scalar.kind) {
      FloatTarget(there, scalar.kind, rounding);
    } else {
      IntegerTarget(there, scalar.kind, rounding);
    }
  }
}
