/** The largest and smallest values of a `ScalarType`: a bit pattern of IEEE 754 binary64
    (section 3.4 of IEEE 754-2019) for floating types, plain integers for the others. */
module ScalarTypeRange {
  import opened Bits
  import opened ScalarTypeId

  datatype Result<T> = Ok(value: T) | AssertionError

  // ----- what a floating type can represent

  /** The value of an exponent and a mantissa field, counted in the smallest subnormal of the format. */
  function Units(mantissaBits: nat, exponent: nat, mantissa: nat): int {
    if exponent == 0 then mantissa else ShiftLeft(Pow2(mantissaBits) + mantissa, exponent - 1)
  }

  /** The standard bias `2**(e-1) - 1`. */
  function ExponentBias(exponentBits: nat): int
    requires exponentBits >= 1
  {
    Pow2(exponentBits - 1) - 1
  }

  predicate Format(exponentBits: int, mantissaBits: int) {
    1 <= exponentBits <= 11 && 1 <= mantissaBits <= 52
  }

  lemma BiasBound(exponentBits: nat)
    requires 1 <= exponentBits <= 11
    ensures 0 <= ExponentBias(exponentBits) <= 1023
    ensures exponentBits <= 10 ==> ExponentBias(exponentBits) <= 511
  {
    Pow2Monotone(exponentBits - 1, 10);
    assert Pow2(10) == 1024 && Pow2(9) == 512;
    if exponentBits <= 10 {
      Pow2Monotone(exponentBits - 1, 9);
    }
  }

  /** The value of a pair of fields as a multiple of `2**-1074`, the smallest positive double.  Every
      format within a double's is such a multiple, so nothing is rounded. */
  function Value(exponentBits: nat, mantissaBits: nat, exponent: nat, mantissa: nat): int
    requires Format(exponentBits, mantissaBits)
  {
    BiasBound(exponentBits);
    ShiftLeft(Units(mantissaBits, exponent, mantissa), 1075 - ExponentBias(exponentBits) - mantissaBits)
  }

  /** The floating types the constructors build: IEEE, or one of the other NaN schemes with or without infinities. */
  predicate IsFloat(t: ScalarType) {
    && t.exponent >= 1 && t.mantissa >= 1 && t.signed && t.bias == 0
    && (t.nanRepr.Ieee754? ==> !t.finiteValuesOnly)
  }

  datatype Code = Code(exponent: nat, mantissa: nat)

  /** The codes that may stand for infinities.  The code of an IEEE infinity is known, and a finite-only type has
      none.  For the rest nothing in the source says which codes they are, so they are left open. */
  predicate Infinities(t: ScalarType, infinities: set<Code>) {
    t.nanRepr.Ieee754? || t.finiteValuesOnly ==> infinities == {}
  }

  /** The encodings that stand for finite numbers. */
  predicate FiniteCode(t: ScalarType, infinities: set<Code>, exponent: nat, mantissa: nat)
    requires IsFloat(t)
  {
    && exponent < Pow2(t.exponent) && mantissa < Pow2(t.mantissa) && Code(exponent, mantissa) !in infinities
    && match t.nanRepr
       case NoNans => true
       case Ieee754 => exponent != Pow2(t.exponent) - 1
       case ExtdRangeMaxMin => exponent != Pow2(t.exponent) - 1 || mantissa != Pow2(t.mantissa) - 1
  }

  /** `v` is attained by the type and no finite value of the type exceeds it. */
  ghost predicate IsLargestFinite(t: ScalarType, infinities: set<Code>, v: int)
    requires IsFloat(t) && Format(t.exponent, t.mantissa)
  {
    && (exists e: nat, m: nat :: FiniteCode(t, infinities, e, m) && Value(t.exponent, t.mantissa, e, m) == v)
    && (forall e: nat, m: nat :: FiniteCode(t, infinities, e, m) ==> Value(t.exponent, t.mantissa, e, m) <= v)
  }

  // ----- the binary64 side

  const TWO_52 := 0x10_0000_0000_0000
  const TWO_63 := 0x8000_0000_0000_0000

  function DoubleExponent(bits: nat): nat {
    bits / TWO_52 % 2048
  }

  predicate IsNormalDouble(bits: nat) {
    bits < 2 * TWO_63 && 1 <= DoubleExponent(bits) <= 2046
  }

  /** `struct.unpack('!d', ...)` on a normal pattern, as a multiple of `2**-1074`. */
  function DoubleValue(bits: nat): int
    requires IsNormalDouble(bits)
  {
    var magnitude := ShiftLeft(TWO_52 + bits % TWO_52, DoubleExponent(bits) - 1);
    if bits / TWO_63 % 2 == 1 then -magnitude else magnitude
  }

  // ----- `_floating_point_max_int`

  function MaxMantissa(t: ScalarType): int
    requires t.mantissa >= 0
  {
    if t.nanRepr.ExtdRangeMaxMin? then Pow2(t.mantissa) - 2 else Pow2(t.mantissa) - 1
  }

  function MaxExponent(t: ScalarType): int
    requires t.exponent >= 0
  {
    if t.nanRepr.Ieee754? then Pow2(t.exponent) - 2 else Pow2(t.exponent) - 1
  }

  function MaxExponentDouble(t: ScalarType): int
    requires t.exponent >= 1
  {
    MaxExponent(t) - ExponentBias(t.exponent) + 1023
  }

  predicate FitsDouble(t: ScalarType) {
    t.mantissa <= 52 && t.exponent <= 11 && (t.nanRepr.Ieee754? || t.exponent < 11)
  }

  lemma MaximaInRange(t: ScalarType)
    requires IsFloat(t) && FitsDouble(t)
    ensures 0 <= MaxMantissa(t) < Pow2(t.mantissa)
    ensures 0 <= MaxExponent(t)
    ensures 1 <= MaxExponentDouble(t) <= 2046
    ensures ShiftLeft(MaxMantissa(t), 52 - t.mantissa) >= 0
    ensures ShiftLeft(MaxExponentDouble(t), 52) >= 0
  {
    assert Pow2(t.mantissa) == 2 * Pow2(t.mantissa - 1);
    assert Pow2(t.exponent) == 2 * Pow2(t.exponent - 1);
    BiasBound(t.exponent);
    ShiftNonNegative(MaxMantissa(t), 52 - t.mantissa);
    ShiftNonNegative(MaxExponentDouble(t), 52);
  }

  /** `_floating_point_max_int`; its asserts are exactly `FitsDouble`. */
  function FloatingPointMaxInt(t: ScalarType): Result<nat>
    requires IsFloat(t)
  {
    if FitsDouble(t) then
      MaximaInRange(t);
      Ok(Or(ShiftLeft(MaxMantissa(t), 52 - t.mantissa), ShiftLeft(MaxExponentDouble(t), 52)))
    else
      AssertionError
  }

  lemma Power52()
    ensures Pow2(52) == TWO_52
  {
    assert Pow2(13) == 8192;
    ShiftPow2(13, 13);
    ShiftIsProduct(Pow2(13), 13);
    ShiftPow2(26, 26);
    ShiftIsProduct(Pow2(26), 26);
  }

  lemma Times52(a: int)
    ensures ShiftLeft(a, 52) == TWO_52 * a
  {
    Power52();
    ShiftIsProduct(a, 52);
  }

  lemma PlaceFields(low: nat, high: nat)
    requires low < Pow2(52) && high <= 2046 && ShiftLeft(high, 52) >= 0
    ensures var raw := Or(low, ShiftLeft(high, 52));
      raw < TWO_63 && DoubleExponent(raw) == high && raw % TWO_52 == low
  {
    Power52();
    OrIsSum(low, high, 52);
    Times52(high);
  }

  /** Where the two parts of the pattern land. */
  lemma Layout(t: ScalarType)
    requires IsFloat(t) && FitsDouble(t)
    ensures var raw := FloatingPointMaxInt(t).value;
      raw < TWO_63 && DoubleExponent(raw) == MaxExponentDouble(t)
      && raw % TWO_52 == ShiftLeft(MaxMantissa(t), 52 - t.mantissa)
  {
    MaximaInRange(t);
    ShiftMonotone(MaxMantissa(t), Pow2(t.mantissa), 52 - t.mantissa);
    ShiftPow2(t.mantissa, 52 - t.mantissa);
    PlaceFields(ShiftLeft(MaxMantissa(t), 52 - t.mantissa), MaxExponentDouble(t));
  }

  /** The largest normal number the code aims at, in the type's own terms. */
  function Target(t: ScalarType): int
    requires IsFloat(t) && FitsDouble(t)
  {
    MaximaInRange(t);
    ShiftLeft(Pow2(t.mantissa) + MaxMantissa(t), MaxExponentDouble(t) + 51 - t.mantissa)
  }

  predicate IsDouble(raw: nat, v: int) {
    IsNormalDouble(raw) && DoubleValue(raw) == v
  }

  lemma NormalDouble(raw: nat, ed: nat, low: nat, x: nat, k: nat)
    requires raw < TWO_63 && DoubleExponent(raw) == ed && raw % TWO_52 == low
    requires 1 <= ed <= 2046 && TWO_52 + low == ShiftLeft(x, k)
    ensures IsDouble(raw, ShiftLeft(x, k + ed - 1))
  {
    ShiftShift(x, k, ed - 1);
  }

  lemma DoubleOfParts(bits: nat, mantissa: nat, ed: nat, raw: nat)
    requires bits <= 52 && raw < TWO_63 && 1 <= ed <= 2046
    requires DoubleExponent(raw) == ed && raw % TWO_52 == ShiftLeft(mantissa, 52 - bits)
    ensures IsDouble(raw, ShiftLeft(Pow2(bits) + mantissa, ed + 51 - bits))
  {
    ImplicitOne(bits, mantissa);
    NormalDouble(raw, ed, ShiftLeft(mantissa, 52 - bits), Pow2(bits) + mantissa, 52 - bits);
  }

  lemma DoubleOfLayout(t: ScalarType, raw: nat, mantissa: nat, ed: nat)
    requires IsFloat(t) && FitsDouble(t) && mantissa == MaxMantissa(t) && ed == MaxExponentDouble(t)
    requires FloatingPointMaxInt(t) == Ok(raw)
    ensures IsDouble(raw, ShiftLeft(Pow2(t.mantissa) + mantissa, ed + 51 - t.mantissa))
  {
    Layout(t);
    MaximaInRange(t);
    DoubleOfParts(t.mantissa, mantissa, ed, raw);
  }

  /** The double the pattern stands for. */
  lemma DoubleOfMax(t: ScalarType)
    requires IsFloat(t) && FitsDouble(t)
    ensures IsNormalDouble(FloatingPointMaxInt(t).value)
    ensures DoubleValue(FloatingPointMaxInt(t).value) == Target(t)
  {
    MaximaInRange(t);
    DoubleOfLayout(t, FloatingPointMaxInt(t).value, MaxMantissa(t), MaxExponentDouble(t));
  }

  /** The implicit leading bit of a double, above a mantissa of `m` bits shifted to the top. */
  lemma ImplicitOne(m: nat, mantissa: int)
    requires m <= 52
    ensures TWO_52 + ShiftLeft(mantissa, 52 - m) == ShiftLeft(Pow2(m) + mantissa, 52 - m)
  {
    ShiftPow2(m, 52 - m);
    ShiftSum(Pow2(m), mantissa, 52 - m);
    Power52();
  }

  lemma ValueOfNormalCode(exponentBits: nat, mantissaBits: nat, e: nat, m: nat, ed: int)
    requires Format(exponentBits, mantissaBits) && e >= 1 && ed == e - ExponentBias(exponentBits) + 1023
    ensures ed >= 1
    ensures Value(exponentBits, mantissaBits, e, m) == ShiftLeft(Pow2(mantissaBits) + m, ed + 51 - mantissaBits)
  {
    BiasBound(exponentBits);
    ShiftShift(Pow2(mantissaBits) + m, e - 1, 1075 - ExponentBias(exponentBits) - mantissaBits);
  }

  /** A normal value of the type. */
  lemma ValueOfNormal(t: ScalarType, e: nat, m: nat)
    requires IsFloat(t) && Format(t.exponent, t.mantissa) && e >= 1
    ensures e + 1074 >= ExponentBias(t.exponent) + t.mantissa
    ensures Value(t.exponent, t.mantissa, e, m)
         == ShiftLeft(Pow2(t.mantissa) + m, e - ExponentBias(t.exponent) + 1023 + 51 - t.mantissa)
  {
    ValueOfNormalCode(t.exponent, t.mantissa, e, m, e - ExponentBias(t.exponent) + 1023);
  }

  /** A normal code and the double with the same sign, rebiased exponent and widened mantissa are the same number. */
  lemma CodeAsDouble(exponentBits: nat, mantissaBits: nat, e: nat, m: nat, ed: int)
    requires Format(exponentBits, mantissaBits) && 1 <= e && m < Pow2(mantissaBits)
    requires ed == e - (Pow2(exponentBits - 1) - 1) + 1023 && ed <= 2046
    ensures 1 <= ed && IsNormalDouble(TWO_52 * ed + Pow2(52 - mantissaBits) * m)
    ensures Value(exponentBits, mantissaBits, e, m) == DoubleValue(TWO_52 * ed + Pow2(52 - mantissaBits) * m)
  {
    var raw, k := TWO_52 * ed + Pow2(52 - mantissaBits) * m, 52 - mantissaBits;
    BiasBound(exponentBits);
    ShiftMonotone(m, Pow2(mantissaBits), k);
    ShiftPow2(mantissaBits, k);
    ShiftIsProduct(m, k);
    ShiftNonNegative(m, k);
    Power52();
    FieldsOf(raw, ed, ShiftLeft(m, k));
    DoubleOfParts(mantissaBits, m, ed, raw);
    ValueOfNormalCode(exponentBits, mantissaBits, e, m, ed);
  }

  lemma FieldsOf(raw: nat, ed: nat, low: nat)
    requires raw == TWO_52 * ed + low && low < TWO_52 && ed <= 2046
    ensures raw < TWO_63 && DoubleExponent(raw) == ed && raw % TWO_52 == low
  {
  }

  /** Subnormal numbers have the spacing of the smallest normal ones. */
  lemma Subnormal(exponentBits: nat, mantissaBits: nat, m: nat)
    requires Format(exponentBits, mantissaBits)
    ensures Value(exponentBits, mantissaBits, 1, m) == Value(exponentBits, mantissaBits, 0, m) + Value(exponentBits, mantissaBits, 1, 0)
  {
    BiasBound(exponentBits);
    ShiftSum(Pow2(mantissaBits), m, 1075 - ExponentBias(exponentBits) - mantissaBits);
  }

  /** A larger exponent field beats any mantissa. */
  lemma {:induction false} UnitsMonotone(bits: nat, e: nat, m: nat, e': nat, m': nat)
    requires m < Pow2(bits) && m' < Pow2(bits)
    requires e < e' || (e == e' && m <= m')
    ensures Units(bits, e, m) <= Units(bits, e', m')
    ensures (e, m) != (e', m') ==> Units(bits, e, m) < Units(bits, e', m')
    decreases e'
  {
    var p := Pow2(bits);
    if e == e' {
      if e > 0 {
        ShiftMonotone(p + m, p + m', e - 1);
      }
    } else if e + 1 < e' {
      UnitsMonotone(bits, e, m, e' - 1, m');
      ShiftNonNegative(p + m', e' - 2);
    } else if e > 0 {
      ShiftMonotone(p + m, 2 * p + 2 * m', e - 1);
      ShiftSum(p + m', p + m', e - 1);
    }
  }

  /** Its asserts accept what fits a double; without an all-ones exponent for infinity ten exponent bits do. */
  lemma FloatingPointMaxOkIff(t: ScalarType)
    requires IsFloat(t)
    ensures FloatingPointMaxInt(t).Ok? <==> t.mantissa <= 52 && t.exponent <= if t.nanRepr.Ieee754? then 11 else 10
  {
  }

  /** `_floating_point_max_int` is right on every floating type the constructors build and the asserts accept,
      with two exceptions.  In IEEE types with a single exponent bit all finite values are subnormal, and the
      pattern is larger than every one of them.  In a type with infinities and another NaN scheme the pattern may
      itself be the code of an infinity. */
  lemma FloatingPointMaxIsLargest(t: ScalarType, infinities: set<Code>)
    requires IsFloat(t) && FitsDouble(t) && Infinities(t, infinities)
    ensures IsNormalDouble(FloatingPointMaxInt(t).value)
    ensures MaxExponent(t) >= 0 && MaxMantissa(t) >= 0
    ensures IsLargestFinite(t, infinities, DoubleValue(FloatingPointMaxInt(t).value)) <==>
            !(t.nanRepr.Ieee754? && t.exponent == 1) && Code(MaxExponent(t), MaxMantissa(t)) !in infinities
  {
    DoubleOfMax(t);
    MaximaInRange(t);
    if t.nanRepr.Ieee754? && t.exponent == 1 {
      AllSubnormal(t);
    } else {
      TargetIsNormal(t);
      LargestCode(t, infinities, MaxExponent(t), MaxMantissa(t));
    }
  }

  lemma ExponentAtLeastOne(t: ScalarType)
    requires IsFloat(t) && FitsDouble(t) && !(t.nanRepr.Ieee754? && t.exponent == 1)
    ensures MaxExponent(t) >= 1
  {
    assert Pow2(t.exponent) == 2 * Pow2(t.exponent - 1);
    assert t.nanRepr.Ieee754? ==> Pow2(t.exponent - 1) == 2 * Pow2(t.exponent - 2);
  }

  lemma TargetIsNormal(t: ScalarType)
    requires IsFloat(t) && FitsDouble(t) && !(t.nanRepr.Ieee754? && t.exponent == 1)
    ensures MaxExponent(t) >= 0 && MaxMantissa(t) >= 0
    ensures Target(t) == Value(t.exponent, t.mantissa, MaxExponent(t), MaxMantissa(t))
  {
    MaximaInRange(t);
    ExponentAtLeastOne(t);
    ValueOfNormal(t, MaxExponent(t), MaxMantissa(t));
  }

  /** The largest code that is no NaN is the largest finite value, unless it is an infinity. */
  lemma LargestCode(t: ScalarType, infinities: set<Code>, e: nat, m: nat)
    requires IsFloat(t) && Format(t.exponent, t.mantissa)
    requires e == MaxExponent(t) && m == MaxMantissa(t) && m < Pow2(t.mantissa)
    ensures IsLargestFinite(t, infinities, Value(t.exponent, t.mantissa, e, m)) <==> Code(e, m) !in infinities
  {
    assert FiniteCode(t, infinities, e, m) <==> Code(e, m) !in infinities;
    forall e': nat, m': nat | FiniteCode(t, infinities, e', m')
      ensures Value(t.exponent, t.mantissa, e', m') <= Value(t.exponent, t.mantissa, e, m)
      ensures (e', m') != (e, m) ==> Value(t.exponent, t.mantissa, e', m') < Value(t.exponent, t.mantissa, e, m)
    {
      ValueMonotone(t, e', m', e, m);
    }
  }

  lemma ValueMonotone(t: ScalarType, e: nat, m: nat, e': nat, m': nat)
    requires IsFloat(t) && Format(t.exponent, t.mantissa)
    requires m < Pow2(t.mantissa) && m' < Pow2(t.mantissa)
    requires e < e' || (e == e' && m <= m')
    ensures Value(t.exponent, t.mantissa, e, m) <= Value(t.exponent, t.mantissa, e', m')
    ensures (e, m) != (e', m') ==> Value(t.exponent, t.mantissa, e, m) < Value(t.exponent, t.mantissa, e', m')
  {
    BiasBound(t.exponent);
    UnitsMonotone(t.mantissa, e, m, e', m');
    ShiftMonotone(Units(t.mantissa, e, m), Units(t.mantissa, e', m'), 1075 - ExponentBias(t.exponent) - t.mantissa);
  }

  lemma AllSubnormal(t: ScalarType)
    requires IsFloat(t) && FitsDouble(t) && t.nanRepr.Ieee754? && t.exponent == 1
    ensures forall e: nat, m: nat :: FiniteCode(t, {}, e, m) ==> Value(t.exponent, t.mantissa, e, m) < Target(t)
  {
    var p, k := Pow2(t.mantissa), 1074 - t.mantissa;
    assert Pow2(1) == 2 && ExponentBias(1) == 0;
    assert Target(t) == ShiftLeft(p + p - 1, k);
    forall e: nat, m: nat | FiniteCode(t, {}, e, m)
      ensures Value(t.exponent, t.mantissa, e, m) < Target(t)
    {
      assert Value(1, t.mantissa, 0, m) == ShiftLeft(m, k + 1);
      ShiftSum(m, m, k);
      ShiftMonotone(m + m, p + p - 1, k);
    }
  }

  // ----- `_raw_min` on floating types

  function FloatingPointMinInt(t: ScalarType): Result<nat>
    requires IsFloat(t)
  {
    match FloatingPointMaxInt(t)
    case AssertionError => AssertionError
    case Ok(maxRaw) => ShiftNonNegative(1, 63); Ok(Or(maxRaw, ShiftLeft(1, 63)))
  }

  lemma Power63()
    ensures Pow2(63) == TWO_63 && ShiftLeft(1, 63) == TWO_63
  {
    Power52();
    ShiftPow2(52, 11);
    ShiftIsProduct(TWO_52, 11);
    assert Pow2(11) == 2048;
    ShiftOne(63);
  }

  /** Setting the sign bit of a pattern negates it. */
  lemma SignBit(raw: nat)
    requires raw < TWO_63 && IsNormalDouble(raw)
    ensures IsNormalDouble(raw + TWO_63) && DoubleValue(raw + TWO_63) == -DoubleValue(raw)
  {
    assert TWO_63 == 2048 * TWO_52;
    assert (raw + 2048 * TWO_52) / TWO_52 == raw / TWO_52 + 2048;
    assert (raw + 2048 * TWO_52) % TWO_52 == raw % TWO_52;
  }

  lemma OrSignBit(raw: nat)
    requires raw < TWO_63
    ensures ShiftLeft(1, 63) >= 0 && Or(raw, ShiftLeft(1, 63)) == raw + TWO_63
  {
    Power63();
    OrIsSum(raw, 1, 63);
  }

  lemma MinInt(t: ScalarType, raw: nat)
    requires IsFloat(t) && FloatingPointMaxInt(t) == Ok(raw) && raw < TWO_63
    ensures FloatingPointMinInt(t) == Ok(raw + TWO_63)
  {
    OrSignBit(raw);
  }

  /** The minimum is exactly the opposite of the maximum. */
  lemma MinIsOppositeOfMax(t: ScalarType)
    requires IsFloat(t) && FitsDouble(t)
    ensures FloatingPointMinInt(t).Ok? && IsNormalDouble(FloatingPointMinInt(t).value)
    ensures FloatingPointMaxInt(t).Ok? && IsNormalDouble(FloatingPointMaxInt(t).value)
    ensures DoubleValue(FloatingPointMinInt(t).value) == -DoubleValue(FloatingPointMaxInt(t).value)
  {
    DoubleOfMax(t);
    Layout(t);
    MinInt(t, FloatingPointMaxInt(t).value);
    SignBit(FloatingPointMaxInt(t).value);
  }

  // ----- integer types

  /** `size_bits`. */
  function SizeBits(t: ScalarType): int {
    t.exponent + t.mantissa + if t.signed then 1 else 0
  }

  predicate IsInteger(t: ScalarType) {
    t.exponent == 0 && t.mantissa >= 0
  }

  /** `max()` of an integer type. */
  function IntegerMax(t: ScalarType): Result<int>
    requires IsInteger(t)
  {
    if SizeBits(t) < 64 || (SizeBits(t) == 64 && t.signed) then Ok(Pow2(t.mantissa) - 1 - t.bias) else AssertionError
  }

  /** `min()` of an integer type. */
  function IntegerMin(t: ScalarType): Result<int>
    requires IsInteger(t)
  {
    if t.signed && SizeBits(t) > 64 then AssertionError
    else Ok((if t.signed then -(Pow2(SizeBits(t) - 1) as int) else 0) - t.bias)
  }

  /** Integer types have a maximum up to 63 bits below the sign, and a minimum if they have no sign or a maximum. */
  lemma IntegerOkIff(t: ScalarType)
    requires IsInteger(t)
    ensures IntegerMax(t).Ok? <==> t.mantissa <= 63
    ensures IntegerMin(t).Ok? <==> !t.signed || t.mantissa <= 63
  {
  }

  /** The number a stored pattern of `size_bits` bits stands for: two's complement if signed, less the bias. */
  function StoredValue(t: ScalarType, pattern: nat): int
    requires IsInteger(t)
  {
    (if t.signed && pattern >= Pow2(t.mantissa) then pattern - 2 * Pow2(t.mantissa) else pattern) - t.bias
  }

  /** The range `[min(), max()]` holds exactly the numbers some stored pattern stands for. */
  lemma IntegerRangeIsExact(t: ScalarType, v: int)
    requires IsInteger(t) && IntegerMax(t).Ok?
    ensures IntegerMin(t).Ok?
    ensures IntegerMin(t).value <= v <= IntegerMax(t).value <==>
            exists pattern: nat :: pattern < Pow2(SizeBits(t)) && StoredValue(t, pattern) == v
  {
    var p := Pow2(t.mantissa);
    assert t.signed ==> Pow2(SizeBits(t)) == 2 * p;
    if IntegerMin(t).value <= v <= IntegerMax(t).value {
      var pattern: nat := if v + t.bias < 0 then v + t.bias + 2 * p else v + t.bias;
      assert StoredValue(t, pattern) == v;
    }
  }
}
