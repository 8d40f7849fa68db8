/** base/numerics/clamped_math_impl.h: arithmetic that saturates, on one integer type of
    any width; and the left shifts of both kinds, checked by reversal. */
module ClampedMath {
  import opened IntTypes
  import opened RangeChecks
  import opened CheckedMath
  import opened CheckedOps

  // ----- negation and absolute value -----

  /** NegateWrapper */
  function Negated(t: IntType, x: int): int {
    Cast(t, Cast(Unsigned(t), 0 - Cast(Unsigned(t), x)))
  }

  function SaturatedNeg(t: IntType, x: int): int {
    if t.signed then if Negated(t, x) != Lowest(t) then Negated(t, x) else Max(t)
    else 0
  }

  function SaturatedAbs(t: IntType, x: int): int {
    var a := UnsignedAbs(t, x);
    Cast(t, a - Flag(t.signed && Cast(t, a) < 0))
  }

  lemma NegIsClamped(t: IntType, x: int)
    requires In(t, x)
    ensures SaturatedNeg(t, x) == Clamp(t, -x)
  {
    hide Cast;
    var u := Unsigned(t);
    Limits(t);
    View(t, x);
    CastThroughUnsigned(t, 0 - Cast(u, x));
    Recast(t, 0 - Cast(u, x), -x, if x < 0 then -1 else 0);
    if x == Lowest(t) {
      CastIs(t, -x, x, if t.signed then 1 else 0);
    } else {
      CastFacts(t, -x);
    }
  }

  lemma AbsIsClamped(t: IntType, x: int)
    requires In(t, x)
    ensures SaturatedAbs(t, x) == Clamp(t, if x < 0 then -x else x)
  {
    hide Cast, UnsignedAbs;
    var a := UnsignedAbs(t, x);
    AbsIsExact(t, x);
    Limits(t);
    if t.signed && x == Lowest(t) {
      CastIs(t, a, x, 1);
      CastFacts(t, a - 1);
    } else {
      CastFacts(t, a);
    }
  }

  // ----- addition, subtraction, multiplication, division -----

  /** CommonMaxOrMin<V>: the lowest value of the type, or its largest. */
  function Saturated(m: Machine, t: IntType, isMin: bool): int {
    CommonMaxOrMin(m.intBits, t, t, isMin)
  }

  lemma SaturatedIsLimit(m: Machine, t: IntType, isMin: bool)
    ensures Saturated(m, t, isMin) == if isMin then Lowest(t) else Max(t)
  {
    CommonLimits(m.intBits, t, t);
  }

  /** IsValueNegative */
  predicate IsNegative(t: IntType, x: int) {
    t.signed && x < 0
  }

  function ClampedAdd(m: Machine, t: IntType, x: int, y: int): int {
    var c := CheckedAddOp(m, t, t, x, y);
    if c.valid then c.value else Saturated(m, t, IsNegative(t, y))
  }

  function ClampedSub(m: Machine, t: IntType, x: int, y: int): int {
    var c := CheckedSubOp(m, t, t, x, y);
    if c.valid then c.value else Saturated(m, t, !IsNegative(t, y))
  }

  function ClampedMul(m: Machine, t: IntType, x: int, y: int): int {
    var c := CheckedMulOp(m, t, t, x, y);
    if c.valid then c.value else Saturated(m, t, IsNegative(t, x) != IsNegative(t, y))
  }

  function ClampedDiv(m: Machine, t: IntType, x: int, y: int): int
    requires t.bits <= m.maxBits && In(t, y)
  {
    var c := CheckedDivOp(m, t, t, x, y);
    if c.valid then c.value
    else if x != 0 then Saturated(m, t, IsNegative(t, x) != IsNegative(t, y))
    else 0
  }

  /** On one type every promotion holds the operands. */
  lemma SameTypeFits(m: Machine, t: IntType, p: IntType, x: int)
    requires IsPromotion(m, t, t, p) && In(t, x)
    ensures In(p, x)
  {
    ResultFitsPromotion(m, t, t, p, x);
  }

  lemma AddIsClamped(m: Machine, t: IntType, x: int, y: int)
    requires In(t, x) && In(t, y)
    ensures ClampedAdd(m, t, x, y) == Clamp(t, x + y)
  {
    hide CheckedAddOp, Saturated, SumPromotion;
    SameTypeFits(m, t, SumPromotion(m, t, t), x);
    SameTypeFits(m, t, SumPromotion(m, t, t), y);
    AddOpIsExact(m, t, t, x, y);
    SaturatedIsLimit(m, t, IsNegative(t, y));
  }

  lemma SubIsClamped(m: Machine, t: IntType, x: int, y: int)
    requires In(t, x) && In(t, y)
    ensures ClampedSub(m, t, x, y) == Clamp(t, x - y)
  {
    hide CheckedSubOp, Saturated, SumPromotion;
    SameTypeFits(m, t, SumPromotion(m, t, t), x);
    SameTypeFits(m, t, SumPromotion(m, t, t), y);
    SubOpIsExact(m, t, t, x, y);
    SaturatedIsLimit(m, t, !IsNegative(t, y));
  }

  /** The sign of a product is told by the signs of its factors. */
  lemma ProductSign(t: IntType, x: int, y: int)
    requires In(t, x) && In(t, y)
    ensures IsNegative(t, x) != IsNegative(t, y) ==> x * y <= 0
    ensures IsNegative(t, x) == IsNegative(t, y) ==> x * y >= 0
  {
    LimitsIn(t);
  }

  lemma MulIsClamped(m: Machine, t: IntType, x: int, y: int)
    requires In(t, x) && In(t, y)
    ensures ClampedMul(m, t, x, y) == Clamp(t, x * y)
  {
    hide CheckedMulOp, Saturated, FastPromotion;
    SameTypeFits(m, t, FastPromotion(m, t, t), x);
    SameTypeFits(m, t, FastPromotion(m, t, t), y);
    MulOpIsExact(m, t, t, x, y);
    SaturatedIsLimit(m, t, IsNegative(t, x) != IsNegative(t, y));
    ProductSign(t, x, y);
    LimitsIn(t);
  }

  /** Division by zero saturates by the sign of the dividend; lowest / -1 to the top. */
  lemma DivIsClamped(m: Machine, t: IntType, x: int, y: int)
    requires In(t, x) && In(t, y) && t.bits <= m.maxBits
    ensures ClampedDiv(m, t, x, y) ==
            if y != 0 then Clamp(t, Quotient(x, y)) else if x > 0 then Max(t) else if x < 0 then Lowest(t) else 0
  {
    hide CheckedDivOp, Saturated, BigEnough, Quotient;
    LimitsIn(t);
    SameTypeFits(m, t, BigEnough(m.maxBits, t, t).big, x);
    SameTypeFits(m, t, BigEnough(m.maxBits, t, t).big, y);
    DivOpIsExact(m, t, t, x, y);
    SaturatedIsLimit(m, t, IsNegative(t, x) != IsNegative(t, y));
    if y != 0 {
      QuotientShrinks(x, y);
    }
  }

  // ----- left shifts -----

  /** static_cast<V>(as_unsigned(x) << shift) */
  function Shifted(t: IntType, x: int, shift: nat): int {
    Cast(t, Cast(Unsigned(t), x) * Pow2(shift))
  }

  /** An arithmetic right shift: division rounding down. */
  function ShiftedBack(x: int, shift: nat): int {
    x / Pow2(shift)
  }

  function ClampedLsh(m: Machine, t: IntType, x: int, shift: nat): int {
    if shift < Digits(t) && ShiftedBack(Shifted(t, x, shift), shift) == x then Shifted(t, x, shift)
    else if x != 0 then Saturated(m, t, IsNegative(t, x))
    else 0
  }

  /** CheckedLshOp, with the shift count of type `u`. */
  function CheckedLsh(t: IntType, u: IntType, x: int, shift: int): Checked {
    var count := Cast(Unsigned(u), shift);
    if !IsNegative(t, x) && count < Digits(t) then
      Checked(ShiftedBack(Shifted(t, x, count), count) == x, Shifted(t, x, count))
    else Checked(t.signed && x == 0 && count == Digits(t), 0)
  }

  lemma ShiftedIsCast(t: IntType, x: int, shift: nat)
    requires In(t, x)
    ensures Shifted(t, x, shift) == Cast(t, x * Pow2(shift))
  {
    hide Cast, Pow2;
    View(t, x);
    var k := if x < 0 then 1 else 0;
    var a := Cast(Unsigned(t), x);
    Distribute(x, k, Size(t), Pow2(shift));
    Recast(t, a * Pow2(shift), x * Pow2(shift), k * Pow2(shift));
  }

  lemma Distribute(x: int, k: int, s: int, p: int)
    ensures (x + k * s) * p == x * p + (k * p) * s
  {
    assert (k * s) * p == (k * p) * s;
  }

  /** The laps a cast takes off a shifted value are multiples of the shift. */
  lemma ReversesOnlyWithoutLaps(x: int, p: int, q: int, l: int)
    requires p > 0 && q > 0
    ensures (x * p - l * (p * q)) / p == x <==> l == 0
  {
    assert x * p - l * (p * q) == (x - l * q) * p + 0;
    ModIs(x * p - l * (p * q), p, x - l * q, 0);
    assert l * q == 0 ==> l == 0;
  }

  /** A shift is undone by the reverse shift exactly when nothing was lost. */
  lemma ReversibleShift(t: IntType, x: int, shift: nat)
    requires In(t, x) && shift < Digits(t)
    ensures ShiftedBack(Shifted(t, x, shift), shift) == x <==> In(t, x * Pow2(shift))
    ensures In(t, x * Pow2(shift)) ==> Shifted(t, x, shift) == x * Pow2(shift)
  {
    hide Cast, Pow2;
    var p, q := Pow2(shift), Pow2(t.bits - shift);
    var v := x * p;
    var l := Lap(t, v);
    Pow2Adds(shift, t.bits - shift);
    ShiftedIsCast(t, x, shift);
    CastFacts(t, v);
    ReversesOnlyWithoutLaps(x, p, q, l);
  }

  /** A nonzero value shifted by all its digits, or more, saturates. */
  lemma LongShift(t: IntType, x: int, shift: nat)
    requires In(t, x) && x != 0 && shift >= Digits(t)
    ensures Clamp(t, x * Pow2(shift)) == if x < 0 then Lowest(t) else Max(t)
  {
    hide Pow2;
    Pow2Grows(Digits(t), shift);
    Limits(t);
    ShiftGrows(x, Pow2(shift));
  }

  lemma ShiftGrows(x: int, p: int)
    requires p >= 1
    ensures x > 0 ==> x * p >= p
    ensures x < 0 ==> x * p <= -p
    ensures x == 0 ==> x * p == 0
  {
    if x > 0 {
      TimesGrows(p, x);
    } else if x < 0 {
      TimesGrows(p, -x);
    }
  }

  /** For every count the clamped left shift is the clamped product with 2^count. */
  lemma LshIsClamped(m: Machine, t: IntType, x: int, shift: nat)
    requires In(t, x)
    ensures ClampedLsh(m, t, x, shift) == Clamp(t, x * Pow2(shift))
  {
    hide Saturated, Shifted, ShiftedBack, Pow2;
    LimitsIn(t);
    SaturatedIsLimit(m, t, IsNegative(t, x));
    ShiftGrows(x, Pow2(shift));
    if shift < Digits(t) {
      ReversibleShift(t, x, shift);
    } else if x != 0 {
      LongShift(t, x, shift);
    }
  }

  /** The checked shift refuses negative values and counts out of range; otherwise it
      succeeds exactly when the product fits.  Zero may also be shifted by all digits
      of a signed type. */
  lemma CheckedLshIsExact(t: IntType, u: IntType, x: int, shift: int)
    requires In(t, x) && In(u, shift) && Digits(t) < 128
    ensures var c := CheckedLsh(t, u, x, shift);
            (c.valid <==> x >= 0 && ((0 <= shift < Digits(t) && In(t, x * Pow2(shift))) ||
                                     (t.signed && x == 0 && shift == Digits(t)))) &&
            (c.valid ==> shift >= 0 && c.value == x * Pow2(shift))
  {
    hide Shifted, ShiftedBack, Cast, Pow2;
    LimitsIn(t);
    CountAsUnsigned(u, shift);
    if 0 <= shift < Digits(t) {
      ReversibleShift(t, x, shift);
    }
  }

  lemma CountAsUnsigned(u: IntType, shift: int)
    requires In(u, shift)
    ensures shift >= 0 ==> Cast(Unsigned(u), shift) == shift
    ensures shift < 0 ==> Cast(Unsigned(u), shift) >= 128
  {
    View(u, shift);
    Pow2Grows(7, u.bits - 1);
    Limits(u);
    assert Pow2(7) == 128;
  }
}
