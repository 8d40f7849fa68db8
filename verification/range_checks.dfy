/** base/numerics/safe_conversions_impl.h and safe_conversions.h for integers: range
    checks, comparisons across signedness, and saturating conversion. */
module RangeChecks {
  import opened IntTypes

  // ----- RangeCheck and the checks that build one -----

  datatype RangeCheck = RangeCheck(underflow: bool, overflow: bool) {
    predicate IsValid() {
      !overflow && !underflow
    }

    predicate IsOverflow() {
      overflow && !underflow
    }

    predicate IsUnderflow() {
      !overflow && underflow
    }
  }

  /** The constructor, which takes the two bounds the other way round. */
  function Bounds(inLower: bool, inUpper: bool): RangeCheck {
    RangeCheck(!inLower, !inUpper)
  }

  /** MaxExponent */
  function MaxExponent(t: IntType): int {
    Digits(t) + 1
  }

  /** StaticDstRangeRelationToSrcRange says "contained". */
  predicate Contained(dst: IntType, src: IntType) {
    if dst.signed == src.signed then MaxExponent(dst) >= MaxExponent(src)
    else if dst.signed then MaxExponent(dst) > MaxExponent(src)
    else false
  }

  /** a <= b on built-in operands of types `l` and `r`. */
  predicate BuiltinLe(intBits: Width, l: IntType, a: int, r: IntType, b: int) {
    Cast(Common(l, r, intBits), a) <= Cast(Common(l, r, intBits), b)
  }

  /** DstRangeRelationToSrcRange: the five specialisations. */
  function Check(intBits: Width, dst: IntType, src: IntType, value: int): RangeCheck {
    if Contained(dst, src) then
      Bounds(Cast(dst, Lowest(src)) >= Lowest(dst) || Cast(dst, value) >= Lowest(dst),
             Cast(dst, Max(src)) <= Max(dst) || Cast(dst, value) <= Max(dst))
    else if dst.signed && src.signed then
      Bounds(BuiltinLe(intBits, dst, Lowest(dst), src, value), BuiltinLe(intBits, src, value, dst, Max(dst)))
    else if !dst.signed && !src.signed then
      Bounds(Lowest(dst) == 0 || BuiltinLe(intBits, dst, Lowest(dst), src, value),
             BuiltinLe(intBits, src, value, dst, Max(dst)))
    else if dst.signed then
      Bounds(Lowest(dst) <= 0 || BuiltinLe(intBits, dst, Lowest(dst), src, value),
             BuiltinLe(intBits, src, value, dst, Max(dst)))
    else
      Bounds(value >= 0 && (Lowest(dst) == 0 || Cast(dst, value) >= Lowest(dst)),
             BuiltinLe(intBits, src, Max(src), dst, Max(dst)) || BuiltinLe(intBits, src, value, dst, Max(dst)))
  }

  /** Contained is never said wrongly. */
  lemma ContainedIsSubrange(dst: IntType, src: IntType)
    ensures Contained(dst, src) ==> Lowest(dst) <= Lowest(src) && Max(src) <= Max(dst)
  {
    MaxByDigits(src, dst);
    Limits(src);
    Limits(dst);
    if Digits(src) <= Digits(dst) {
      Pow2Grows(Digits(src), Digits(dst));
    }
  }

  /** The static relation misses a subrange only where an unsigned type has one bit less
      than a signed one, which no two machine types do. */
  lemma ContainedExactlyWhen(dst: IntType, src: IntType)
    ensures Contained(dst, src) <==>
            Lowest(dst) <= Lowest(src) && Max(src) <= Max(dst) && !(dst.signed && !src.signed && dst.bits == src.bits + 1)
  {
    ContainedIsSubrange(dst, src);
    Limits(src);
    Limits(dst);
    if Digits(dst) < Digits(src) {
      Pow2Grows(Digits(dst) + 1, Digits(src));
      MaxByDigits(src, dst);
    } else if dst.signed == src.signed || (dst.signed && !src.signed) {
      assert Contained(dst, src) || dst.bits == src.bits + 1;
    }
  }

  /** The common type holds every value of an operand unless the operand is negative
      and the type is not signed. */
  lemma CommonHolds(intBits: Width, l: IntType, r: IntType, v: int)
    requires In(l, v) || In(r, v)
    ensures v >= 0 || Common(l, r, intBits).signed ==> Cast(Common(l, r, intBits), v) == v
  {
    var c := Common(l, r, intBits);
    var t := if In(l, v) then l else r;
    var p := Promoted(t, intBits);
    Widens(t, p, v);
    Widens(p, c, v);
    if Digits(p) <= Digits(c) && (v >= 0 || c.signed) {
      CastFacts(c, v);
    }
  }

  /** The two flags are exactly the two ways to be out of range. */
  lemma CheckIsExact(intBits: Width, dst: IntType, src: IntType, v: int)
    requires In(src, v)
    ensures Check(intBits, dst, src, v) == RangeCheck(v < Lowest(dst), v > Max(dst))
  {
    ContainedIsSubrange(dst, src);
    if Contained(dst, src) {
      CastFacts(dst, Lowest(src));
      CastFacts(dst, Max(src));
    } else if dst.signed == src.signed {
      CommonHolds(intBits, dst, src, v);
      CommonHolds(intBits, src, dst, v);
      CommonHolds(intBits, dst, src, Lowest(dst));
      CommonHolds(intBits, src, dst, Max(dst));
    } else if dst.signed {
      CommonHolds(intBits, src, dst, v);
      CommonHolds(intBits, src, dst, Max(dst));
    } else {
      CommonHolds(intBits, src, dst, Max(src));
      CommonHolds(intBits, src, dst, v);
      CommonHolds(intBits, src, dst, Max(dst));
      MaxByDigits(src, dst);
    }
  }

  // ----- comparisons -----

  datatype Comparison = Less | LessOrEqual | Greater | GreaterOrEqual | Equal | NotEqual

  /** What each comparison means. */
  predicate Holds(c: Comparison, a: int, b: int) {
    match c
    case Less => a < b
    case LessOrEqual => a <= b
    case Greater => a > b
    case GreaterOrEqual => a >= b
    case Equal => a == b
    case NotEqual => a != b
  }

  /** IsLess, IsLessOrEqual, IsGreater, IsGreaterOrEqual, IsEqual and IsNotEqual: Test. */
  predicate Test(intBits: Width, c: Comparison, l: IntType, lhs: int, r: IntType, rhs: int) {
    var lRange, rRange := Check(intBits, r, l, lhs), Check(intBits, l, r, rhs);
    var k := Common(l, r, intBits);
    var a, b := Cast(k, lhs), Cast(k, rhs);
    match c
    case Less => lRange.IsUnderflow() || rRange.IsOverflow() || (lRange == rRange && a < b)
    case LessOrEqual => lRange.IsUnderflow() || rRange.IsOverflow() || (lRange == rRange && a <= b)
    case Greater => lRange.IsOverflow() || rRange.IsUnderflow() || (lRange == rRange && a > b)
    case GreaterOrEqual => lRange.IsOverflow() || rRange.IsUnderflow() || (lRange == rRange && a >= b)
    case Equal => lRange == rRange && a == b
    case NotEqual => lRange != rRange || a != b
  }

  /** The range flags agree only when both values fit both types; otherwise they
      already tell the order. */
  lemma FlagsOrder(l: IntType, lhs: int, r: IntType, rhs: int)
    requires In(l, lhs) && In(r, rhs)
    ensures var lRange := RangeCheck(lhs < Lowest(r), lhs > Max(r));
            var rRange := RangeCheck(rhs < Lowest(l), rhs > Max(l));
            if lRange == rRange then In(r, lhs) && In(l, rhs)
            else lhs != rhs && (lhs < rhs <==> lRange.IsUnderflow() || rRange.IsOverflow()) &&
                 (lhs > rhs <==> lRange.IsOverflow() || rRange.IsUnderflow())
  {
  }

  /** Each test is mathematical comparison, for every pair of types and values. */
  lemma TestIsExact(intBits: Width, c: Comparison, l: IntType, lhs: int, r: IntType, rhs: int)
    requires In(l, lhs) && In(r, rhs)
    ensures Test(intBits, c, l, lhs, r, rhs) <==> Holds(c, lhs, rhs)
  {
    hide Check, Cast, Common, Lowest, Max, In;
    CheckIsExact(intBits, r, l, lhs);
    CheckIsExact(intBits, l, r, rhs);
    FlagsOrder(l, lhs, r, rhs);
    if In(r, lhs) && In(l, rhs) {
      CommonKeepsShared(l, r, intBits, lhs);
      CommonKeepsShared(l, r, intBits, rhs);
      CastFacts(Common(l, r, intBits), lhs);
      CastFacts(Common(l, r, intBits), rhs);
    }
  }

  // ----- SafeCompare -----

  function MaxExponentPromotion(l: IntType, r: IntType): IntType {
    if MaxExponent(l) > MaxExponent(r) then l else r
  }

  datatype Promotion = Promotion(big: IntType, contained: bool)

  /** TwiceWiderInteger */
  function TwiceWider(t: IntType, signed: bool): IntType {
    IntType(2 * t.bits, signed)
  }

  /** BigEnoughPromotion, where the widest type has `maxBits` bits. */
  function BigEnough(maxBits: Width, l: IntType, r: IntType): Promotion {
    var most := MaxExponentPromotion(l, r);
    if Contained(most, l) && Contained(most, r) then Promotion(most, true)
    else if most.bits == maxBits then Promotion(most, false)
    else Promotion(TwiceWider(most, l.signed || r.signed), true)
  }

  predicate SafeCompare(intBits: Width, maxBits: Width, c: Comparison, l: IntType, lhs: int, r: IntType, rhs: int) {
    var p := BigEnough(maxBits, l, r);
    if p.contained then Test(intBits, c, p.big, Cast(p.big, lhs), p.big, Cast(p.big, rhs))
    else Test(intBits, c, l, lhs, r, rhs)
  }

  /** A promotion that claims to contain both types does. */
  lemma BigEnoughContains(maxBits: Width, l: IntType, r: IntType, v: int)
    requires BigEnough(maxBits, l, r).contained && (In(l, v) || In(r, v))
    ensures In(BigEnough(maxBits, l, r).big, v)
  {
    var most := MaxExponentPromotion(l, r);
    var big := BigEnough(maxBits, l, r).big;
    var t := if In(l, v) then l else r;
    ContainedIsSubrange(most, t);
    if big != most {
      Widens(t, big, v);
    }
  }

  lemma SafeCompareIsExact(intBits: Width, maxBits: Width, c: Comparison, l: IntType, lhs: int, r: IntType, rhs: int)
    requires In(l, lhs) && In(r, rhs)
    ensures SafeCompare(intBits, maxBits, c, l, lhs, r, rhs) <==> Holds(c, lhs, rhs)
  {
    hide Test, Cast, In, BigEnough;
    var p := BigEnough(maxBits, l, r);
    if p.contained {
      BigEnoughContains(maxBits, l, r, lhs);
      BigEnoughContains(maxBits, l, r, rhs);
      CastFacts(p.big, lhs);
      CastFacts(p.big, rhs);
      TestIsExact(intBits, c, p.big, lhs, p.big, rhs);
    } else {
      TestIsExact(intBits, c, l, lhs, r, rhs);
    }
  }

  // ----- limits in common, fast range checks, saturation -----

  function CommonMax(intBits: Width, dst: IntType, src: IntType): int {
    if !Test(intBits, GreaterOrEqual, dst, Max(dst), src, Max(src)) then Max(dst) else Cast(dst, Max(src))
  }

  function CommonMin(intBits: Width, dst: IntType, src: IntType): int {
    if !Test(intBits, LessOrEqual, dst, Lowest(dst), src, Lowest(src)) then Lowest(dst) else Cast(dst, Lowest(src))
  }

  function CommonMaxOrMin(intBits: Width, dst: IntType, src: IntType, isMin: bool): int {
    if isMin then CommonMin(intBits, dst, src) else CommonMax(intBits, dst, src)
  }

  lemma CommonLimits(intBits: Width, dst: IntType, src: IntType)
    ensures CommonMax(intBits, dst, src) == if Max(dst) < Max(src) then Max(dst) else Max(src)
    ensures CommonMin(intBits, dst, src) == if Lowest(dst) > Lowest(src) then Lowest(dst) else Lowest(src)
  {
    hide Test, Cast;
    LimitsIn(dst);
    LimitsIn(src);
    TestIsExact(intBits, GreaterOrEqual, dst, Max(dst), src, Max(src));
    TestIsExact(intBits, LessOrEqual, dst, Lowest(dst), src, Lowest(src));
    CastFacts(dst, Max(src));
    CastFacts(dst, Lowest(src));
  }

  lemma LimitsIn(t: IntType)
    ensures In(t, Lowest(t)) && In(t, Max(t)) && Lowest(t) <= 0 <= Max(t)
  {
  }

  /** IsValueInRangeForNumericType: the fast forms where there is one, else the check. */
  predicate IsValueInRange(intBits: Width, dst: IntType, src: IntType, value: int) {
    if dst.signed && src.signed && !Contained(dst, src) then
      var k := Common(src, dst, intBits);
      Cast(k, value) == Cast(k, Cast(dst, value))
    else if !dst.signed && src.signed && !Contained(dst, src) then
      Cast(Unsigned(src), value) <= Cast(Unsigned(src), CommonMax(intBits, src, dst))
    else Check(intBits, dst, src, value).IsValid()
  }

  /** Casting down and back is the identity exactly on what fits. */
  lemma RoundTripFits(intBits: Width, dst: IntType, src: IntType, v: int)
    requires In(src, v) && dst.signed && src.signed
    ensures var k := Common(src, dst, intBits); Cast(k, v) == Cast(k, Cast(dst, v)) <==> In(dst, v)
  {
    CastFacts(dst, v);
    CommonHolds(intBits, src, dst, v);
    CommonHolds(intBits, src, dst, Cast(dst, v));
  }

  /** As an unsigned value a negative one lies above every maximum. */
  lemma UnsignedViewFits(intBits: Width, dst: IntType, src: IntType, v: int)
    requires In(src, v) && !dst.signed && src.signed
    ensures Cast(Unsigned(src), v) <= Cast(Unsigned(src), CommonMax(intBits, src, dst)) <==> In(dst, v)
  {
    hide CommonMax;
    var u := Unsigned(src);
    CommonLimits(intBits, src, dst);
    Limits(src);
    CastFacts(u, CommonMax(intBits, src, dst));
    if v >= 0 {
      CastFacts(u, v);
    } else {
      CastIs(u, v, v + Size(src), -1);
    }
  }

  lemma InRangeIsExact(intBits: Width, dst: IntType, src: IntType, v: int)
    requires In(src, v)
    ensures IsValueInRange(intBits, dst, src, v) <==> In(dst, v)
    ensures IsValueInRange(intBits, dst, src, v) <==> Check(intBits, dst, src, v).IsValid()
  {
    hide CommonMax, Cast, Common, Check, Contained;
    CheckIsExact(intBits, dst, src, v);
    if dst.signed && src.signed {
      RoundTripFits(intBits, dst, src, v);
    } else if !dst.signed && src.signed {
      UnsignedViewFits(intBits, dst, src, v);
    }
  }

  /** saturated_cast_impl with the default limits, on integers. */
  function SaturatedCastImpl(intBits: Width, dst: IntType, src: IntType, value: int): int {
    var constraint := Check(intBits, dst, src, value);
    if !constraint.overflow then if !constraint.underflow then Cast(dst, value) else Lowest(dst)
    else Max(dst)
  }

  /** SaturateFastOp::Do */
  function SaturateFast(intBits: Width, dst: IntType, src: IntType, value: int): int {
    var maxInRange := Test(intBits, GreaterOrEqual, dst, Max(dst), src, Max(src));
    var minInRange := Test(intBits, LessOrEqual, dst, Lowest(dst), src, Lowest(src));
    var saturated := CommonMaxOrMin(intBits, dst, src, maxInRange || (!minInRange && src.signed && value < 0));
    if IsValueInRange(intBits, dst, src, value) then Cast(dst, value) else saturated
  }

  /** Both ways of saturating clamp to the destination range. */
  lemma SaturationIsClamping(intBits: Width, dst: IntType, src: IntType, v: int)
    requires In(src, v)
    ensures SaturatedCastImpl(intBits, dst, src, v) == Clamp(dst, v)
    ensures SaturateFast(intBits, dst, src, v) == Clamp(dst, v)
  {
    hide CommonMax, CommonMin, Cast, Check, Test, IsValueInRange;
    CheckIsExact(intBits, dst, src, v);
    InRangeIsExact(intBits, dst, src, v);
    LimitsIn(dst);
    LimitsIn(src);
    CastFacts(dst, v);
    CommonLimits(intBits, dst, src);
    TestIsExact(intBits, GreaterOrEqual, dst, Max(dst), src, Max(src));
    TestIsExact(intBits, LessOrEqual, dst, Lowest(dst), src, Lowest(src));
  }
}
