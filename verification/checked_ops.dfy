/** base/numerics/checked_math_impl.h: CheckedAddOp, CheckedSubOp, CheckedMulOp and
    CheckedDivOp over any two integer types, with their promotions. */
module CheckedOps {
  import opened IntTypes
  import opened RangeChecks
  import opened CheckedMath

  /** The widths of int, intmax_t and intptr_t. */
  datatype Machine = Machine(intBits: Width, maxBits: Width, ptrBits: Width)

  // ----- promotions -----

  /** IsIntegerArithmeticSafe<p, l, r> */
  predicate ArithmeticSafe(p: IntType, l: IntType, r: IntType) {
    (p.signed || !l.signed) && p.bits >= 2 * l.bits && (p.signed || !r.signed) && p.bits >= 2 * r.bits
  }

  /** FastIntegerArithmeticPromotion */
  function FastPromotion(m: Machine, l: IntType, r: IntType): IntType {
    var most := MaxExponentPromotion(l, r);
    if ArithmeticSafe(IntType(m.maxBits, l.signed || r.signed), most, most) then
      TwiceWider(most, l.signed || r.signed)
    else BigEnough(m.maxBits, l, r).big
  }

  /** What addition and subtraction compute in: no wider than a pointer. */
  function SumPromotion(m: Machine, l: IntType, r: IntType): IntType {
    var fast := FastPromotion(m, l, r);
    if fast.bits > m.ptrBits then BigEnough(m.maxBits, l, r).big else fast
  }

  // ----- the operations -----

  /** static_cast<V>(presult), and the verdict. */
  function Finish(m: Machine, v: IntType, p: IntType, presult: Checked): Checked {
    Checked(presult.valid && IsValueInRange(m.intBits, v, p, presult.value), Cast(v, presult.value))
  }

  function CheckedAddOp(m: Machine, l: IntType, r: IntType, x: int, y: int): Checked {
    var p := SumPromotion(m, l, r);
    if !IsValueInRange(m.intBits, p, l, x) || !IsValueInRange(m.intBits, p, r, y) then Checked(false, 0)
    else
      Finish(m, MaxExponentPromotion(l, r), p,
             if ArithmeticSafe(p, l, r) then Checked(true, Cast(p, Cast(p, x) + Cast(p, y)))
             else CheckedAddImpl(p, Cast(p, x), Cast(p, y)))
  }

  function CheckedSubOp(m: Machine, l: IntType, r: IntType, x: int, y: int): Checked {
    var p := SumPromotion(m, l, r);
    if !IsValueInRange(m.intBits, p, l, x) || !IsValueInRange(m.intBits, p, r, y) then Checked(false, 0)
    else
      Finish(m, MaxExponentPromotion(l, r), p,
             if ArithmeticSafe(p, l, r) then Checked(true, Cast(p, Cast(p, x) - Cast(p, y)))
             else CheckedSubImpl(p, Cast(p, x), Cast(p, y)))
  }

  function CheckedMulOp(m: Machine, l: IntType, r: IntType, x: int, y: int): Checked {
    var p := FastPromotion(m, l, r);
    if (!IsValueInRange(m.intBits, p, l, x) || !IsValueInRange(m.intBits, p, r, y)) && x != 0 && y != 0 then
      Checked(false, 0)
    else
      CastFacts(p, x);
      CastFacts(p, y);
      Finish(m, MaxExponentPromotion(l, r), p,
             if ArithmeticSafe(p, l, r) then Checked(true, Cast(p, Cast(p, x) * Cast(p, y)))
             else CheckedMulImpl(p, Cast(p, x), Cast(p, y)))
  }

  /** Division that truncates toward zero, as in C++. */
  function Quotient(x: int, y: int): int
    requires y != 0
  {
    if x >= 0 then if y > 0 then x / y else -(x / -y)
    else if y > 0 then -(-x / y) else -x / -y
  }

  function MagnitudeOf(x: int): nat {
    if x < 0 then -x else x
  }

  /** The quotient is exact toward zero: as many whole divisors as the magnitudes allow,
      with the sign that the operands give. */
  lemma QuotientTruncates(x: int, y: int)
    requires y != 0
    ensures var q := Quotient(x, y);
            && MagnitudeOf(q) * MagnitudeOf(y) <= MagnitudeOf(x) < (MagnitudeOf(q) + 1) * MagnitudeOf(y)
            && (q != 0 ==> (q < 0 <==> (x < 0) != (y < 0)))
  {
    var a, b := MagnitudeOf(x), MagnitudeOf(y);
    assert a == (a / b) * b + a % b;
    assert MagnitudeOf(Quotient(x, y)) == a / b;
    assert (a / b + 1) * b == (a / b) * b + b;
  }

  /** A nonzero divisor stays nonzero in the promoted type, even when it does not fit. */
  lemma DivisorStaysNonzero(m: Machine, l: IntType, r: IntType, y: int)
    requires r.bits <= m.maxBits && In(r, y) && y != 0
    ensures Cast(BigEnough(m.maxBits, l, r).big, y) != 0
  {
    hide Cast;
    var p := BigEnough(m.maxBits, l, r);
    if p.contained {
      BigEnoughContains(m.maxBits, l, r, y);
      CastFacts(p.big, y);
    } else {
      NonzeroInWider(p.big, r, y);
    }
  }

  lemma NonzeroInWider(p: IntType, r: IntType, y: int)
    requires r.bits <= p.bits && In(r, y) && y != 0
    ensures Cast(p, y) != 0
  {
    Pow2Grows(r.bits, p.bits);
    Limits(r);
    Limits(p);
    if y > 0 {
      ModIs(y, Size(p), 0, y);
    } else {
      ModIs(y, Size(p), -1, y + Size(p));
    }
  }

  function CheckedDivOp(m: Machine, l: IntType, r: IntType, x: int, y: int): Checked
    requires r.bits <= m.maxBits && In(r, y)
  {
    var p := BigEnough(m.maxBits, l, r).big;
    if y == 0 then Checked(false, 0)
    else if l.signed && r.signed && Contained(l, p) && Cast(p, x) == Lowest(p) && y == Cast(r, -1) then Checked(false, 0)
    else if (!IsValueInRange(m.intBits, p, l, x) || !IsValueInRange(m.intBits, p, r, y)) && x != 0 then Checked(false, 0)
    else
      DivisorStaysNonzero(m, l, r, y);
      Finish(m, MaxExponentPromotion(l, r), p, Checked(true, Quotient(Cast(p, x), Cast(p, y))))
  }

  // ----- what fits where -----

  /** Any of the promotions of `l` and `r`. */
  predicate IsPromotion(m: Machine, l: IntType, r: IntType, p: IntType) {
    p == FastPromotion(m, l, r) || p == SumPromotion(m, l, r) || p == BigEnough(m.maxBits, l, r).big
  }

  /** The result type fits in every promotion. */
  lemma ResultFitsPromotion(m: Machine, l: IntType, r: IntType, p: IntType, w: int)
    requires IsPromotion(m, l, r, p) && In(MaxExponentPromotion(l, r), w)
    ensures In(p, w)
  {
    Widens(MaxExponentPromotion(l, r), p, w);
  }

  lemma SafeSign(m: Machine, l: IntType, r: IntType, p: IntType)
    requires IsPromotion(m, l, r, p) && ArithmeticSafe(p, l, r)
    ensures p.signed <==> l.signed || r.signed
  {
  }

  /** Magnitudes against the promoted width: room for a carry. */
  lemma SafeMagnitude(p: IntType, t: IntType, x: int)
    requires p.bits >= 2 * t.bits && In(t, x)
    ensures -Pow2(t.bits) < x < Pow2(t.bits) && 4 * Pow2(t.bits) <= Size(p)
  {
    Limits(t);
    Pow2Grows(t.bits + 2, p.bits);
    assert Pow2(t.bits + 2) == 2 * Pow2(t.bits + 1) == 4 * Pow2(t.bits);
  }

  lemma SafeSum(p: IntType, l: IntType, r: IntType, x: int, y: int)
    requires ArithmeticSafe(p, l, r) && In(l, x) && In(r, y)
    ensures In(p, x + y) && (p.signed || x >= y ==> In(p, x - y))
  {
    SafeMagnitude(p, l, x);
    SafeMagnitude(p, r, y);
    Limits(p);
  }

  lemma ProductBelow(x: nat, y: nat, a: int, b: int)
    requires x <= a && y < b
    ensures x * y <= a * b - a
  {
    assert x * y <= a * y;
    assert a * y <= a * (b - 1) == a * b - a;
  }

  /** With a signed operand the product takes at most half of the joint range. */
  lemma HalfProduct(x: nat, y: nat, a: int, b: int)
    requires 2 * x <= a && y < b && a > 0
    ensures 2 * (x * y) < a * b
  {
    ProductBelow(2 * x, y, a, b);
    assert (2 * x) * y == 2 * (x * y);
  }

  lemma MagnitudeIn(t: IntType, x: int)
    requires In(t, x)
    ensures var ux := if x < 0 then -x else x; ux < Pow2(t.bits) && (t.signed ==> 2 * ux <= Pow2(t.bits))
  {
    Limits(t);
  }

  lemma MagnitudesProduct(l: IntType, r: IntType, ux: nat, uy: nat)
    requires ux < Pow2(l.bits) && (l.signed ==> 2 * ux <= Pow2(l.bits))
    requires uy < Pow2(r.bits) && (r.signed ==> 2 * uy <= Pow2(r.bits))
    ensures ux * uy < Pow2(l.bits + r.bits)
    ensures l.signed || r.signed ==> 2 * (ux * uy) < Pow2(l.bits + r.bits)
  {
    hide Pow2;
    Pow2Adds(l.bits, r.bits);
    var a, b := Pow2(l.bits), Pow2(r.bits);
    ProductBelow(ux, uy, a, b);
    if l.signed {
      HalfProduct(ux, uy, a, b);
    }
    if r.signed {
      HalfProduct(uy, ux, b, a);
    }
  }

  lemma MagnitudeFits(p: IntType, v: int, n: nat)
    requires n <= p.bits && -Pow2(n) < v < Pow2(n)
    requires if p.signed then -Pow2(n) < 2 * v < Pow2(n) else v >= 0
    ensures In(p, v)
  {
    Pow2Grows(n, p.bits);
    Limits(p);
  }

  lemma SafeProduct(p: IntType, l: IntType, r: IntType, x: int, y: int)
    requires ArithmeticSafe(p, l, r) && (p.signed <==> l.signed || r.signed) && In(l, x) && In(r, y)
    ensures In(p, x * y)
  {
    hide Pow2;
    var ux, uy := if x < 0 then -x else x, if y < 0 then -y else y;
    MagnitudeIn(l, x);
    MagnitudeIn(r, y);
    MagnitudesProduct(l, r, ux, uy);
    ProductBySigns(x, y, ux, uy, x < 0 < y || y < 0 < x);
    MagnitudeFits(p, x * y, l.bits + r.bits);
  }

  // ----- exactly when each operation succeeds -----

  lemma FinishIsExact(m: Machine, v: IntType, p: IntType, c: Checked)
    requires In(p, c.value)
    ensures Finish(m, v, p, c).valid <==> c.valid && In(v, c.value)
    ensures Finish(m, v, p, c).valid ==> Finish(m, v, p, c).value == c.value
  {
    hide Cast, IsValueInRange;
    InRangeIsExact(m.intBits, v, p, c.value);
    CastFacts(v, c.value);
  }

  /** Addition succeeds exactly when both operands fit the promotion and the sum fits
      the result type, and then delivers the sum. */
  lemma AddOpIsExact(m: Machine, l: IntType, r: IntType, x: int, y: int)
    requires In(l, x) && In(r, y)
    ensures var p, c := SumPromotion(m, l, r), CheckedAddOp(m, l, r, x, y);
            (c.valid <==> In(p, x) && In(p, y) && In(MaxExponentPromotion(l, r), x + y)) && (c.valid ==> c.value == x + y)
  {
    hide Cast, IsValueInRange, In, SumPromotion, MaxExponentPromotion, ArithmeticSafe, CheckedAddImpl, Finish;
    var p, v := SumPromotion(m, l, r), MaxExponentPromotion(l, r);
    InRangeIsExact(m.intBits, p, l, x);
    InRangeIsExact(m.intBits, p, r, y);
    if In(p, x) && In(p, y) {
      CastFacts(p, x);
      CastFacts(p, y);
      CastFacts(p, x + y);
      var c: Checked;
      if ArithmeticSafe(p, l, r) {
        SafeSum(p, l, r, x, y);
        c := Checked(true, Cast(p, x + y));
      } else {
        AddIsExact(p, x, y);
        c := CheckedAddImpl(p, x, y);
      }
      FinishIsExact(m, v, p, c);
      if In(v, x + y) {
        ResultFitsPromotion(m, l, r, p, x + y);
      }
    }
  }

  /** A difference that wrapped in a wide unsigned type is far outside the result type. */
  lemma WrappedDifference(m: Machine, l: IntType, r: IntType, p: IntType, x: int, y: int)
    requires IsPromotion(m, l, r, p) && ArithmeticSafe(p, l, r) && !p.signed && In(l, x) && In(r, y) && x < y
    ensures Cast(p, x - y) == x - y + Size(p) && !In(MaxExponentPromotion(l, r), Cast(p, x - y))
  {
    hide Cast, IsPromotion;
    SafeSign(m, l, r, p);
    SafeMagnitude(p, l, x);
    SafeMagnitude(p, r, y);
    CastOneLap(p, x - y);
  }

  lemma SubOpIsExact(m: Machine, l: IntType, r: IntType, x: int, y: int)
    requires In(l, x) && In(r, y)
    ensures var p, c := SumPromotion(m, l, r), CheckedSubOp(m, l, r, x, y);
            (c.valid <==> In(p, x) && In(p, y) && In(MaxExponentPromotion(l, r), x - y)) && (c.valid ==> c.value == x - y)
  {
    hide Cast, IsValueInRange, In, SumPromotion, MaxExponentPromotion, ArithmeticSafe, CheckedSubImpl, Finish;
    var p, v := SumPromotion(m, l, r), MaxExponentPromotion(l, r);
    InRangeIsExact(m.intBits, p, l, x);
    InRangeIsExact(m.intBits, p, r, y);
    if In(p, x) && In(p, y) {
      CastFacts(p, x);
      CastFacts(p, y);
      CastFacts(p, x - y);
      if In(v, x - y) {
        ResultFitsPromotion(m, l, r, p, x - y);
      }
      if ArithmeticSafe(p, l, r) {
        SafeSum(p, l, r, x, y);
        FinishIsExact(m, v, p, Checked(true, Cast(p, x - y)));
        if !p.signed && x < y {
          WrappedDifference(m, l, r, p, x, y);
          UnsignedResultIsNatural(m, l, r, p, x - y);
        }
      } else {
        SubIsExact(p, x, y);
        FinishIsExact(m, v, p, CheckedSubImpl(p, x, y));
      }
    }
  }

  lemma UnsignedResultIsNatural(m: Machine, l: IntType, r: IntType, p: IntType, w: int)
    requires IsPromotion(m, l, r, p) && ArithmeticSafe(p, l, r) && !p.signed && w < 0
    ensures !In(MaxExponentPromotion(l, r), w)
  {
    SafeSign(m, l, r, p);
  }

  /** Multiplication lets a zero through even beside an operand out of range. */
  lemma MulOpIsExact(m: Machine, l: IntType, r: IntType, x: int, y: int)
    requires In(l, x) && In(r, y)
    ensures var p, c := FastPromotion(m, l, r), CheckedMulOp(m, l, r, x, y);
            (c.valid <==> ((In(p, x) && In(p, y)) || x == 0 || y == 0) && In(MaxExponentPromotion(l, r), x * y)) &&
            (c.valid ==> c.value == x * y)
  {
    hide Cast, IsValueInRange, In, FastPromotion, MaxExponentPromotion, ArithmeticSafe, CheckedMulImpl, Finish;
    var p, v := FastPromotion(m, l, r), MaxExponentPromotion(l, r);
    InRangeIsExact(m.intBits, p, l, x);
    InRangeIsExact(m.intBits, p, r, y);
    if (In(p, x) && In(p, y)) || x == 0 || y == 0 {
      var a, b := Cast(p, x), Cast(p, y);
      CastProduct(p, x, y);
      CastFacts(p, x);
      CastFacts(p, y);
      CastFacts(p, x * y);
      if In(v, x * y) {
        ResultFitsPromotion(m, l, r, p, x * y);
      }
      if ArithmeticSafe(p, l, r) {
        SafeSign(m, l, r, p);
        SafeProduct(p, l, r, x, y);
        FinishIsExact(m, v, p, Checked(true, Cast(p, a * b)));
      } else {
        MulIsExact(p, a, b);
        FinishIsExact(m, v, p, CheckedMulImpl(p, a, b));
      }
    }
  }

  lemma CastProduct(p: IntType, x: int, y: int)
    requires (In(p, x) && In(p, y)) || x == 0 || y == 0
    ensures Cast(p, x) * Cast(p, y) == x * y
  {
    hide Cast;
    LimitsIn(p);
    CastFacts(p, x);
    CastFacts(p, y);
  }

  lemma TimesGrows(q: nat, b: int)
    requires b >= 1
    ensures q * b >= q && (b >= 2 ==> q * b >= q + q)
  {
    if b >= 2 {
      assert q * (b - 2) >= 0;
      assert q * b == q * (b - 2) + q + q;
    }
  }

  lemma DivisionParts(a: nat, b: int)
    requires b > 0
    ensures a / b >= 0 && (a / b) * b <= a
  {
  }

  lemma DivShrinks(a: nat, b: int)
    requires b > 0
    ensures 0 <= a / b <= a && (b >= 2 && a >= 1 ==> a / b < a)
  {
    DivisionParts(a, b);
    TimesGrows(a / b, b);
  }

  lemma QuotientShrinks(x: int, y: int)
    requires y != 0
    ensures var q := Quotient(x, y);
            (x >= 0 ==> -x <= q <= x) && (x <= 0 ==> x <= q <= -x) && ((x >= 0) == (y > 0) ==> q >= 0) &&
            ((x <= 0 < y) || (y < 0 <= x) ==> q <= 0)
    ensures x < 0 && y < -1 ==> Quotient(x, y) < -x
  {
    DivShrinks(if x < 0 then -x else x, if y < 0 then -y else y);
  }

  /** The quotient stays in the operands' type but for lowest / -1. */
  lemma QuotientIn(p: IntType, x: int, y: int)
    requires In(p, x) && In(p, y) && y != 0 && !(x == Lowest(p) && y == -1)
    ensures In(p, Quotient(x, y))
  {
    Limits(p);
    QuotientShrinks(x, y);
  }

  /** The lowest value over -1 is one too many for the result type. */
  lemma LowestOverMinusOne(m: Machine, l: IntType, r: IntType, x: int)
    requires l.signed && r.signed && In(l, x) && In(r, -1)
    ensures var p := BigEnough(m.maxBits, l, r).big;
            (Contained(l, p) && x == Lowest(p) ==> !In(MaxExponentPromotion(l, r), Quotient(x, -1))) &&
            (!Contained(l, p) ==> x != Lowest(p))
  {
    var p := BigEnough(m.maxBits, l, r).big;
    Limits(p);
    Limits(l);
    if !Contained(l, p) {
      Pow2Grows(Digits(l) + 1, Digits(p));
    }
  }

  lemma SignedOperandsFit(m: Machine, l: IntType, r: IntType, x: int, y: int)
    requires l.signed && r.signed && In(l, x) && In(r, y)
    ensures In(BigEnough(m.maxBits, l, r).big, x) && In(BigEnough(m.maxBits, l, r).big, y)
  {
    BigEnoughContains(m.maxBits, l, r, x);
    BigEnoughContains(m.maxBits, l, r, y);
  }

  /** The guard before the division: what it stops is exactly the overflow. */
  predicate DivOverflows(m: Machine, l: IntType, r: IntType, x: int, y: int) {
    var p := BigEnough(m.maxBits, l, r).big;
    l.signed && r.signed && Contained(l, p) && Cast(p, x) == Lowest(p) && y == Cast(r, -1)
  }

  lemma OverflowIsReal(m: Machine, l: IntType, r: IntType, x: int, y: int)
    requires In(l, x) && In(r, y) && y != 0 && DivOverflows(m, l, r, x, y)
    ensures !In(MaxExponentPromotion(l, r), Quotient(x, y))
  {
    hide BigEnough, Cast, Quotient, MaxExponentPromotion;
    Limits(r);
    CastFacts(r, -1);
    SignedOperandsFit(m, l, r, x, y);
    CastFacts(BigEnough(m.maxBits, l, r).big, x);
    LowestOverMinusOne(m, l, r, x);
  }

  lemma NoOtherOverflow(m: Machine, l: IntType, r: IntType, x: int, y: int)
    requires In(l, x) && In(r, y) && y != 0 && !DivOverflows(m, l, r, x, y)
    requires var p := BigEnough(m.maxBits, l, r).big; In(p, x) && In(p, y)
    ensures var p := BigEnough(m.maxBits, l, r).big; In(p, Quotient(x, y))
  {
    hide BigEnough, Cast, Quotient, MaxExponentPromotion;
    var p := BigEnough(m.maxBits, l, r).big;
    CastFacts(r, -1);
    CastFacts(p, x);
    Limits(p);
    if x == Lowest(p) && y == -1 {
      LowestOverMinusOne(m, l, r, x);
    }
    QuotientIn(p, x, y);
  }

  lemma QuotientOfZero(y: int)
    requires y != 0
    ensures Quotient(0, y) == 0
  {
    QuotientShrinks(0, y);
  }

  /** Division succeeds exactly when the divisor is not zero, the operands fit (or the
      dividend is zero) and the truncated quotient fits. */
  lemma DivOpIsExact(m: Machine, l: IntType, r: IntType, x: int, y: int)
    requires In(l, x) && In(r, y) && r.bits <= m.maxBits
    ensures var p, c := BigEnough(m.maxBits, l, r).big, CheckedDivOp(m, l, r, x, y);
            (c.valid <==> y != 0 && ((In(p, x) && In(p, y)) || x == 0) &&
                          In(MaxExponentPromotion(l, r), Quotient(x, y))) &&
            (c.valid ==> c.value == Quotient(x, y))
  {
    hide Cast, IsValueInRange, BigEnough, MaxExponentPromotion, Finish, Quotient, In;
    var p, v := BigEnough(m.maxBits, l, r).big, MaxExponentPromotion(l, r);
    InRangeIsExact(m.intBits, p, l, x);
    InRangeIsExact(m.intBits, p, r, y);
    if y == 0 {
    } else if DivOverflows(m, l, r, x, y) {
      OverflowIsReal(m, l, r, x, y);
    } else if In(p, x) && In(p, y) {
      NoOtherOverflow(m, l, r, x, y);
      CastFacts(p, x);
      CastFacts(p, y);
      FinishIsExact(m, v, p, Checked(true, Quotient(x, y)));
    } else if x == 0 {
      DivisorStaysNonzero(m, l, r, y);
      QuotientOfZero(y);
      QuotientOfZero(Cast(p, y));
      LimitsIn(p);
      LimitsIn(v);
      ZeroIn(p);
      ZeroIn(v);
      CastFacts(p, 0);
      FinishIsExact(m, v, p, Checked(true, 0));
    }
  }

  lemma ZeroIn(t: IntType)
    ensures In(t, 0)
  {
  }

  // ----- on the integer types of a machine -----

  predicate MachineType(t: IntType) {
    t.bits == 8 || t.bits == 16 || t.bits == 32 || t.bits == 64
  }

  /** intmax_t has 64 bits, a pointer 32 or 64. */
  predicate MachineOk(m: Machine) {
    m.maxBits == 64 && (m.ptrBits == 32 || m.ptrBits == 64)
  }

  const UINTMAX := IntType(64, false)

  /** The result type is the operand type that reaches higher. */
  lemma ResultTypeReachesHighest(l: IntType, r: IntType)
    ensures var v := MaxExponentPromotion(l, r); (v == l || v == r) && Max(l) <= Max(v) && Max(r) <= Max(v)
  {
    MaxByDigits(l, r);
    MaxByDigits(r, l);
  }

  /** No promotion exists only for an unsigned 64-bit type beside a signed one. */
  lemma NoPromotionExactlyWhen(m: Machine, l: IntType, r: IntType)
    requires MachineOk(m) && MachineType(l) && MachineType(r)
    ensures var p := BigEnough(m.maxBits, l, r);
            && (!p.contained <==> MaxExponentPromotion(l, r) == UINTMAX && l.signed != r.signed)
            && (p.contained ==> MachineType(p.big))
  {
  }

  /** `p` is a machine type with room for all of `l` and `r`, or both are at most the
      unsigned type of 64 bits and `p` is that. */
  predicate HasRoom(l: IntType, r: IntType, p: IntType) {
    && MachineType(p)
    && if MaxExponentPromotion(l, r) == UINTMAX then p == UINTMAX
       else Digits(l) <= Digits(p) && Digits(r) <= Digits(p) && (l.signed || r.signed ==> p.signed)
  }

  lemma BigEnoughHasRoom(m: Machine, l: IntType, r: IntType)
    requires MachineOk(m) && MachineType(l) && MachineType(r)
    ensures HasRoom(l, r, BigEnough(m.maxBits, l, r).big)
  {
    hide Pow2;
  }

  lemma FastHasRoom(m: Machine, l: IntType, r: IntType)
    requires MachineOk(m) && MachineType(l) && MachineType(r)
    ensures HasRoom(l, r, FastPromotion(m, l, r))
  {
    hide BigEnough, Pow2;
    BigEnoughHasRoom(m, l, r);
  }

  lemma PromotionHasRoom(m: Machine, l: IntType, r: IntType, p: IntType)
    requires MachineOk(m) && MachineType(l) && MachineType(r) && IsPromotion(m, l, r, p)
    ensures HasRoom(l, r, p)
  {
    hide HasRoom, FastPromotion, BigEnough, MaxExponentPromotion;
    BigEnoughHasRoom(m, l, r);
    FastHasRoom(m, l, r);
  }

  /** So an operand fits unless it is negative and the result type is unsigned with 64
      bits. */
  lemma OperandFits(m: Machine, l: IntType, r: IntType, p: IntType, t: IntType, x: int)
    requires MachineOk(m) && MachineType(l) && MachineType(r) && IsPromotion(m, l, r, p)
    requires (t == l || t == r) && In(t, x)
    ensures In(p, x) <==> !(MaxExponentPromotion(l, r) == UINTMAX && x < 0)
  {
    hide IsPromotion, MaxExponentPromotion, Pow2;
    PromotionHasRoom(m, l, r, p);
    ResultTypeReachesHighest(l, r);
    Widens(t, p, x);
    Limits(t);
    Limits(p);
  }

  /** Both operands fit. */
  predicate OperandsFit(l: IntType, r: IntType, x: int, y: int) {
    !(MaxExponentPromotion(l, r) == UINTMAX && (x < 0 || y < 0))
  }

  /** On machine types the operations fail exactly when the mathematical result does not
      fit the result type, or an operand is negative beside an unsigned 64-bit type. */
  lemma OpsOnMachines(m: Machine, l: IntType, r: IntType, x: int, y: int)
    requires MachineOk(m) && MachineType(l) && MachineType(r) && In(l, x) && In(r, y)
    ensures var v, fit := MaxExponentPromotion(l, r), OperandsFit(l, r, x, y);
            && (CheckedAddOp(m, l, r, x, y).valid <==> In(v, x + y) && fit)
            && (CheckedSubOp(m, l, r, x, y).valid <==> In(v, x - y) && fit)
            && (CheckedMulOp(m, l, r, x, y).valid <==> In(v, x * y) && (fit || x == 0 || y == 0))
            && (CheckedDivOp(m, l, r, x, y).valid <==> y != 0 && In(v, Quotient(x, y)) && (fit || x == 0))
  {
    hide In, CheckedAddOp, CheckedSubOp, CheckedMulOp, CheckedDivOp, MaxExponentPromotion, FastPromotion, SumPromotion,
         BigEnough, Quotient;
    AddOpIsExact(m, l, r, x, y);
    SubOpIsExact(m, l, r, x, y);
    MulOpIsExact(m, l, r, x, y);
    DivOpIsExact(m, l, r, x, y);
    var s, f, b := SumPromotion(m, l, r), FastPromotion(m, l, r), BigEnough(m.maxBits, l, r).big;
    OperandFits(m, l, r, s, l, x);
    OperandFits(m, l, r, s, r, y);
    OperandFits(m, l, r, f, l, x);
    OperandFits(m, l, r, f, r, y);
    OperandFits(m, l, r, b, l, x);
    OperandFits(m, l, r, b, r, y);
  }
}
