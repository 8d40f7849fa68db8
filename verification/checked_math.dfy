/** base/numerics/checked_math_impl.h: the portable overflow checks, by sign bits and
    by division, for every width and both signednesses. */
module CheckedMath {
  import opened IntTypes

  // ----- bit patterns -----

  /** x ^ y and x & y, on bit patterns. */
  function Xor(a: nat, b: nat): nat {
    if a == 0 && b == 0 then 0 else 2 * Xor(a / 2, b / 2) + (a % 2 + b % 2) % 2
  }

  function And(a: nat, b: nat): nat {
    if a == 0 || b == 0 then 0 else 2 * And(a / 2, b / 2) + (if a % 2 == 1 && b % 2 == 1 then 1 else 0)
  }

  function Bit(a: nat, k: nat): nat {
    if k == 0 then a % 2 else Bit(a / 2, k - 1)
  }

  /** Bit by bit they are what the operators of the language compute. */
  lemma {:induction false} BitwiseAtEachBit(a: nat, b: nat, k: nat)
    ensures Bit(Xor(a, b), k) == if Bit(a, k) != Bit(b, k) then 1 else 0
    ensures Bit(And(a, b), k) == if Bit(a, k) == 1 && Bit(b, k) == 1 then 1 else 0
    decreases k
  {
    hide Xor, And;
    HalvesOfXor(a, b);
    HalvesOfAnd(a, b);
    if k > 0 {
      BitwiseAtEachBit(a / 2, b / 2, k - 1);
    }
  }

  lemma HalfAndRest(q: nat, r: nat)
    requires r < 2
    ensures (2 * q + r) / 2 == q && (2 * q + r) % 2 == r
  {
  }

  lemma HalvesOfXor(a: nat, b: nat)
    ensures Xor(a, b) / 2 == Xor(a / 2, b / 2) && Xor(a, b) % 2 == (a % 2 + b % 2) % 2
  {
    if a == 0 && b == 0 {
      assert Xor(0, 0) == 0;
    } else {
      HalfAndRest(Xor(a / 2, b / 2), (a % 2 + b % 2) % 2);
    }
  }

  lemma HalvesOfAnd(a: nat, b: nat)
    ensures And(a, b) / 2 == And(a / 2, b / 2) && And(a, b) % 2 == (if a % 2 == 1 && b % 2 == 1 then 1 else 0)
  {
    if a == 0 || b == 0 {
      assert And(a / 2, b / 2) == 0;
    } else {
      HalfAndRest(And(a / 2, b / 2), if a % 2 == 1 && b % 2 == 1 then 1 else 0);
    }
  }

  /** The top bit of an `n`-bit pattern. */
  predicate Top(n: nat, a: int)
    requires n >= 1
  {
    a >= Pow2(n - 1)
  }

  lemma Halve(n: nat, a: nat)
    requires n >= 2 && a < Pow2(n)
    ensures a / 2 < Pow2(n - 1) && (Top(n, a) <==> Top(n - 1, a / 2))
  {
  }

  lemma {:induction false} XorBits(n: nat, a: nat, b: nat)
    requires n >= 1 && a < Pow2(n) && b < Pow2(n)
    ensures Xor(a, b) < Pow2(n)
    ensures Top(n, Xor(a, b)) <==> (Top(n, a) <==> !Top(n, b))
    decreases n
  {
    if n == 1 {
      assert Xor(0, 0) == 0;
    } else if a != 0 || b != 0 {
      Halve(n, a);
      Halve(n, b);
      XorBits(n - 1, a / 2, b / 2);
      Halve(n, Xor(a, b));
    }
  }

  lemma {:induction false} AndBits(n: nat, a: nat, b: nat)
    requires n >= 1 && a < Pow2(n) && b < Pow2(n)
    ensures And(a, b) < Pow2(n)
    ensures Top(n, And(a, b)) <==> Top(n, a) && Top(n, b)
    decreases n
  {
    if n == 1 {
      assert And(0, 0) == 0;
    } else if a != 0 && b != 0 {
      Halve(n, a);
      Halve(n, b);
      AndBits(n - 1, a / 2, b / 2);
      Halve(n, And(a, b));
    }
  }

  // ----- the two views of a value -----

  /** The bit pattern of a value, and where the sign shows in it. */
  lemma View(t: IntType, x: int)
    requires In(t, x)
    ensures Cast(Unsigned(t), x) == if x >= 0 then x else x + Size(t)
    ensures 0 <= Cast(Unsigned(t), x) < Size(t)
    ensures t.signed ==> (Top(t.bits, Cast(Unsigned(t), x)) <==> x < 0)
  {
    CastIs(Unsigned(t), x, if x >= 0 then x else x + Size(t), if x >= 0 then 0 else -1);
  }

  /** Read as a signed value, a pattern is negative exactly when its top bit is set. */
  lemma SignOfPattern(t: IntType, a: nat)
    requires t.signed && a < Size(t)
    ensures Cast(t, a) >= 0 <==> !Top(t.bits, a)
  {
    CastIs(t, a, if Top(t.bits, a) then a - Size(t) else a, if Top(t.bits, a) then 1 else 0);
  }

  lemma Recast(t: IntType, v: int, w: int, k: int)
    requires v == w + k * Size(t)
    ensures Cast(t, v) == Cast(t, w)
  {
    CastIgnoresLaps(t, w, k);
  }

  /** Going through the unsigned type of the same width loses nothing. */
  lemma CastThroughUnsigned(t: IntType, v: int)
    ensures Cast(t, Cast(Unsigned(t), v)) == Cast(t, v)
  {
    var u := Unsigned(t);
    Recast(t, v, Cast(u, v), Lap(u, v));
  }

  /** One wrap at most: what a pattern just out of range is cast to. */
  lemma CastOneLap(u: IntType, v: int)
    requires !u.signed && -Size(u) <= v < 2 * Size(u)
    ensures Cast(u, v) == if v < 0 then v + Size(u) else if v >= Size(u) then v - Size(u) else v
  {
    var k := if v < 0 then -1 else if v >= Size(u) then 1 else 0;
    CastIs(u, v, v - k * Size(u), k);
  }

  // ----- addition and subtraction -----

  /** The return value and *result. */
  datatype Checked = Checked(valid: bool, value: int)

  function CheckedAddImpl(t: IntType, x: int, y: int): Checked {
    var u := Unsigned(t);
    var ux, uy := Cast(u, x), Cast(u, y);
    var uresult := Cast(u, ux + uy);
    Checked(
      if t.signed then Cast(t, And(Xor(uresult, ux), Xor(uresult, uy))) >= 0 else uresult >= uy,
      Cast(t, uresult))
  }

  function CheckedSubImpl(t: IntType, x: int, y: int): Checked {
    var u := Unsigned(t);
    var ux, uy := Cast(u, x), Cast(u, y);
    var uresult := Cast(u, ux - uy);
    Checked(
      if t.signed then Cast(t, And(Xor(uresult, ux), Xor(ux, uy))) >= 0 else x >= y,
      Cast(t, uresult))
  }

  lemma SignOfAnd(t: IntType, p: nat, q: nat)
    requires t.signed && p < Size(t) && q < Size(t)
    ensures Cast(t, And(p, q)) >= 0 <==> !(Top(t.bits, p) && Top(t.bits, q))
  {
    hide And, Cast, Pow2;
    AndBits(t.bits, p, q);
    SignOfPattern(t, And(p, q));
  }

  /** The sign test, for any four patterns. */
  lemma SignTest(t: IntType, a: nat, b: nat, c: nat, d: nat)
    requires t.signed && a < Size(t) && b < Size(t) && c < Size(t) && d < Size(t)
    ensures Cast(t, And(Xor(a, b), Xor(c, d))) >= 0 <==>
            (Top(t.bits, a) <==> Top(t.bits, b)) || (Top(t.bits, c) <==> Top(t.bits, d))
  {
    hide Xor, And, Cast, Pow2, Top;
    XorBits(t.bits, a, b);
    XorBits(t.bits, c, d);
    SignOfAnd(t, Xor(a, b), Xor(c, d));
  }

  lemma AddIsExact(t: IntType, x: int, y: int)
    requires In(t, x) && In(t, y)
    ensures var r := CheckedAddImpl(t, x, y); r.value == Cast(t, x + y) && (r.valid <==> In(t, x + y))
    ensures In(t, x + y) ==> CheckedAddImpl(t, x, y).value == x + y
  {
    hide Cast, And, Xor, Pow2;
    var u := Unsigned(t);
    var ux, uy := Cast(u, x), Cast(u, y);
    Limits(t);
    View(t, x);
    View(t, y);
    CastOneLap(u, ux + uy);
    CastThroughUnsigned(t, ux + uy);
    Recast(t, ux + uy, x + y, (if x < 0 then 1 else 0) + (if y < 0 then 1 else 0));
    CastFacts(t, x + y);
    if t.signed {
      SignTest(t, Cast(u, ux + uy), ux, Cast(u, ux + uy), uy);
    }
  }

  lemma SubIsExact(t: IntType, x: int, y: int)
    requires In(t, x) && In(t, y)
    ensures var r := CheckedSubImpl(t, x, y); r.value == Cast(t, x - y) && (r.valid <==> In(t, x - y))
    ensures In(t, x - y) ==> CheckedSubImpl(t, x, y).value == x - y
  {
    hide Cast, And, Xor, Pow2;
    var u := Unsigned(t);
    var ux, uy := Cast(u, x), Cast(u, y);
    Limits(t);
    View(t, x);
    View(t, y);
    CastOneLap(u, ux - uy);
    CastThroughUnsigned(t, ux - uy);
    Recast(t, ux - uy, x - y, (if x < 0 then 1 else 0) - (if y < 0 then 1 else 0));
    CastFacts(t, x - y);
    if t.signed {
      SignTest(t, Cast(u, ux - uy), ux, ux, uy);
    }
  }

  // ----- multiplication -----

  /** SafeUnsignedAbs */
  function UnsignedAbs(t: IntType, x: int): int {
    var u := Unsigned(t);
    if t.signed && x < 0 then Cast(u, 0 - Cast(u, x)) else Cast(u, x)
  }

  function Flag(b: bool): int {
    if b then 1 else 0
  }

  /** The result for two magnitudes and a sign: truncation and the bound test. */
  function MulOfMagnitudes(t: IntType, ux: int, uy: int, isNegative: bool): Checked
    requires ux >= 0 && uy >= 0
  {
    var uresult := Cast(Unsigned(t), ux * uy);
    Checked(
      uy <= Flag(!t.signed || isNegative) || ux <= (Max(t) + Flag(isNegative)) / uy,
      Cast(t, if isNegative then 0 - uresult else uresult))
  }

  function CheckedMulImpl(t: IntType, x: int, y: int): Checked
    requires In(t, x) && In(t, y)
  {
    AbsIsExact(t, x);
    AbsIsExact(t, y);
    MulOfMagnitudes(t, UnsignedAbs(t, x), UnsignedAbs(t, y), XorIsNegative(t, x, y))
  }

  /** std::is_signed<T>::value && static_cast<SignedDst>(x ^ y) < 0 */
  predicate XorIsNegative(t: IntType, x: int, y: int) {
    t.signed && Cast(t, Xor(Cast(Unsigned(t), x), Cast(Unsigned(t), y))) < 0
  }

  lemma AbsIsExact(t: IntType, x: int)
    requires In(t, x)
    ensures UnsignedAbs(t, x) == if x < 0 then -x else x
  {
    hide Cast;
    var u := Unsigned(t);
    View(t, x);
    if x < 0 {
      CastOneLap(u, 0 - Cast(u, x));
    }
  }

  /** The sign bit of the xor is set exactly when the signs differ. */
  lemma SignsDiffer(t: IntType, x: int, y: int)
    requires t.signed && In(t, x) && In(t, y)
    ensures Cast(t, Xor(Cast(Unsigned(t), x), Cast(Unsigned(t), y))) < 0 <==> (x < 0 <==> y >= 0)
  {
    hide Cast, Xor;
    var u := Unsigned(t);
    View(t, x);
    View(t, y);
    XorBits(t.bits, Cast(u, x), Cast(u, y));
    SignOfPattern(t, Xor(Cast(u, x), Cast(u, y)));
  }

  lemma DivBound(a: nat, b: int, m: int)
    requires b > 0 && m >= 0
    ensures a <= m / b <==> a * b <= m
  {
    assert m == (m / b) * b + m % b;
    if a <= m / b {
      assert a * b <= (m / b) * b;
    } else {
      assert a * b >= (m / b + 1) * b == (m / b) * b + b;
    }
  }

  /** A product by the magnitudes and the sign. */
  lemma ProductBySigns(x: int, y: int, ux: int, uy: int, isNegative: bool)
    requires ux == (if x < 0 then -x else x) && uy == (if y < 0 then -y else y)
    requires isNegative ==> x <= 0 <= y || y <= 0 <= x
    requires !isNegative ==> (x >= 0 && y >= 0) || (x <= 0 && y <= 0)
    ensures x * y == (if isNegative then -(ux * uy) else ux * uy) && ux * uy >= 0
  {
  }

  lemma MulValue(t: IntType, p: int, isNegative: bool)
    ensures var r := Cast(Unsigned(t), p);
            Cast(t, if isNegative then 0 - r else r) == Cast(t, if isNegative then -p else p)
  {
    hide Cast;
    var u := Unsigned(t);
    var k := Lap(u, p);
    assert p == Cast(u, p) + k * Size(t);
    if isNegative {
      assert -p == (0 - Cast(u, p)) + (-k) * Size(t);
      Recast(t, -p, 0 - Cast(u, p), -k);
    } else {
      Recast(t, p, Cast(u, p), k);
    }
  }

  /** The bound on the magnitudes is the range of the type, with one more below zero. */
  lemma MulBound(t: IntType, ux: nat, uy: nat, isNegative: bool)
    requires ux <= (if t.signed then Max(t) + 1 else Max(t)) && (isNegative ==> t.signed)
    ensures uy <= Flag(!t.signed || isNegative) || ux <= (Max(t) + Flag(isNegative)) / uy <==>
            ux * uy <= Max(t) + Flag(isNegative)
  {
    if uy > 0 {
      DivBound(ux, uy, Max(t) + Flag(isNegative));
    }
  }

  lemma InBySign(t: IntType, p: int, isNegative: bool)
    requires p >= 0 && (isNegative ==> t.signed)
    ensures In(t, if isNegative then -p else p) <==> p <= Max(t) + Flag(isNegative)
  {
  }

  lemma MulOfMagnitudesIsExact(t: IntType, ux: nat, uy: nat, isNegative: bool)
    requires ux <= (if t.signed then Max(t) + 1 else Max(t)) && (isNegative ==> t.signed)
    ensures var r, p := MulOfMagnitudes(t, ux, uy, isNegative), ux * uy;
            r.value == Cast(t, if isNegative then -p else p) && (r.valid <==> p <= Max(t) + Flag(isNegative))
  {
    hide Cast, Max, Flag;
    MulValue(t, ux * uy, isNegative);
    MulBound(t, ux, uy, isNegative);
  }

  lemma MulIsExact(t: IntType, x: int, y: int)
    requires In(t, x) && In(t, y)
    ensures var r := CheckedMulImpl(t, x, y); r.value == Cast(t, x * y) && (r.valid <==> In(t, x * y))
    ensures In(t, x * y) ==> CheckedMulImpl(t, x, y).value == x * y
  {
    hide Cast, Xor, UnsignedAbs, Pow2, MulOfMagnitudes, Flag;
    AbsIsExact(t, x);
    AbsIsExact(t, y);
    if t.signed {
      SignsDiffer(t, x, y);
    }
    Limits(t);
    var ux, uy, isNegative := UnsignedAbs(t, x), UnsignedAbs(t, y), XorIsNegative(t, x, y);
    MulOfMagnitudesIsExact(t, ux, uy, isNegative);
    ProductBySigns(x, y, ux, uy, isNegative);
    InBySign(t, ux * uy, isNegative);
    CastFacts(t, x * y);
  }
}
