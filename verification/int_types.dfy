/** C++ integer types as intervals, for every width: casts, clamping, and the usual
    arithmetic conversions. */
module IntTypes {

  /** Bits in an integer type; C++ guarantees at least eight. */
  type Width = n: int | 8 <= n witness 8

  datatype IntType = IntType(bits: Width, signed: bool)

  function Pow2(n: nat): (p: int)
    ensures p >= 1
  {
    if n == 0 then 1 else 2 * Pow2(n - 1)
  }

  /** How many values a type of this width has. */
  function Size(t: IntType): int {
    Pow2(t.bits)
  }

  /** std::numeric_limits<T>::lowest(), max() and digits */
  function Lowest(t: IntType): int {
    if t.signed then -Pow2(t.bits - 1) else 0
  }

  function Max(t: IntType): int {
    if t.signed then Pow2(t.bits - 1) - 1 else Pow2(t.bits) - 1
  }

  function Digits(t: IntType): nat {
    if t.signed then t.bits - 1 else t.bits
  }

  predicate In(t: IntType, v: int) {
    Lowest(t) <= v <= Max(t)
  }

  function Unsigned(t: IntType): IntType {
    t.(signed := false)
  }

  /** The value of `t` nearest to `v`. */
  function Clamp(t: IntType, v: int): int {
    if v < Lowest(t) then Lowest(t) else if v > Max(t) then Max(t) else v
  }

  /** static_cast: the value of `t` that is `v` modulo the size of `t`. */
  function Cast(t: IntType, v: int): int {
    var m := v % Size(t);
    if t.signed && m >= Pow2(t.bits - 1) then m - Size(t) else m
  }

  // ----- casts -----

  lemma ModIs(v: int, m: int, q: int, r: int)
    requires 0 <= r < m && v == q * m + r
    ensures v % m == r && v / m == q
  {
    var d := v / m - q;
    assert d * m == r - v % m;
    assert d >= 1 ==> d * m >= m;
    assert d <= -1 ==> d * m <= -m;
  }

  /** A cast is characterised by its range and its residue. */
  lemma CastIs(t: IntType, v: int, w: int, k: int)
    requires In(t, w) && v == w + k * Size(t)
    ensures Cast(t, v) == w
  {
    var m := Size(t);
    assert m == 2 * Pow2(t.bits - 1);
    if w >= 0 {
      ModIs(v, m, k, w);
    } else {
      assert v == (k - 1) * m + (w + m);
      ModIs(v, m, k - 1, w + m);
    }
  }

  lemma CastFacts(t: IntType, v: int)
    ensures In(t, Cast(t, v))
    ensures In(t, v) ==> Cast(t, v) == v
  {
    assert Size(t) == 2 * Pow2(t.bits - 1);
    if In(t, v) {
      CastIs(t, v, v, 0);
    }
  }

  /** The multiple of the size that a cast takes off. */
  function Lap(t: IntType, v: int): (k: int)
    ensures v == Cast(t, v) + k * Size(t)
  {
    var m := Size(t);
    assert v == (v / m) * m + v % m;
    if Cast(t, v) == v % m then v / m
    else
      assert (v / m + 1) * m == (v / m) * m + m;
      v / m + 1
  }

  lemma CastIgnoresLaps(t: IntType, v: int, k: int)
    ensures Cast(t, v + k * Size(t)) == Cast(t, v)
  {
    CastFacts(t, v);
    var l := Lap(t, v);
    assert v + k * Size(t) == Cast(t, v) + (l + k) * Size(t);
    CastIs(t, v + k * Size(t), Cast(t, v), l + k);
  }

  // ----- powers and ranges -----

  lemma {:induction false} Pow2Grows(a: nat, b: nat)
    requires a <= b
    ensures Pow2(a) <= Pow2(b)
    ensures a < b ==> 2 * Pow2(a) <= Pow2(b)
    decreases b
  {
    if a < b {
      Pow2Grows(a, b - 1);
    }
  }

  lemma {:induction false} Pow2Adds(a: nat, b: nat)
    ensures Pow2(a + b) == Pow2(a) * Pow2(b)
  {
    if b > 0 {
      Pow2Adds(a, b - 1);
      assert Pow2(a) * (2 * Pow2(b - 1)) == 2 * (Pow2(a) * Pow2(b - 1));
    } else {
      assert Pow2(a) * 1 == Pow2(a);
    }
  }

  /** The powers that the fixed-width types need. */
  lemma Pow2Values()
    ensures Pow2(28) == 0x1000_0000 && Pow2(31) == 0x8000_0000 && Pow2(32) == 0x1_0000_0000
    ensures Pow2(63) == 0x8000_0000_0000_0000 && Pow2(64) == 0x1_0000_0000_0000_0000
  {
    assert Pow2(4) == 16 && Pow2(8) == 256;
    Pow2Adds(8, 8);
    Pow2Adds(16, 8);
    Pow2Adds(24, 4);
    Pow2Adds(24, 8);
    Pow2Adds(32, 32);
  }

  /** The limits by the number of digits. */
  lemma Limits(t: IntType)
    ensures Size(t) == 2 * Pow2(t.bits - 1)
    ensures Max(t) == Pow2(Digits(t)) - 1
    ensures Lowest(t) == if t.signed then -Pow2(Digits(t)) else 0
  {
  }

  /** Which maxima are at least as large: a matter of digits alone. */
  lemma MaxByDigits(s: IntType, t: IntType)
    ensures Max(s) <= Max(t) <==> Digits(s) <= Digits(t)
  {
    if Digits(s) <= Digits(t) {
      Pow2Grows(Digits(s), Digits(t));
    } else {
      Pow2Grows(Digits(t), Digits(s));
    }
  }

  // ----- integral promotion and the usual arithmetic conversions -----

  /** Integral promotion, where int has `intBits` bits. */
  function Promoted(t: IntType, intBits: Width): IntType {
    if t.bits < intBits then IntType(intBits, true) else t
  }

  /** decltype(l + r) */
  function Common(l: IntType, r: IntType, intBits: Width): IntType {
    var a, b := Promoted(l, intBits), Promoted(r, intBits);
    if a.signed == b.signed then if a.bits >= b.bits then a else b
    else
      var s, u := if a.signed then a else b, if a.signed then b else a;
      if u.bits >= s.bits then u else s
  }

  /** What both types can represent, their common type can: conversions to it keep it. */
  lemma CommonKeepsShared(l: IntType, r: IntType, intBits: Width, v: int)
    requires In(l, v) && In(r, v)
    ensures In(Common(l, r, intBits), v)
  {
    var c := Common(l, r, intBits);
    Widens(l, Promoted(l, intBits), v);
    Widens(r, Promoted(r, intBits), v);
    Widens(Promoted(l, intBits), c, v);
    Widens(Promoted(r, intBits), c, v);
  }

  /** A type with more bits of value contains what fits, negative values only if signed. */
  lemma Widens(s: IntType, t: IntType, v: int)
    requires In(s, v)
    ensures Digits(s) <= Digits(t) && (v >= 0 || t.signed) ==> In(t, v)
  {
    if Digits(s) <= Digits(t) {
      Pow2Grows(Digits(s), Digits(t));
      Limits(s);
      Limits(t);
    }
  }
}
