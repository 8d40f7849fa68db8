/** base/strings/string_number_conversions.cc: parsing numbers, saturating at the limits
    of the value type, and parsing bytes from hexadecimal. */
module StringNumbers {
  import opened IntTypes
  import opened RangeChecks
  import opened CheckedOps

  /** IteratorRangeToNumberTraits: the value type, the base, and traits::max(), which
      the hexadecimal traits override. */
  datatype Traits = Traits(value: IntType, max: int, base: int)

  function DecimalTraits(t: IntType): Traits {
    Traits(t, Max(t), 10)
  }

  function HexTraits(): Traits {
    Traits(IntType(32, true), Max(IntType(32, false)), 16)
  }

  // ----- digits and blanks -----

  /** isspace in the C locale: space, and tab to carriage return. */
  predicate IsWhitespace(c: char) {
    c == ' ' || 9 <= c as int <= 13
  }

  predicate IsDigit(base: int, c: char) {
    if base <= 10 then '0' <= c && (c as int) < '0' as int + base
    else
      '0' <= c <= '9' ||
      ('a' <= c && (c as int) < 'a' as int + base - 10) ||
      ('A' <= c && (c as int) < 'A' as int + base - 10)
  }

  function DigitOf(base: int, c: char): (d: nat)
    requires IsDigit(base, c)
    ensures d < base
  {
    if '0' <= c <= '9' then c as int - '0' as int
    else if 'a' <= c then c as int - 'a' as int + 10
    else c as int - 'A' as int + 10
  }

  /** BaseCharToDigit::Convert, both specialisations. */
  method CharToDigit(base: int, c: char) returns (ok: bool, digit: nat)
    ensures ok <==> IsDigit(base, c)
    ensures ok ==> digit == DigitOf(base, c)
  {
    ok, digit := true, 0;
    if base <= 10 {
      if c >= '0' && (c as int) < '0' as int + base {
        digit := c as int - '0' as int;
        return;
      }
      ok := false;
    } else if c >= '0' && c <= '9' {
      digit := c as int - '0' as int;
    } else if c >= 'a' && (c as int) < 'a' as int + base - 10 {
      digit := c as int - 'a' as int + 10;
    } else if c >= 'A' && (c as int) < 'A' as int + base - 10 {
      digit := c as int - 'A' as int + 10;
    } else {
      ok := false;
    }
  }

  // ----- what a numeral denotes -----

  /** Where the longest run of digits from `i` ends. */
  function RunEnd(base: int, s: string, i: nat): (e: nat)
    requires i <= |s|
    ensures i <= e <= |s| && AllDigits(base, s, i, e)
    ensures e < |s| ==> !IsDigit(base, s[e])
    decreases |s| - i
  {
    if i < |s| && IsDigit(base, s[i]) then RunEnd(base, s, i + 1) else i
  }

  predicate AllDigits(base: int, s: string, i: nat, j: nat) {
    forall k :: i <= k < j && k < |s| ==> IsDigit(base, s[k])
  }

  /** One more digit behind a number. */
  function Then(base: int, v: nat, d: nat): nat
    requires base >= 2
  {
    assert v * base >= 0;
    v * base + d
  }

  /** The number that the digits of `s[i..j]` denote. */
  function Value(base: int, s: string, i: nat, j: nat): nat
    requires i <= j <= |s| && AllDigits(base, s, i, j) && base >= 2
    decreases j
  {
    if i == j then 0 else Then(base, Value(base, s, i, j - 1), DigitOf(base, s[j - 1]))
  }

  function WithSign(negative: bool, v: int): int {
    if negative then -v else v
  }

  // ----- the bounds checks -----

  /** C++ remainder: the sign of the dividend. */
  function Remainder(x: int, y: int): int
    requires y != 0
  {
    x - Quotient(x, y) * y
  }

  /** Sign::CheckBounds, negated: one more digit would pass the limit. */
  predicate Passes(tr: Traits, negative: bool, output: int, digit: nat)
    requires tr.base >= 2
  {
    if negative then
      var min := Lowest(tr.value);
      output < Quotient(min, tr.base) || (output == Quotient(min, tr.base) && digit > 0 - Remainder(min, tr.base))
    else
      var most := Cast(tr.value, tr.max / tr.base);
      output > most || (output == most && digit > tr.max % tr.base)
  }

  /** What the failed check leaves in *output. */
  function Limit(tr: Traits, negative: bool): int {
    if negative then Lowest(tr.value) else Cast(tr.value, tr.max)
  }

  /** *output *= base, unless this is the first digit; then Increment. */
  function Extended(tr: Traits, negative: bool, output: int, first: bool, digit: nat): int {
    var scaled := if first then output else Cast(tr.value, output * tr.base);
    Cast(tr.value, if negative then scaled - digit else scaled + digit)
  }

  datatype Parse = Parse(ok: bool, output: int)

  /** The digit loop from `current` on. */
  function Fold(tr: Traits, negative: bool, s: string, begin: nat, current: nat, output: int): Parse
    requires begin <= current <= |s| && tr.base >= 2
    decreases |s| - current
  {
    if current == |s| then Parse(true, output)
    else if !IsDigit(tr.base, s[current]) then Parse(false, output)
    else
      var d := DigitOf(tr.base, s[current]);
      if current != begin && Passes(tr, negative, output, d) then Parse(false, Limit(tr, negative))
      else Fold(tr, negative, s, begin, current + 1, Extended(tr, negative, output, current == begin, d))
  }

  /** After an optional 0x in base 16. */
  function DigitsBegin(tr: Traits, s: string, begin: nat): (b: nat)
    requires begin <= |s|
    ensures begin <= b <= |s|
  {
    if tr.base == 16 && |s| - begin >= 2 && s[begin] == '0' && (s[begin + 1] == 'x' || s[begin + 1] == 'X') then begin + 2
    else begin
  }

  function Magnitude(tr: Traits, negative: bool, s: string, begin: nat): Parse
    requires begin <= |s| && tr.base >= 2
  {
    if begin == |s| then Parse(false, 0)
    else
      var b := DigitsBegin(tr, s, begin);
      Fold(tr, negative, s, b, b, 0)
  }

  function AfterBlanks(s: string, i: nat): (j: nat)
    requires i <= |s|
    ensures i <= j <= |s|
    decreases |s| - i
  {
    if i < |s| && IsWhitespace(s[i]) then AfterBlanks(s, i + 1) else i
  }

  predicate MinusAt(s: string, i: nat) {
    i < |s| && s[i] == '-'
  }

  function AfterSign(s: string, i: nat): (j: nat)
    requires i <= |s|
    ensures i <= j <= |s|
  {
    if i < |s| && (s[i] == '-' || s[i] == '+') then i + 1 else i
  }

  function Number(tr: Traits, s: string): Parse
    requires tr.base >= 2
  {
    var w := AfterBlanks(s, 0);
    var p := Magnitude(tr, MinusAt(s, w), s, AfterSign(s, w));
    Parse(p.ok && w == 0, p.output)
  }

  // ----- the loops -----

  /** Base<Sign>::Invoke */
  method InvokeBase(tr: Traits, negative: bool, s: string, start: nat) returns (ok: bool, output: int)
    requires start <= |s| && tr.base >= 2
    ensures Parse(ok, output) == Magnitude(tr, negative, s, start)
  {
    output := 0;
    if start == |s| {
      return false, output;
    }
    var begin := start;
    if tr.base == 16 && |s| - begin >= 2 && s[begin] == '0' && (s[begin + 1] == 'x' || s[begin + 1] == 'X') {
      begin := begin + 2;
    }
    var current := begin;
    while current != |s|
      invariant begin <= current <= |s|
      invariant Fold(tr, negative, s, begin, current, output) == Fold(tr, negative, s, begin, begin, 0)
    {
      var isDigit, newDigit := CharToDigit(tr.base, s[current]);
      if !isDigit {
        return false, output;
      }
      var scaled := output;
      if current != begin {
        if Passes(tr, negative, output, newDigit) {
          return false, Limit(tr, negative);
        }
        scaled := Cast(tr.value, output * tr.base);
      }
      output := Cast(tr.value, if negative then scaled - newDigit else scaled + newDigit);
      current := current + 1;
    }
    ok := true;
  }

  /** IteratorRangeToNumber::Invoke */
  method Invoke(tr: Traits, s: string) returns (valid: bool, output: int)
    requires tr.base >= 2
    ensures Parse(valid, output) == Number(tr, s)
  {
    valid := true;
    var begin := 0;
    while begin != |s| && IsWhitespace(s[begin])
      invariant begin <= |s|
      invariant AfterBlanks(s, begin) == AfterBlanks(s, 0)
      invariant valid <==> begin == 0
      decreases |s| - begin
    {
      valid := false;
      begin := begin + 1;
    }
    var ok: bool;
    if begin != |s| && s[begin] == '-' {
      ok, output := InvokeBase(tr, true, s, begin + 1);
    } else {
      if begin != |s| && s[begin] == '+' {
        begin := begin + 1;
      }
      ok, output := InvokeBase(tr, false, s, begin);
    }
    if !ok {
      valid := false;
    }
  }

  // ----- decimal numbers, signed types and unsigned ones without a minus sign -----

  /** On this side of zero the traits limit is that of the type, and any digit fits. */
  predicate Plain(tr: Traits, negative: bool) {
    2 <= tr.base <= 127 && (if negative then tr.value.signed else tr.max == Max(tr.value))
  }

  lemma DivideBound(a: nat, d: nat, base: int, m: nat)
    requires 2 <= base && d < base
    ensures a > m / base || (a == m / base && d > m % base) <==> a * base + d > m
  {
    var q, r := m / base, m % base;
    assert m == q * base + r;
    if a > q {
      assert a * base >= (q + 1) * base == q * base + base;
    } else if a < q {
      assert a * base <= (q - 1) * base == q * base - base;
    }
  }

  lemma LimitsOfType(t: IntType)
    ensures Max(t) >= 127 && (t.signed ==> Lowest(t) == -Max(t) - 1)
  {
    Pow2Grows(7, t.bits - 1);
    assert Pow2(7) == 128;
  }

  /** The quotient and remainder of a negative limit, by magnitudes. */
  lemma NegativeLimit(min: int, base: int)
    requires min < 0 && base >= 2
    ensures Quotient(min, base) == -(-min / base) && 0 - Remainder(min, base) == -min % base
  {
    var m := -min;
    assert m == (m / base) * base + m % base;
    assert Quotient(min, base) * base == -((m / base) * base);
  }

  /** The check is exact: it stops exactly the digit that would pass the limit. */
  lemma PassesIsExact(tr: Traits, negative: bool, v: nat, d: nat)
    requires Plain(tr, negative) && d < tr.base && In(tr.value, WithSign(negative, v))
    ensures Passes(tr, negative, WithSign(negative, v), d) <==> !In(tr.value, WithSign(negative, Then(tr.base, v, d)))
  {
    hide Cast, Quotient, Remainder, Pow2;
    var t := tr.value;
    LimitsOfType(t);
    if negative {
      NegativeLimit(Lowest(t), tr.base);
      DivideBound(v, d, tr.base, -Lowest(t));
    } else {
      DivideBound(v, d, tr.base, Max(t));
      QuotientFits(t, tr.base);
    }
  }

  lemma QuotientFits(t: IntType, base: int)
    requires base >= 2
    ensures Cast(t, Max(t) / base) == Max(t) / base && Cast(t, Max(t)) == Max(t)
  {
    hide Cast;
    LimitsOfType(t);
    DivisionParts(Max(t), base);
    DivShrinks(Max(t), base);
    CastFacts(t, Max(t) / base);
    CastFacts(t, Max(t));
  }

  /** What the loop body computes, when the check passed or there was nothing to check. */
  lemma ExtendedIsExact(tr: Traits, negative: bool, v: nat, first: bool, d: nat)
    requires Plain(tr, negative) && (first ==> v == 0)
    requires In(tr.value, WithSign(negative, Then(tr.base, v, d)))
    ensures Extended(tr, negative, WithSign(negative, v), first, d) == WithSign(negative, Then(tr.base, v, d))
  {
    hide Cast, Pow2;
    var scaled := WithSign(negative, v) * tr.base;
    assert scaled == WithSign(negative, v * tr.base);
    ThenBounds(tr.base, v, d);
    LimitsIn(tr.value);
    CastFacts(tr.value, scaled);
    CastFacts(tr.value, WithSign(negative, Then(tr.base, v, d)));
  }

  lemma ThenBounds(base: int, v: nat, d: nat)
    requires base >= 2
    ensures 0 <= v <= v * base <= Then(base, v, d)
  {
    TimesGrows(v, base);
  }

  lemma {:induction false} ValueGrows(base: int, s: string, i: nat, j: nat, k: nat)
    requires i <= j <= k <= |s| && AllDigits(base, s, i, k) && base >= 2
    ensures Value(base, s, i, j) <= Value(base, s, i, k)
    decreases k
  {
    if j < k {
      ValueGrows(base, s, i, j, k - 1);
      ThenBounds(base, Value(base, s, i, k - 1), DigitOf(base, s[k - 1]));
    }
  }

  /** From any point of the loop: the result is the clamped value of the whole run, and
      success means that the run reaches the end and its value fits. */
  lemma {:induction false} FoldIsClamped(tr: Traits, negative: bool, s: string, begin: nat, current: nat)
    requires Plain(tr, negative)
    requires begin <= current <= |s| && AllDigits(tr.base, s, begin, current)
    requires In(tr.value, WithSign(negative, Value(tr.base, s, begin, current)))
    ensures var p := Fold(tr, negative, s, begin, current, WithSign(negative, Value(tr.base, s, begin, current)));
            var e := RunEnd(tr.base, s, current);
            var v := WithSign(negative, Value(tr.base, s, begin, e));
            p.output == Clamp(tr.value, v) && (p.ok <==> e == |s| && In(tr.value, v))
    decreases |s| - current
  {
    hide Cast, Pow2, Passes, Extended, Quotient, Then, Max, Lowest;
    var v := Value(tr.base, s, begin, current);
    if current < |s| && IsDigit(tr.base, s[current]) {
      var d := DigitOf(tr.base, s[current]);
      var next := Then(tr.base, v, d);
      assert Value(tr.base, s, begin, current + 1) == next;
      PassesIsExact(tr, negative, v, d);
      if In(tr.value, WithSign(negative, next)) {
        ExtendedIsExact(tr, negative, v, current == begin, d);
        FoldIsClamped(tr, negative, s, begin, current + 1);
      } else {
        FirstDigitFits(tr, negative, v, d);
        ValueGrows(tr.base, s, begin, current + 1, RunEnd(tr.base, s, current));
        LimitIsClamp(tr, negative, next, Value(tr.base, s, begin, RunEnd(tr.base, s, current)));
      }
    }
  }

  lemma FirstDigitFits(tr: Traits, negative: bool, v: nat, d: nat)
    requires Plain(tr, negative) && d < tr.base
    ensures v == 0 ==> In(tr.value, WithSign(negative, Then(tr.base, v, d)))
  {
    LimitsOfType(tr.value);
  }

  lemma LimitIsClamp(tr: Traits, negative: bool, next: nat, v: nat)
    requires Plain(tr, negative) && !In(tr.value, WithSign(negative, next)) && next <= v
    ensures !In(tr.value, WithSign(negative, v)) && Limit(tr, negative) == Clamp(tr.value, WithSign(negative, v))
  {
    hide Cast;
    LimitsOfType(tr.value);
    QuotientFits(tr.value, 2);
  }

  // ----- any traits: the accumulator modulo the size of its type -----

  lemma Relap(t: IntType, v: int, d: int)
    ensures Cast(t, Cast(t, v) + d) == Cast(t, v + d)
  {
    hide Cast;
    CastIgnoresLaps(t, Cast(t, v) + d, Lap(t, v));
  }

  lemma RelapProduct(t: IntType, v: int, base: int)
    ensures Cast(t, Cast(t, v) * base) == Cast(t, v * base)
  {
    hide Cast;
    var k := Lap(t, v);
    assert v * base == Cast(t, v) * base + (k * base) * Size(t) by {
      assert (Cast(t, v) + k * Size(t)) * base == Cast(t, v) * base + (k * Size(t)) * base;
      assert (k * Size(t)) * base == (k * base) * Size(t);
    }
    CastIgnoresLaps(t, Cast(t, v) * base, k * base);
  }

  /** The loop body on a value that may have wrapped. */
  lemma ExtendedWraps(tr: Traits, negative: bool, v: nat, first: bool, d: nat)
    requires tr.base >= 2 && (first ==> v == 0)
    ensures Extended(tr, negative, Cast(tr.value, WithSign(negative, v)), first, d) ==
            Cast(tr.value, WithSign(negative, Then(tr.base, v, d)))
  {
    hide Cast;
    var t, x := tr.value, WithSign(negative, v);
    RelapProduct(t, x, tr.base);
    SignedThen(tr.base, negative, v, d);
    ZeroIn(t);
    CastFacts(t, 0);
    Relap(t, x * tr.base, if negative then 0 - d else d);
  }

  lemma SignedThen(base: int, negative: bool, v: nat, d: nat)
    requires base >= 2
    ensures WithSign(negative, Then(base, v, d)) == WithSign(negative, v) * base + (if negative then 0 - d else d)
    ensures v == 0 ==> WithSign(negative, v) * base == 0
  {
    assert 0 - v * base == (0 - v) * base;
  }

  /** The bounds check stops the digit at `k`, one of the run that begins at `begin`. */
  predicate StopsAt(tr: Traits, negative: bool, s: string, begin: nat, k: nat)
    requires begin <= |s| && tr.base >= 2
  {
    begin < k < RunEnd(tr.base, s, begin) &&
    Passes(tr, negative, Cast(tr.value, WithSign(negative, Value(tr.base, s, begin, k))), DigitOf(tr.base, s[k]))
  }

  /** Some check from `current` on stops the loop. */
  predicate Stops(tr: Traits, negative: bool, s: string, begin: nat, current: nat)
    requires begin <= |s| && tr.base >= 2
  {
    exists k :: current <= k < |s| && StopsAt(tr, negative, s, begin, k)
  }

  lemma StopsStep(tr: Traits, negative: bool, s: string, begin: nat, current: nat)
    requires begin <= current < |s| && tr.base >= 2
    ensures Stops(tr, negative, s, begin, current) <==>
            StopsAt(tr, negative, s, begin, current) || Stops(tr, negative, s, begin, current + 1)
  {
  }

  /** For any type and sign, wrapped or not: the loop ends with the limit at the first
      check that stops it, or else with the run's value modulo the size of the type. */
  lemma {:induction false} FoldWraps(tr: Traits, negative: bool, s: string, begin: nat, current: nat)
    requires tr.base >= 2 && begin <= |s| && begin <= current <= RunEnd(tr.base, s, begin)
    ensures var e := RunEnd(tr.base, s, begin);
            Fold(tr, negative, s, begin, current, Cast(tr.value, WithSign(negative, Value(tr.base, s, begin, current)))) ==
            if Stops(tr, negative, s, begin, current) then Parse(false, Limit(tr, negative))
            else Parse(e == |s|, Cast(tr.value, WithSign(negative, Value(tr.base, s, begin, e))))
    decreases |s| - current
  {
    hide Cast, Passes, Extended, Then, Stops;
    var e := RunEnd(tr.base, s, begin);
    if current < e {
      var v, d := Value(tr.base, s, begin, current), DigitOf(tr.base, s[current]);
      assert Value(tr.base, s, begin, current + 1) == Then(tr.base, v, d);
      StopsStep(tr, negative, s, begin, current);
      ExtendedWraps(tr, negative, v, current == begin, d);
      FoldWraps(tr, negative, s, begin, current + 1);
    } else {
      NoStopsBehind(tr, negative, s, begin, current);
    }
  }

  lemma NoStopsBehind(tr: Traits, negative: bool, s: string, begin: nat, current: nat)
    requires begin <= |s| && tr.base >= 2 && RunEnd(tr.base, s, begin) <= current
    ensures !Stops(tr, negative, s, begin, current)
  {
  }

  /** Where the digits of a numeral begin: after blanks and a sign. */
  function NumeralStart(s: string): (b: nat)
    ensures b <= |s|
  {
    AfterSign(s, AfterBlanks(s, 0))
  }

  predicate IsMinus(s: string) {
    MinusAt(s, AfterBlanks(s, 0))
  }

  /** The number written in `s`: sign and longest run of digits. */
  function Denoted(base: int, s: string): int
    requires base >= 2
  {
    var b := NumeralStart(s);
    WithSign(IsMinus(s), Value(base, s, b, RunEnd(base, s, b)))
  }

  /** All of `s` is sign? digits+. */
  predicate IsNumeral(base: int, s: string)
  {
    var b := NumeralStart(s);
    AfterBlanks(s, 0) == 0 && b < |s| && RunEnd(base, s, b) == |s|
  }

  lemma DecimalMagnitude(t: IntType, s: string, b: nat, negative: bool)
    requires b <= |s| && (t.signed || !negative)
    ensures var e := RunEnd(10, s, b);
            var v, p := WithSign(negative, Value(10, s, b, e)), Magnitude(DecimalTraits(t), negative, s, b);
            p.output == Clamp(t, v) && (p.ok <==> b < |s| && e == |s| && In(t, v))
  {
    hide Cast, Pow2, Passes, Max, Lowest;
    var tr := DecimalTraits(t);
    ZeroIn(t);
    if b < |s| {
      FoldIsClamped(tr, negative, s, b, b);
    }
  }

  /** What StringToInt, StringToUint and their kind are for: the output is the clamped
      value of the longest digit run, and success means a numeral in range and nothing
      else. */
  predicate Obeyed(t: IntType, s: string) {
    var p := Number(DecimalTraits(t), s);
    p.output == Clamp(t, Denoted(10, s)) && (p.ok <==> IsNumeral(10, s) && In(t, Denoted(10, s)))
  }

  /** Signed types obey on every input, unsigned ones on every input without a minus. */
  lemma DecimalObeys(t: IntType, s: string)
    requires t.signed || !IsMinus(s)
    ensures Obeyed(t, s)
  {
    DecimalMagnitude(t, s, NumeralStart(s), IsMinus(s));
  }

  // ----- unsigned types with a minus sign -----

  /** A digit that is not 0 stands where the digits before it, not none, make a multiple of 2^n:
      only there does the check of an unsigned type against its lowest value, 0, stop. */
  predicate StopsAtMultiple(t: IntType, s: string, b: nat, k: nat)
    requires b <= |s|
  {
    b < k < RunEnd(10, s, b) && Value(10, s, b, k) % Size(t) == 0 && DigitOf(10, s[k]) > 0
  }

  predicate SomeStopAtMultiple(t: IntType, s: string, b: nat)
    requires b <= |s|
  {
    exists k :: b <= k < |s| && StopsAtMultiple(t, s, b, k)
  }

  /** An unsigned cast of a negative number is 0 exactly for multiples of the size. */
  lemma CastOfNegative(t: IntType, v: nat)
    requires !t.signed
    ensures Cast(t, WithSign(true, v)) >= 0
    ensures Cast(t, WithSign(true, v)) == 0 <==> v % Size(t) == 0
  {
    var m := Size(t);
    var q, r := v / m, v % m;
    assert v == q * m + r;
    if r == 0 {
      assert 0 - v == (0 - q) * m + 0;
      ModIs(0 - v, m, 0 - q, 0);
    } else {
      assert 0 - v == (0 - q - 1) * m + (m - r);
      ModIs(0 - v, m, 0 - q - 1, m - r);
    }
  }

  lemma UnsignedMinusCheck(t: IntType, v: nat, d: nat)
    requires !t.signed
    ensures Passes(DecimalTraits(t), true, Cast(t, WithSign(true, v)), d) <==> v % Size(t) == 0 && d > 0
  {
    hide Cast;
    CastOfNegative(t, v);
    QuotientOfZero(10);
  }

  lemma UnsignedMinusStops(t: IntType, s: string, b: nat)
    requires !t.signed && b <= |s|
    ensures Stops(DecimalTraits(t), true, s, b, b) <==> SomeStopAtMultiple(t, s, b)
  {
    hide Cast, Passes;
    forall k | b <= k < |s|
      ensures StopsAt(DecimalTraits(t), true, s, b, k) <==> StopsAtMultiple(t, s, b, k)
    {
      if b < k < RunEnd(10, s, b) {
        UnsignedMinusCheck(t, Value(10, s, b, k), DigitOf(10, s[k]));
      }
    }
  }

  /** What an unsigned type makes of the digits behind a minus sign: the negated value
      modulo 2^n, or a failed 0. */
  lemma UnsignedMinusMagnitude(t: IntType, s: string, b: nat)
    requires !t.signed && b < |s|
    ensures var e := RunEnd(10, s, b);
            Magnitude(DecimalTraits(t), true, s, b) ==
            if SomeStopAtMultiple(t, s, b) then Parse(false, 0)
            else Parse(e == |s|, Cast(t, WithSign(true, Value(10, s, b, e))))
  {
    hide Cast, Stops, SomeStopAtMultiple, Fold;
    ZeroIn(t);
    CastFacts(t, 0);
    UnsignedMinusStops(t, s, b);
    FoldWraps(DecimalTraits(t), true, s, b, b);
  }

  /** A stop at a multiple leaves a number that is not 0. */
  lemma StoppedIsNotZero(t: IntType, s: string, b: nat)
    requires b <= |s| && SomeStopAtMultiple(t, s, b)
    ensures Value(10, s, b, RunEnd(10, s, b)) > 0
  {
    var k :| b <= k < |s| && StopsAtMultiple(t, s, b, k);
    var v, d := Value(10, s, b, k), DigitOf(10, s[k]);
    assert Value(10, s, b, k + 1) == Then(10, v, d);
    ThenBounds(10, v, d);
    assert Then(10, v, d) >= d;
    ValueGrows(10, s, b, k + 1, RunEnd(10, s, b));
  }

  /** When an unsigned type obeys although there is a minus sign: it is stopped, or the
      digits make 0, or they make a multiple of 2^n in a text that fails anyway. */
  predicate HarmlessMinus(t: IntType, s: string) {
    var b := NumeralStart(s);
    var e := RunEnd(10, s, b);
    var v := Value(10, s, b, e);
    SomeStopAtMultiple(t, s, b) || v == 0 || (v % Size(t) == 0 && (e < |s| || AfterBlanks(s, 0) > 0))
  }

  /** Decimal parsing into any type, on any input: it obeys exactly if the type is signed,
      or there is no minus sign, or the minus sign is harmless. */
  lemma DecimalParsing(t: IntType, s: string)
    ensures Obeyed(t, s) <==> t.signed || !IsMinus(s) || HarmlessMinus(t, s)
  {
    hide Cast, SomeStopAtMultiple, Fold;
    if t.signed || !IsMinus(s) {
      DecimalObeys(t, s);
    } else {
      var b := NumeralStart(s);
      var v := Value(10, s, b, RunEnd(10, s, b));
      UnsignedClamp(t, v);
      CastOfNegative(t, v);
      ModIs(0, Size(t), 0, 0);
      if b < |s| {
        UnsignedMinusMagnitude(t, s, b);
        if SomeStopAtMultiple(t, s, b) {
          StoppedIsNotZero(t, s, b);
        }
      }
    }
  }

  lemma UnsignedClamp(t: IntType, v: nat)
    requires !t.signed
    ensures Clamp(t, WithSign(true, v)) == 0 && (In(t, WithSign(true, v)) <==> v == 0)
  {
  }

  /** An instance that does not obey: the value wraps and is reported as read. */
  lemma UnsignedMinusWraps()
    ensures Number(DecimalTraits(IntType(32, false)), "-5") == Parse(true, 4294967291)
    ensures !Obeyed(IntType(32, false), "-5")
  {
    var t, s := IntType(32, false), "-5";
    Pow2Values();
    ZeroIn(t);
    ModIs(-5, Size(t), -1, 4294967291);
    CastFacts(t, 0);
    assert s[1] == '5' && DigitOf(10, s[1]) == 5;
    assert Extended(DecimalTraits(t), true, 0, true, 5) == 4294967291;
    assert Fold(DecimalTraits(t), true, s, 1, 2, 4294967291) == Parse(true, 4294967291);
  }

  // ----- printing and reading back -----

  function DigitChar(d: nat): char
    requires d < 10
  {
    '0' + d as char
  }

  function Digits(n: nat): string {
    if n < 10 then [DigitChar(n)] else Digits(n / 10) + [DigitChar(n % 10)]
  }

  function Printed(v: int): string {
    if v < 0 then "-" + Digits(-v) else Digits(v)
  }

  lemma {:induction false} DigitsDenote(pre: string, n: nat)
    ensures var s := pre + Digits(n);
            |Digits(n)| >= 1 && AllDigits(10, s, |pre|, |s|) && Value(10, s, |pre|, |s|) == n
    decreases n
  {
    var s := pre + Digits(n);
    if n >= 10 {
      DigitsDenote(pre, n / 10);
      var front := pre + Digits(n / 10);
      assert s == front + [DigitChar(n % 10)];
      ValueOfPrefix(10, front, s, |pre|, |front|);
    } else {
      assert s[|pre|] == DigitChar(n);
    }
  }

  lemma {:induction false} ValueOfPrefix(base: int, a: string, s: string, i: nat, j: nat)
    requires base >= 2 && a <= s && i <= j <= |a| && AllDigits(base, a, i, j)
    ensures AllDigits(base, s, i, j) && Value(base, s, i, j) == Value(base, a, i, j)
    decreases j
  {
    assert forall k :: 0 <= k < |a| ==> s[k] == a[k];
    if i < j {
      ValueOfPrefix(base, a, s, i, j - 1);
    }
  }

  lemma {:induction false} RunOfDigits(base: int, s: string, i: nat)
    requires i <= |s| && AllDigits(base, s, i, |s|)
    ensures RunEnd(base, s, i) == |s|
    decreases |s| - i
  {
    if i < |s| {
      RunOfDigits(base, s, i + 1);
    }
  }

  // ----- a number in the middle of other text -----

  /** The blanks of the C locale. */
  lemma BlanksByName(c: char)
    ensures IsWhitespace(c) <==> c == ' ' || c == '\t' || c == '\n' || c == '\r' || c as int == 11 || c as int == 12
  {
  }

  predicate AllBlank(w: string) {
    forall k :: 0 <= k < |w| ==> IsWhitespace(w[k])
  }

  function SignOf(v: int, plus: bool): string {
    if v < 0 then "-" else if plus then "+" else ""
  }

  lemma {:induction false} BlanksEnd(s: string, i: nat, j: nat)
    requires i <= j <= |s| && (j < |s| ==> !IsWhitespace(s[j]))
    requires forall k :: i <= k < j ==> IsWhitespace(s[k])
    ensures AfterBlanks(s, i) == j
    decreases j - i
  {
    if i < j {
      BlanksEnd(s, i + 1, j);
    }
  }

  lemma {:induction false} RunEndsAt(base: int, s: string, i: nat, e: nat)
    requires i <= e <= |s| && AllDigits(base, s, i, e) && (e < |s| ==> !IsDigit(base, s[e]))
    ensures RunEnd(base, s, i) == e
    decreases e - i
  {
    if i < e {
      RunEndsAt(base, s, i + 1, e);
    }
  }

  /** Where the parts of such a text are found. */
  lemma PartsOfText(w: string, v: int, plus: bool, digits: string, tail: string)
    requires AllBlank(w) && digits != "" && IsDigit(10, digits[0])
    ensures var sign := SignOf(v, plus);
            var s := w + sign + digits + tail;
            && AfterBlanks(s, 0) == |w| && (MinusAt(s, |w|) <==> v < 0)
            && AfterSign(s, |w|) == |w + sign|
  {
    var sign := SignOf(v, plus);
    var s := w + sign + digits + tail;
    assert s[|w + sign|] == digits[0];
    assert sign != "" ==> s[|w|] == sign[0];
    BlanksEnd(s, 0, |w|);
  }

  lemma DigitsAreDigits(n: nat)
    ensures Digits(n) != "" && IsDigit(10, Digits(n)[0]) && AllDigits(10, Digits(n), 0, |Digits(n)|)
  {
    DigitsDenote("", n);
    assert "" + Digits(n) == Digits(n);
  }

  /** A number in its decimal form, behind blanks, with or without a plus sign, and in front
      of any text that does not begin with a digit: its value is read, and success means
      that there is nothing else. */
  lemma NumberAmongText(t: IntType, v: int, plus: bool, w: string, tail: string)
    requires In(t, v) && AllBlank(w) && (tail != "" ==> !IsDigit(10, tail[0]))
    ensures var s := w + SignOf(v, plus) + Digits(if v < 0 then -v else v) + tail;
            Number(DecimalTraits(t), s) == Parse(w == "" && tail == "", v)
  {
    hide Cast, Fold, IsDigit, DigitOf, Digits, IsWhitespace, AfterBlanks, AfterSign, MinusAt, SignOf, Magnitude;
    var n: nat := if v < 0 then -v else v;
    var pre := w + SignOf(v, plus);
    var front := pre + Digits(n);
    var s := front + tail;
    DigitsAreDigits(n);
    DigitsDenote(pre, n);
    PartsOfText(w, v, plus, Digits(n), tail);
    ValueOfPrefix(10, front, s, |pre|, |front|);
    assert tail != "" ==> s[|front|] == tail[0];
    RunEndsAt(10, s, |pre|, |front|);
    DecimalMagnitude(t, s, |pre|, v < 0);
    NegativeIsSigned(t, v);
  }

  lemma NegativeIsSigned(t: IntType, v: int)
    requires In(t, v)
    ensures v < 0 ==> t.signed
    ensures Clamp(t, v) == v
  {
  }

  lemma NothingAround(sign: string, digits: string)
    ensures "" + sign + digits + "" == sign + digits && "" + digits == digits
  {
  }

  lemma PrintedInParts(v: int)
    ensures Printed(v) == SignOf(v, false) + Digits(if v < 0 then -v else v)
  {
    hide Digits;
    NothingAround("", Digits(if v < 0 then -v else v));
  }

  /** Printing a value of the type in decimal and parsing it gives it back. */
  lemma PrintThenParse(t: IntType, v: int)
    requires In(t, v)
    ensures Number(DecimalTraits(t), Printed(v)) == Parse(true, v)
  {
    hide Number, Digits, Printed, SignOf, In;
    PrintedInParts(v);
    NothingAround(SignOf(v, false), Digits(if v < 0 then -v else v));
    NumberAmongText(t, v, false, "", "");
  }

  // ----- hexadecimal -----

  /** The digits before the one at `k` have made the signed accumulator larger than
      0x0FFFFFFF: only there does the check stop. */
  predicate HexStopsAt(s: string, b: nat, k: nat)
    requires b <= |s|
  {
    b < k < RunEnd(16, s, b) && 0x1000_0000 <= Value(16, s, b, k) % 0x1_0000_0000 < 0x8000_0000
  }

  predicate SomeHexStop(s: string, b: nat)
    requires b <= |s|
  {
    exists k :: b <= k < |s| && HexStopsAt(s, b, k)
  }

  lemma HexCheck(v: nat, d: nat)
    requires d < 16
    ensures Passes(HexTraits(), false, Cast(HexTraits().value, v), d) <==>
            0x1000_0000 <= v % 0x1_0000_0000 < 0x8000_0000
  {
    Pow2Values();
    CastFacts(HexTraits().value, HexTraits().max / 16);
  }

  lemma HexStops(s: string, b: nat)
    requires b <= |s|
    ensures Stops(HexTraits(), false, s, b, b) <==> SomeHexStop(s, b)
  {
    hide Cast, Passes;
    forall k | b <= k < |s|
      ensures StopsAt(HexTraits(), false, s, b, k) <==> HexStopsAt(s, b, k)
    {
      if b < k < RunEnd(16, s, b) {
        HexCheck(Value(16, s, b, k), DigitOf(16, s[k]));
      }
    }
  }

  /** Below 2^32 nothing stops: a prefix with a digit behind it is below 2^28. */
  lemma HexBelowNeverStops(s: string, b: nat)
    requires b <= |s| && Value(16, s, b, RunEnd(16, s, b)) < 0x1_0000_0000
    ensures !SomeHexStop(s, b)
  {
    var e := RunEnd(16, s, b);
    forall k | b < k < e
      ensures Value(16, s, b, k) < 0x1000_0000
    {
      assert Value(16, s, b, k + 1) == Then(16, Value(16, s, b, k), DigitOf(16, s[k]));
      ValueGrows(16, s, b, k + 1, e);
    }
  }

  /** HexStringToInt on any input.  With a minus sign the output is clamped to the range
      of int.  Without one it is the bit pattern of the value modulo 2^32, unless a check
      stops it with -1, and below 2^32 none does.  Behind an optional 0x there may even be
      no digits at all. */
  lemma HexParsing(s: string)
    ensures var t, b := HexTraits().value, DigitsBegin(HexTraits(), s, NumeralStart(s));
            var e := RunEnd(16, s, b);
            var v, p := Value(16, s, b, e), Number(HexTraits(), s);
            var whole := AfterBlanks(s, 0) == 0 && NumeralStart(s) < |s| && e == |s|;
            if IsMinus(s) then p.output == Clamp(t, WithSign(true, v)) && (p.ok <==> whole && In(t, WithSign(true, v)))
            else if SomeHexStop(s, b) then p == Parse(false, -1) && v >= 0x1_0000_0000
            else p == Parse(whole, Cast(t, v))
  {
    hide Cast, Fold, Stops, SomeHexStop, Pow2;
    var t, b := HexTraits().value, DigitsBegin(HexTraits(), s, NumeralStart(s));
    var v := Value(16, s, b, RunEnd(16, s, b));
    ZeroIn(t);
    CastFacts(t, 0);
    if NumeralStart(s) == |s| {
      NoDigitsNoStop(s, b);
    } else if IsMinus(s) {
      FoldIsClamped(HexTraits(), true, s, b, b);
    } else {
      FoldWraps(HexTraits(), false, s, b, b);
      HexStops(s, b);
      HexLimit();
      if v < 0x1_0000_0000 {
        HexBelowNeverStops(s, b);
      }
    }
  }

  lemma NoDigitsNoStop(s: string, b: nat)
    requires b == |s|
    ensures !SomeHexStop(s, b) && RunEnd(16, s, b) == b
  {
  }

  lemma HexLimit()
    ensures Limit(HexTraits(), false) == -1
  {
    Pow2Values();
    CastIs(HexTraits().value, HexTraits().max, -1, 1);
  }

  /** "0x" with nothing behind it is read as 0, successfully. */
  lemma HexPrefixAlone()
    ensures Number(HexTraits(), "0x") == Parse(true, 0)
  {
    var s := "0x";
    HexParsing(s);
    assert s[0] == '0' && s[1] == 'x';
    assert NumeralStart(s) == 0 && DigitsBegin(HexTraits(), s, 0) == 2;
    NoDigitsNoStop(s, 2);
    ZeroIn(HexTraits().value);
    CastFacts(HexTraits().value, 0);
  }

  // ----- HexStringToBytes -----

  predicate AllHex(s: string) {
    forall k :: 0 <= k < |s| ==> IsDigit(16, s[k])
  }

  type Octet = n: int | 0 <= n < 256

  /** (msb << 4) | lsb: the low digit goes where the shift left zeros. */
  function ByteOf(hi: nat, lo: nat): Octet
    requires hi < 16 && lo < 16
  {
    hi * 16 + lo
  }

  function Bytes(s: string): seq<Octet>
    requires AllHex(s) && |s| % 2 == 0
  {
    if s == "" then [] else
      [ByteOf(DigitOf(16, s[0]), DigitOf(16, s[1]))] + Bytes(s[2..])
  }

  /** Success exactly on nonempty even-length hexadecimal text.  On text of even length the
      bytes of the first `read` digits are appended, up to the first pair that is not
      hexadecimal. */
  method HexStringToBytes(input: string, output: seq<Octet>) returns (ok: bool, result: seq<Octet>, ghost read: nat)
    ensures ok <==> input != "" && |input| % 2 == 0 && AllHex(input)
    ensures ok ==> result == output + Bytes(input)
    ensures input == "" || |input| % 2 != 0 ==> result == output
    ensures read <= |input| && read % 2 == 0 && AllHex(input[..read]) && result == output + Bytes(input[..read])
    ensures !ok && |input| % 2 == 0 && input != "" ==> read < |input| && !AllHex(input[read..read + 2])
  {
    var count := |input|;
    result, read := output, 0;
    if count == 0 || count % 2 != 0 {
      return false, result, 0;
    }
    var i := 0;
    while i < count
      invariant 0 <= i <= count && i % 2 == 0
      invariant AllHex(input[..i]) && result == output + Bytes(input[..i])
    {
      var okMsb, msb := CharToDigit(16, input[i]);
      if !okMsb {
        assert !IsDigit(16, input[i..i + 2][0]);
        return false, result, i;
      }
      var okLsb, lsb := CharToDigit(16, input[i + 1]);
      if !okLsb {
        assert !IsDigit(16, input[i..i + 2][1]);
        return false, result, i;
      }
      OneMorePair(input, i);
      result := result + [ByteOf(msb, lsb)];
      i := i + 2;
    }
    assert input[..count] == input;
    ok, read := true, count;
  }

  lemma {:induction false} BytesGlued(a: string, b: string)
    requires AllHex(a) && |a| % 2 == 0 && AllHex(b) && |b| % 2 == 0
    ensures AllHex(a + b) && |a + b| % 2 == 0 && Bytes(a + b) == Bytes(a) + Bytes(b)
  {
    hide IsDigit, DigitOf, ByteOf;
    AllHexJoins(a, b);
    if a == "" {
      assert a + b == b;
    } else {
      assert (a + b)[2..] == a[2..] + b && (a + b)[0] == a[0] && (a + b)[1] == a[1];
      BytesGlued(a[2..], b);
    }
  }

  lemma OneMorePair(input: string, i: nat)
    requires i + 2 <= |input| && i % 2 == 0 && AllHex(input[..i])
    requires IsDigit(16, input[i]) && IsDigit(16, input[i + 1])
    ensures AllHex(input[..i + 2])
    ensures Bytes(input[..i + 2]) == Bytes(input[..i]) + [ByteOf(DigitOf(16, input[i]), DigitOf(16, input[i + 1]))]
  {
    hide IsDigit, DigitOf, ByteOf;
    var pair := [input[i], input[i + 1]];
    assert input[..i + 2] == input[..i] + pair;
    assert pair[2..] == "" && Bytes("") == [];
    BytesGlued(input[..i], pair);
  }

  function HexChar(d: nat): char
    requires d < 16
  {
    if d < 10 then '0' + d as char else 'A' + (d - 10) as char
  }

  function HexOf(bytes: seq<Octet>): string {
    if bytes == [] then ""
    else [HexChar(bytes[0] / 16), HexChar(bytes[0] % 16)] + HexOf(bytes[1..])
  }

  /** Any bytes survive being written in hexadecimal and read back. */
  lemma {:induction false} BytesOfHex(bytes: seq<Octet>)
    ensures |HexOf(bytes)| % 2 == 0 && AllHex(HexOf(bytes)) && Bytes(HexOf(bytes)) == bytes
  {
    hide HexChar, DigitOf, IsDigit, ByteOf;
    if bytes != [] {
      BytesOfHex(bytes[1..]);
      ByteOfHex(bytes[0]);
      TwoMoreDigits(HexChar(bytes[0] / 16), HexChar(bytes[0] % 16), HexOf(bytes[1..]));
    }
  }

  lemma AllHexJoins(a: string, b: string)
    requires AllHex(a) && AllHex(b)
    ensures AllHex(a + b)
  {
    hide IsDigit;
  }

  lemma TwoMoreDigits(hi: char, lo: char, rest: string)
    requires IsDigit(16, hi) && IsDigit(16, lo) && AllHex(rest) && |rest| % 2 == 0
    ensures |[hi, lo] + rest| % 2 == 0 && AllHex([hi, lo] + rest)
    ensures Bytes([hi, lo] + rest) == [ByteOf(DigitOf(16, hi), DigitOf(16, lo))] + Bytes(rest)
  {
    hide DigitOf, IsDigit, ByteOf;
    var s := [hi, lo] + rest;
    AllHexJoins([hi, lo], rest);
    assert |s| == |rest| + 2;
    assert s[0] == hi && s[1] == lo && s[2..] == rest;
  }

  lemma ByteOfHex(b: Octet)
    ensures var hi, lo := HexChar(b / 16), HexChar(b % 16);
            IsDigit(16, hi) && IsDigit(16, lo) && ByteOf(DigitOf(16, hi), DigitOf(16, lo)) == b
  {
  }

  // ----- letters of either case -----

  function ToLower(c: char): char {
    if 'A' <= c <= 'Z' then (c as int + 32) as char else c
  }

  predicate SameButCase(a: string, b: string) {
    |a| == |b| && forall k :: 0 <= k < |a| ==> ToLower(a[k]) == ToLower(b[k])
  }

  /** Nothing that parsing in base 16 asks about a letter depends on its case. */
  lemma LettersIgnoreCase(c: char, d: char)
    requires ToLower(c) == ToLower(d)
    ensures IsDigit(16, c) <==> IsDigit(16, d)
    ensures IsDigit(16, c) ==> DigitOf(16, c) == DigitOf(16, d)
    ensures IsWhitespace(c) <==> IsWhitespace(d)
    ensures (c == '-' <==> d == '-') && (c == '+' <==> d == '+') && (c == '0' <==> d == '0')
    ensures c == 'x' || c == 'X' <==> d == 'x' || d == 'X'
  {
  }

  lemma {:induction false} BytesIgnoreCase(a: string, b: string)
    requires SameButCase(a, b)
    ensures AllHex(a) <==> AllHex(b)
    ensures AllHex(a) && |a| % 2 == 0 ==> Bytes(a) == Bytes(b)
  {
    hide IsDigit, DigitOf, ToLower, ByteOf;
    forall k | 0 <= k < |a|
      ensures IsDigit(16, a[k]) <==> IsDigit(16, b[k])
    {
      LettersIgnoreCase(a[k], b[k]);
    }
    if AllHex(a) && |a| % 2 == 0 && a != "" {
      LettersIgnoreCase(a[0], b[0]);
      LettersIgnoreCase(a[1], b[1]);
      BytesIgnoreCase(a[2..], b[2..]);
    }
  }

  /** Bytes written in hexadecimal, with either case at every digit, are read back. */
  lemma BytesOfAnyHex(bytes: seq<Octet>, s: string)
    requires SameButCase(s, HexOf(bytes))
    ensures |s| % 2 == 0 && AllHex(s) && Bytes(s) == bytes
  {
    hide AllHex, SameButCase;
    SameLength(s, HexOf(bytes));
    BytesOfHex(bytes);
    BytesIgnoreCase(s, HexOf(bytes));
  }

  lemma SameLength(a: string, b: string)
    requires SameButCase(a, b)
    ensures |a| == |b|
  {
  }

  lemma {:induction false} FoldIgnoresCase(tr: Traits, negative: bool, a: string, b: string, begin: nat, current: nat,
        output: int)
    requires tr.base == 16 && SameButCase(a, b) && begin <= current <= |a|
    ensures Fold(tr, negative, a, begin, current, output) == Fold(tr, negative, b, begin, current, output)
    decreases |a| - current
  {
    hide IsDigit, DigitOf, ToLower, Passes, Extended, Limit;
    if current < |a| {
      LettersIgnoreCase(a[current], b[current]);
      if IsDigit(16, a[current]) {
        FoldIgnoresCase(tr, negative, a, b, begin, current + 1,
                        Extended(tr, negative, output, current == begin, DigitOf(16, a[current])));
      }
    }
  }

  lemma {:induction false} BlanksIgnoreCase(a: string, b: string, i: nat)
    requires SameButCase(a, b) && i <= |a|
    ensures AfterBlanks(a, i) == AfterBlanks(b, i)
    decreases |a| - i
  {
    hide ToLower, IsWhitespace;
    if i < |a| {
      LettersIgnoreCase(a[i], b[i]);
      BlanksIgnoreCase(a, b, i + 1);
    }
  }

  lemma PrefixIgnoresCase(a: string, b: string, i: nat)
    requires SameButCase(a, b) && i <= |a|
    ensures MinusAt(a, i) <==> MinusAt(b, i)
    ensures AfterSign(a, i) == AfterSign(b, i)
    ensures DigitsBegin(HexTraits(), a, i) == DigitsBegin(HexTraits(), b, i)
  {
    hide ToLower;
    if i < |a| {
      LettersIgnoreCase(a[i], b[i]);
    }
    if i + 1 < |a| {
      LettersIgnoreCase(a[i + 1], b[i + 1]);
    }
  }

  /** HexStringToInt does not depend on the case of its input. */
  lemma HexIgnoresCase(a: string, b: string)
    requires SameButCase(a, b)
    ensures Number(HexTraits(), a) == Number(HexTraits(), b)
  {
    hide SameButCase, Fold, AfterBlanks, AfterSign, DigitsBegin;
    SameLength(a, b);
    BlanksIgnoreCase(a, b, 0);
    var w := AfterBlanks(a, 0);
    PrefixIgnoresCase(a, b, w);
    var start := AfterSign(a, w);
    PrefixIgnoresCase(a, b, start);
    var begin := DigitsBegin(HexTraits(), a, start);
    FoldIgnoresCase(HexTraits(), MinusAt(a, w), a, b, begin, begin, 0);
  }

  // ----- hexadecimal numbers, printed and read back -----

  function HexDigits(n: nat): string {
    if n < 16 then [HexChar(n)] else HexDigits(n / 16) + [HexChar(n % 16)]
  }

  lemma HexCharIsDigit(d: nat)
    requires d < 16
    ensures IsDigit(16, HexChar(d)) && DigitOf(16, HexChar(d)) == d
    ensures HexChar(d) != '-' && HexChar(d) != '+' && !IsWhitespace(HexChar(d))
  {
  }

  lemma {:induction false} HexDigitsDenote(pre: string, n: nat)
    ensures var s := pre + HexDigits(n);
            |HexDigits(n)| >= 1 && AllDigits(16, s, |pre|, |s|) && Value(16, s, |pre|, |s|) == n
    decreases n
  {
    hide IsDigit, DigitOf, HexChar;
    var s := pre + HexDigits(n);
    if n >= 16 {
      HexDigitsDenote(pre, n / 16);
      HexCharIsDigit(n % 16);
      var front := pre + HexDigits(n / 16);
      assert s == front + [HexChar(n % 16)];
      ValueOfPrefix(16, front, s, |pre|, |front|);
    } else {
      HexCharIsDigit(n);
      assert s[|pre|] == HexChar(n);
      assert Value(16, s, |pre|, |pre|) == 0;
    }
  }

  /** A number below 2^32 printed in hexadecimal, with or without 0x and with either case
      at every letter, is read as its bit pattern. */
  lemma PrintHexThenParse(n: nat, prefixed: bool, s: string)
    requires n < 0x1_0000_0000 && SameButCase(s, (if prefixed then "0x" else "") + HexDigits(n))
    ensures Number(HexTraits(), s) == Parse(true, Cast(HexTraits().value, n))
  {
    hide Fold, IsDigit, DigitOf, Cast, HexDigits, SomeHexStop, SameButCase, Number;
    var pre := if prefixed then "0x" else "";
    var p := pre + HexDigits(n);
    HexIgnoresCase(s, p);
    HexDigitsDenote(pre, n);
    StartOfHex(pre, p);
    RunOfDigits(16, p, |pre|);
    HexBelowNeverStops(p, |pre|);
    HexParsing(p);
  }

  lemma StartOfHex(pre: string, p: string)
    requires (pre == "" || pre == "0x") && pre <= p && |pre| < |p| && AllDigits(16, p, |pre|, |p|)
    ensures AfterBlanks(p, 0) == 0 && !IsMinus(p) && NumeralStart(p) == 0 && DigitsBegin(HexTraits(), p, 0) == |pre|
  {
    assert IsDigit(16, p[|pre|]);
    if pre == "" {
      assert IsDigit(16, p[0]);
      assert |p| > 1 ==> IsDigit(16, p[1]);
    } else {
      assert p[0] == pre[0] && p[1] == pre[1];
    }
  }
}
