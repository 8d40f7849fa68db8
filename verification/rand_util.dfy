/** base/rand_util.cc, RandGenerator: a uniform number below `range` by rejecting draws. */
module RandUtil {

  const UINT64_MAX := 0xFFFF_FFFF_FFFF_FFFF

  type Draw = n: int | 0 <= n <= UINT64_MAX

  /** How many draws stand for each result. */
  function Share(range: int): nat
    requires 0 < range <= UINT64_MAX
  {
    UINT64_MAX / range
  }

  function MaxAcceptable(range: int): int
    requires 0 < range <= UINT64_MAX
  {
    Share(range) * range - 1
  }

  /** The first draw that is not rejected, if there is one. */
  function FirstAccepted(range: int, draws: seq<Draw>): (i: nat)
    requires 0 < range <= UINT64_MAX
    ensures i <= |draws|
    ensures i < |draws| ==> draws[i] <= MaxAcceptable(range)
    ensures forall k :: 0 <= k < i ==> draws[k] > MaxAcceptable(range)
  {
    if draws == [] || draws[0] <= MaxAcceptable(range) then 0
    else 1 + FirstAccepted(range, draws[1..])
  }

  /** RandGenerator over a stream of draws; `done` is false if all of them are rejected
      and the loop would ask for more. */
  method RandGenerator(range: int, draws: seq<Draw>) returns (done: bool, result: int, used: nat)
    requires 0 < range <= UINT64_MAX
    ensures done <==> FirstAccepted(range, draws) < |draws|
    ensures done ==> 0 <= result < range && used == FirstAccepted(range, draws) + 1 &&
                     result == draws[FirstAccepted(range, draws)] % range
  {
    var maxAcceptableValue := UINT64_MAX / range * range - 1;
    used := 0;
    while used < |draws|
      invariant 0 <= used <= |draws|
      invariant forall k :: 0 <= k < used ==> draws[k] > maxAcceptableValue
    {
      var value := draws[used];
      used := used + 1;
      if !(value > maxAcceptableValue) {
        return true, value % range, used;
      }
    }
    return false, 0, used;
  }

  /** The draws below `bound` that give `result`. */
  function Preimages(range: int, bound: int, result: int): set<int>
    requires 0 < range
  {
    set v | 0 <= v < bound && v % range == result
  }

  /** In a block of `range` draws from a multiple of `range` on, one draw gives `result`. */
  lemma OneInBlock(range: int, n: nat, lo: int, result: int, v: int)
    requires 0 <= result < range && lo == n * range && lo <= v < lo + range
    ensures v % range == result <==> v == lo + result
  {
    assert v == v / range * range + v % range;
    var d := v / range - n;
    assert d * range == v - lo - v % range;
    assert d >= 1 ==> d * range >= range;
    assert d <= -1 ==> d * range <= -range;
  }

  lemma OneMoreBlock(range: int, n: nat, lo: int, result: int)
    requires 0 <= result < range && lo == n * range && lo >= 0
    ensures Preimages(range, lo + range, result) == Preimages(range, lo, result) + {lo + result}
    ensures lo + result !in Preimages(range, lo, result)
  {
    var more := Preimages(range, lo + range, result);
    OneInBlock(range, n, lo, result, lo + result);
    forall v
      ensures v in more <==> v in Preimages(range, lo, result) || v == lo + result
    {
      if lo <= v < lo + range {
        OneInBlock(range, n, lo, result, v);
      }
    }
  }

  /** Each block gives each result once. */
  lemma {:induction false} PreimagesCount(range: int, n: nat, result: int)
    requires 0 <= result < range
    ensures n * range >= 0 && |Preimages(range, n * range, result)| == n
    decreases n
  {
    if n == 0 {
      assert Preimages(range, 0, result) == {};
    } else {
      var lo := (n - 1) * range;
      assert n * range == lo + range;
      PreimagesCount(range, n - 1, result);
      OneMoreBlock(range, n - 1, lo, result);
    }
  }

  /** Every result is as likely as any other: the draws that are accepted and give it
      number floor((2^64 - 1) / range), whatever the result. */
  lemma EveryResidueIsEquallyLikely(range: int, result: int)
    requires 0 <= result < range <= UINT64_MAX
    ensures MaxAcceptable(range) < UINT64_MAX
    ensures |Preimages(range, MaxAcceptable(range) + 1, result)| == Share(range)
  {
    PreimagesCount(range, Share(range), result);
    FewDrawsAreRejected(range);
  }

  /** At least one draw is always rejected, and never more than `range` of them. */
  lemma FewDrawsAreRejected(range: int)
    requires 0 < range <= UINT64_MAX
    ensures 1 <= UINT64_MAX - MaxAcceptable(range) <= range
    ensures MaxAcceptable(range) >= range - 1
  {
    assert UINT64_MAX == Share(range) * range + UINT64_MAX % range;
    assert Share(range) >= 1;
  }
}
