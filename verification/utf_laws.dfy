/** What the two conversions promise: success exactly on well-formed input, round
    trips, and replacement of exactly the ill-formed units. */
module UtfLaws {
  import opened IcuUtf
  import opened UtfConversions

  lemma SplitAt<T>(s: seq<T>, i: nat, a: seq<T>, b: seq<T>)
    requires i <= |s| && s[i..] == a + b
    ensures HasAt(s, i, a) && s[i + |a|..] == b
  {
    assert forall k :: 0 <= k < |a| ==> s[i + k] == s[i..][k];
    assert s[i + |a|..] == s[i..][|a|..];
  }

  lemma JoinAt<T>(s: seq<T>, i: nat, j: nat, a: seq<T>, b: seq<T>)
    requires i <= j <= |s| && s[i..j] == a && s[j..] == b
    ensures s[i..] == a + b
  {
  }

  // ----- UTF-8: scanning and encoding are inverse -----

  /** One unfolding of the scan and of what is written for it. */
  lemma Unfold8(s: seq<Byte>, i: nat, c: CodePoint, next: nat)
    requires i < |s| && Next8(s, i) == Read(c, next)
    ensures i < next <= |s|
    ensures Scan8(s, i) == [Kept(c)] + Scan8(s, next)
    ensures Encode8All(Scan8(s, i)) == Encode8(Kept(c)) + Encode8All(Scan8(s, next))
    ensures Clean8(s, i) <==> IsValidCodepoint(c) && Clean8(s, next)
  {
    Next8AcceptsOnlyEncoded(s, i);
    assert Scan8(s, i)[1..] == Scan8(s, next);
  }

  lemma StepOverEncoded8(s: seq<Byte>, i: nat, c: CodePoint, rest: seq<Byte>)
    requires IsValidCodepoint(c) && i <= |s| && s[i..] == Encode8(c) + rest
    ensures var next := i + |Encode8(c)|;
            i < next <= |s| && s[next..] == rest && Scan8(s, i) == [c] + Scan8(s, next) &&
            (Clean8(s, i) <==> Clean8(s, next))
  {
    hide Encode8, Next8, IsValidCodepoint;
    SplitAt(s, i, Encode8(c), rest);
    Next8ReadsEncoded(s, i, c);
    Unfold8(s, i, c, i + |Encode8(c)|);
  }

  lemma {:induction false} EncodedScans8(s: seq<Byte>, i: nat, cs: seq<CodePoint>)
    requires Scalars(cs) && i <= |s| && s[i..] == Encode8All(cs)
    ensures Clean8(s, i) && Scan8(s, i) == cs
    decreases |cs|
  {
    hide Encode8, Next8, IsValidCodepoint;
    if cs != [] {
      StepOverEncoded8(s, i, cs[0], Encode8All(cs[1..]));
      EncodedScans8(s, i + |Encode8(cs[0])|, cs[1..]);
    }
  }

  lemma {:induction false} CleanScanEncodes8(s: seq<Byte>, i: nat)
    requires i <= |s| && Clean8(s, i)
    ensures Encode8All(Scan8(s, i)) == s[i..]
    decreases |s| - i
  {
    if i < |s| {
      Next8AcceptsOnlyEncoded(s, i);
      var r := Next8(s, i);
      Unfold8(s, i, r.c, r.next);
      CleanScanEncodes8(s, r.next);
      JoinAt(s, i, r.next, Encode8(r.c), s[r.next..]);
    }
  }

  lemma {:induction false} ScanIsScalars8(s: seq<Byte>, i: nat)
    requires i <= |s|
    ensures Scalars(Scan8(s, i))
    decreases |s| - i
  {
    if i < |s| {
      Next8AcceptsOnlyEncoded(s, i);
      ScanIsScalars8(s, Next8(s, i).next);
    }
  }

  lemma CleanExactlyWhenWellFormed8(s: seq<Byte>)
    ensures Clean8(s, 0) <==> WellFormed8(s)
  {
    assert s[0..] == s;
    if Clean8(s, 0) {
      CleanScanEncodes8(s, 0);
      ScanIsScalars8(s, 0);
      assert Scalars(Scan8(s, 0)) && Encode8All(Scan8(s, 0)) == s;
    }
    if cs :| Scalars(cs) && Encode8All(cs) == s {
      EncodedScans8(s, 0, cs);
    }
  }

  // ----- the same for UTF-16 -----

  lemma Next16ReadsEncoded(s: seq<Unit>, i: nat, c: CodePoint)
    requires IsValidCodepoint(c) && HasAt(s, i, Encode16(c))
    ensures i < |s| && Next16(s, i) == Read(c, i + |Encode16(c)|)
  {
    var e := Encode16(c);
    assert s[i + 0] == e[0];
    Next16Cases(s, i);
    if c < 0x1_0000 {
      Single16(c);
    } else {
      assert s[i + 1] == e[1];
      Encoded16(c);
    }
  }

  lemma Next16AcceptsOnlyEncoded(s: seq<Unit>, i: nat)
    requires i < |s|
    ensures i < Next16(s, i).next <= |s|
    ensures var r := Next16(s, i);
            if IsValidCodepoint(r.c) then r.next == i + |Encode16(r.c)| && s[i..r.next] == Encode16(r.c)
            else r.c == SENTINEL
  {
    Next16Cases(s, i);
    Unit16(s[i]);
    if PairAt(s, i) {
      PairIsEncoded(s[i], s[i + 1]);
      assert s[i..i + 2] == [s[i], s[i + 1]];
    } else {
      assert s[i..i + 1] == [s[i]];
    }
  }

  lemma Encode16OfPair(c: CodePoint, lead: Unit, trail: Unit)
    requires 0x1_0000 <= c <= 0x10_FFFF
    requires ToUnit(0xD800 + ((c - 0x1_0000) >> 10)) == lead && ToUnit(0xDC00 + ((c - 0x1_0000) & 0x3FF)) == trail
    ensures IsValidCodepoint(c) && Encode16(c) == [lead, trail]
  {
  }

  lemma PairIsEncoded(lead: Unit, trail: Unit)
    requires IsLead(lead) && IsTrail(trail)
    ensures var c := GetSupplementary(lead, trail); IsValidCodepoint(c) && Encode16(c) == [lead, trail]
  {
    Accepted16(lead, trail);
    Accepted16Range(lead, trail);
    Encode16OfPair(GetSupplementary(lead, trail), lead, trail);
  }

  lemma Unfold16(s: seq<Unit>, i: nat, c: CodePoint, next: nat)
    requires i < |s| && Next16(s, i) == Read(c, next)
    ensures i < next <= |s|
    ensures Scan16(s, i) == [Kept(c)] + Scan16(s, next)
    ensures Encode16All(Scan16(s, i)) == Encode16(Kept(c)) + Encode16All(Scan16(s, next))
    ensures Clean16(s, i) <==> IsValidCodepoint(c) && Clean16(s, next)
  {
    Next16AcceptsOnlyEncoded(s, i);
    assert Scan16(s, i)[1..] == Scan16(s, next);
  }

  lemma StepOverEncoded16(s: seq<Unit>, i: nat, c: CodePoint, rest: seq<Unit>)
    requires IsValidCodepoint(c) && i <= |s| && s[i..] == Encode16(c) + rest
    ensures var next := i + |Encode16(c)|;
            i < next <= |s| && s[next..] == rest && Scan16(s, i) == [c] + Scan16(s, next) &&
            (Clean16(s, i) <==> Clean16(s, next))
  {
    hide Encode16, Next16, IsValidCodepoint;
    SplitAt(s, i, Encode16(c), rest);
    Next16ReadsEncoded(s, i, c);
    Unfold16(s, i, c, i + |Encode16(c)|);
  }

  lemma {:induction false} EncodedScans16(s: seq<Unit>, i: nat, cs: seq<CodePoint>)
    requires Scalars(cs) && i <= |s| && s[i..] == Encode16All(cs)
    ensures Clean16(s, i) && Scan16(s, i) == cs
    decreases |cs|
  {
    hide Encode16, Next16, IsValidCodepoint;
    if cs != [] {
      StepOverEncoded16(s, i, cs[0], Encode16All(cs[1..]));
      EncodedScans16(s, i + |Encode16(cs[0])|, cs[1..]);
    }
  }

  lemma {:induction false} ScanIsScalars16(s: seq<Unit>, i: nat)
    requires i <= |s|
    ensures Scalars(Scan16(s, i))
    decreases |s| - i
  {
    if i < |s| {
      ScanIsScalars16(s, Next16(s, i).next);
    }
  }

  // ----- ill-formed UTF-16: exactly the unpaired surrogates are replaced -----

  predicate Unpaired(s: seq<Unit>, k: nat)
    requires k < |s|
  {
    IsSurrogate(s[k]) && !PairAt(s, k) && !(k > 0 && PairAt(s, k - 1))
  }

  /** `s` with each unpaired surrogate replaced by one U+FFFD. */
  function Repaired(s: seq<Unit>): seq<Unit> {
    seq(|s|, k requires 0 <= k < |s| => if Unpaired(s, k) then ToUnit(REPLACEMENT) else s[k])
  }

  predicate Paired(s: seq<Unit>, i: nat) {
    forall k :: i <= k < |s| ==> !Unpaired(s, k)
  }

  /** `i` does not split a surrogate pair. */
  predicate Between(s: seq<Unit>, i: nat) {
    i <= |s| && !(i > 0 && PairAt(s, i - 1))
  }

  lemma PairsDoNotOverlap(s: seq<Unit>, i: nat)
    requires PairAt(s, i)
    ensures !PairAt(s, i + 1)
  {
    Unit16(s[i + 1]);
  }

  lemma StaysBetween(s: seq<Unit>, i: nat)
    requires Between(s, i) && i < |s|
    ensures Between(s, Next16(s, i).next)
  {
    Next16Cases(s, i);
    if PairAt(s, i) {
      PairsDoNotOverlap(s, i);
    }
  }

  lemma SingleFacts(c: CodePoint)
    ensures c < 0x1_0000 ==> Encode16(c) == [ToUnit(c)]
    ensures !IsValidCodepoint(SENTINEL) && Kept(SENTINEL) == REPLACEMENT && REPLACEMENT < 0x1_0000
  {
  }

  /** One step: what the scan writes, in UTF-16, is what Repaired has there. */
  lemma StepRepairs(s: seq<Unit>, i: nat)
    requires Between(s, i) && i < |s|
    ensures var r := Next16(s, i);
            i < r.next <= |s| && Encode16(Kept(r.c)) == Repaired(s)[i..r.next] &&
            (IsValidCodepoint(r.c) <==> forall k :: i <= k < r.next ==> !Unpaired(s, k))
  {
    hide Encode16, Next16, ToUnit, GetSupplementary, IsLead, IsTrail, IsSurrogate, IsValidCodepoint;
    Next16Cases(s, i);
    Unit16(s[i]);
    SingleFacts(s[i] as bv32);
    SingleFacts(REPLACEMENT);
    if PairAt(s, i) {
      PairIsEncoded(s[i], s[i + 1]);
      assert !Unpaired(s, i) && !Unpaired(s, i + 1);
      assert Repaired(s)[i..i + 2] == [s[i], s[i + 1]];
    } else if IsSurrogate(s[i]) {
      assert Unpaired(s, i);
      assert Repaired(s)[i..i + 1] == [ToUnit(REPLACEMENT)];
    } else {
      assert !Unpaired(s, i);
      assert Repaired(s)[i..i + 1] == [s[i]];
    }
  }

  lemma {:induction false} ScanRepairs(s: seq<Unit>, i: nat)
    requires Between(s, i)
    ensures Encode16All(Scan16(s, i)) == Repaired(s)[i..]
    ensures Clean16(s, i) <==> Paired(s, i)
    decreases |s| - i
  {
    if i < |s| {
      var r := Next16(s, i);
      StepRepairs(s, i);
      StaysBetween(s, i);
      Unfold16(s, i, r.c, r.next);
      ScanRepairs(s, r.next);
      JoinAt(Repaired(s), i, r.next, Encode16(Kept(r.c)), Repaired(s)[r.next..]);
    }
  }

  lemma ScanEncodesWhenClean16(s: seq<Unit>)
    requires Clean16(s, 0)
    ensures Encode16All(Scan16(s, 0)) == s
  {
    ScanRepairs(s, 0);
    assert Repaired(s) == s;
  }

  lemma CleanExactlyWhenWellFormed16(s: seq<Unit>)
    ensures Clean16(s, 0) <==> WellFormed16(s)
  {
    assert s[0..] == s;
    if Clean16(s, 0) {
      ScanEncodesWhenClean16(s);
      ScanIsScalars16(s, 0);
      assert Scalars(Scan16(s, 0)) && Encode16All(Scan16(s, 0)) == s;
    }
    if cs :| Scalars(cs) && Encode16All(cs) == s {
      EncodedScans16(s, 0, cs);
    }
  }

  // ----- the conversions, on every input -----

  /** UTF16ToUTF8 succeeds exactly on well-formed input, that is, exactly when no
      surrogate is unpaired; and it always writes the UTF-8 form of the input with
      each unpaired surrogate replaced by one U+FFFD. */
  lemma Utf16ToUtf8Meaning(s: seq<Unit>)
    ensures From16(s).success <==> WellFormed16(Considered(s))
    ensures From16(s).success <==> forall k :: 0 <= k < |Considered(s)| ==> !Unpaired(Considered(s), k)
    ensures exists cs :: Scalars(cs) && Encode16All(cs) == Repaired(Considered(s)) && From16(s).text == Encode8All(cs)
  {
    var t := Considered(s);
    CleanExactlyWhenWellFormed16(t);
    ScanRepairs(t, 0);
    ScanIsScalars16(t, 0);
    var cs := Scan16(t, 0);
    assert Scalars(cs) && Encode16All(cs) == Repaired(t) && From16(s).text == Encode8All(cs);
  }

  /** UTF8ToUTF16 succeeds exactly on well-formed input, and writes well-formed
      UTF-16 whatever it is given. */
  lemma Utf8ToUtf16Meaning(s: seq<Byte>)
    ensures From8(s).success <==> WellFormed8(Considered(s))
    ensures WellFormed16(From8(s).text)
  {
    var t := Considered(s);
    CleanExactlyWhenWellFormed8(t);
    ScanIsScalars8(t, 0);
    assert Scalars(Scan8(t, 0)) && From8(s).text == Encode16All(Scan8(t, 0));
  }

  /** UTF-16 never takes more units than UTF-8 takes bytes. */
  lemma {:induction false} Utf16IsShorter(cs: seq<CodePoint>)
    requires Scalars(cs)
    ensures |Encode16All(cs)| <= |Encode8All(cs)|
  {
    if cs != [] {
      Utf16IsShorter(cs[1..]);
    }
  }

  lemma ConsideredIsWholeExactlyWhenShort<T>(s: seq<T>)
    ensures |Considered(s)| < 0x8000_0000
    ensures |Considered(s)| == |s| <==> |s| < 0x8000_0000
    ensures |Considered(s)| == |s| ==> Considered(s) == s
  {
  }

  /** What From8 gives for the encoding of `cs`, and From16 likewise. */
  lemma From8OfEncoded(s: seq<Byte>, cs: seq<CodePoint>)
    requires Scalars(cs) && Considered(s) == Encode8All(cs)
    ensures From8(s) == Outcome(true, Encode16All(cs))
  {
    var t := Considered(s);
    assert t[0..] == t;
    EncodedScans8(t, 0, cs);
  }

  lemma From16OfEncoded(s: seq<Unit>, cs: seq<CodePoint>)
    requires Scalars(cs) && Considered(s) == Encode16All(cs)
    ensures From16(s) == Outcome(true, Encode8All(cs))
  {
    var t := Considered(s);
    assert t[0..] == t;
    EncodedScans16(t, 0, cs);
  }

  lemma Encode16IsInjective(cs: seq<CodePoint>, ds: seq<CodePoint>)
    requires Scalars(cs) && Scalars(ds) && Encode16All(cs) == Encode16All(ds)
    ensures cs == ds
  {
    var s := Encode16All(cs);
    assert s[0..] == s;
    EncodedScans16(s, 0, cs);
    EncodedScans16(s, 0, ds);
  }

  /** The scalar values behind a successful conversion. */
  lemma BehindFrom8(s: seq<Byte>) returns (cs: seq<CodePoint>)
    requires From8(s).success
    ensures Scalars(cs) && Considered(s) == Encode8All(cs) && From8(s).text == Encode16All(cs)
  {
    var t := Considered(s);
    cs := Scan8(t, 0);
    CleanScanEncodes8(t, 0);
    ScanIsScalars8(t, 0);
    assert t[0..] == t;
  }

  ghost predicate Returns16(s: seq<Unit>) {
    From16(s).success && From8(From16(s).text) == Outcome(true, s)
  }

  ghost predicate Returns8(s: seq<Byte>) {
    From8(s).success && From16(From8(s).text) == Outcome(true, s)
  }

  /** UTF-16 to UTF-8 and back is the identity, reported as such, exactly when both
      texts are shorter than the 2^31 that the 32-bit loop index can count. */
  lemma RoundTrip16(cs: seq<CodePoint>)
    requires Scalars(cs)
    ensures Returns16(Encode16All(cs)) <==> |Encode8All(cs)| < 0x8000_0000
  {
    var s, e := Encode16All(cs), Encode8All(cs);
    Utf16IsShorter(cs);
    ConsideredIsWholeExactlyWhenShort(s);
    ConsideredIsWholeExactlyWhenShort(e);
    if |e| < 0x8000_0000 {
      From16OfEncoded(s, cs);
      From8OfEncoded(e, cs);
    } else if Returns16(s) {
      var ds := BehindFrom8(From16(s).text);
      Encode16IsInjective(cs, ds);
      ConsideredIsWholeExactlyWhenShort(From16(s).text);
      assert false;
    }
  }

  /** The other way round the UTF-8 length alone decides. */
  lemma RoundTrip8(cs: seq<CodePoint>)
    requires Scalars(cs)
    ensures Returns8(Encode8All(cs)) <==> |Encode8All(cs)| < 0x8000_0000
  {
    var s, u := Encode8All(cs), Encode16All(cs);
    Utf16IsShorter(cs);
    ConsideredIsWholeExactlyWhenShort(s);
    if |s| < 0x8000_0000 {
      ConsideredIsWholeExactlyWhenShort(u);
      From8OfEncoded(s, cs);
      From16OfEncoded(u, cs);
    } else if Returns8(s) {
      var ds := BehindFrom8(s);
      Utf16IsShorter(ds);
      ConsideredIsWholeExactlyWhenShort(From8(s).text);
      From16OfEncoded(From8(s).text, ds);
      assert false;
    }
  }

  // ----- texts too long for the 32-bit length -----

  /** A text of 2^31 units or more, but fewer than 2^32, has a negative 32-bit length:
      nothing is converted and success is reported. */
  lemma LongTextIsIgnored(s: seq<Byte>, u: seq<Unit>)
    requires 0x8000_0000 <= |s| < 0x1_0000_0000 && 0x8000_0000 <= |u| < 0x1_0000_0000
    ensures From8(s) == Outcome(true, []) && From16(u) == Outcome(true, [])
  {
    assert Considered(s) == [] && Considered(u) == [];
  }

  /** A longer text is cut to its length modulo 2^32, if that is below 2^31. */
  lemma LongerTextIsCut(s: seq<Byte>, u: seq<Unit>)
    requires |s| % 0x1_0000_0000 < 0x8000_0000 && |u| % 0x1_0000_0000 < 0x8000_0000
    ensures From8(s) == From8(s[..|s| % 0x1_0000_0000]) && From16(u) == From16(u[..|u| % 0x1_0000_0000])
  {
    hide Clean8, Clean16, Scan8, Scan16;
    assert Considered(s) == Considered(s[..|s| % 0x1_0000_0000]);
    assert Considered(u) == Considered(u[..|u| % 0x1_0000_0000]);
  }

  /** So 2^31 letters "A" convert to nothing, successfully. */
  lemma TwoGigabytesAreIgnored()
    ensures From8(seq(0x8000_0000, _ => 0x41)) == Outcome(true, [])
    ensures From16(seq(0x8000_0000, _ => 0x41)) == Outcome(true, [])
  {
    LongTextIsIgnored(seq(0x8000_0000, _ => 0x41), seq(0x8000_0000, _ => 0x41));
  }

  // ----- how much of an ill-formed text one U+FFFD stands for -----

  /** `p` is the beginning, but not all, of the encoding of a scalar value. */
  ghost predicate Truncated(p: seq<Byte>) {
    exists c :: IsValidCodepoint(c) && |p| < |Encode8(c)| && p == Encode8(c)[..|p|]
  }

  /** The same in terms of the tables of the reader. */
  predicate Begins(p: seq<Byte>) {
    match |p|
    case 1 => 0xC2 <= p[0] <= 0xF4
    case 2 => (0xE0 <= p[0] < 0xF0 && ValidLead3AndT1(p[0] as bv32, p[1])) || (0xF0 <= p[0] <= 0xF4 && Lead4(p[0], p[1]))
    case 3 => 0xF0 <= p[0] <= 0xF4 && Lead4(p[0], p[1]) && IsTail(p[2])
    case _ => false
  }

  predicate Lead4(b0: Byte, b1: Byte) {
    ValidLead4AndT1((b0 as bv32) & 7, b1)
  }

  lemma AnyTail()
    ensures IsTail(0x80)
  {
  }

  /** A second byte that fits the lead. */
  function SecondByte(b0: Byte): Byte {
    if b0 == 0xE0 then 0xA0 else if b0 == 0xF0 then 0x90 else 0x80
  }

  lemma SecondByteFits(b0: Byte)
    ensures 0xC2 <= b0 < 0xE0 ==> IsTail(SecondByte(b0))
    ensures 0xE0 <= b0 < 0xF0 ==> Range3(b0, SecondByte(b0))
    ensures 0xF0 <= b0 <= 0xF4 ==> Range4(b0, SecondByte(b0))
  {
  }

  /** What is missing is added. */
  function Completion(p: seq<Byte>): seq<Byte>
    requires Begins(p)
  {
    var q := if |p| == 1 then [p[0], SecondByte(p[0])] else p;
    if p[0] < 0xE0 then q
    else if p[0] < 0xF0 then q + [0x80]
    else if |q| == 2 then q + [0x80, 0x80]
    else q + [0x80]
  }

  lemma CompletionIsAccepted(p: seq<Byte>)
    requires Begins(p)
    ensures AcceptedGroup(Completion(p)) && |p| < |Completion(p)| && p == Completion(p)[..|p|]
  {
    hide ValidLead3AndT1, ValidLead4AndT1, IsTail, Range3, Range4, SecondByte;
    AnyTail();
    SecondByteFits(p[0]);
    if 0xE0 <= p[0] < 0xF0 {
      Table3(p[0], Completion(p)[1]);
    } else if 0xF0 <= p[0] {
      Table4(p[0], Completion(p)[1]);
    }
  }

  lemma AcceptedBegins(g: seq<Byte>, n: nat)
    requires AcceptedGroup(g) && 0 < n < |g|
    ensures Begins(g[..n])
  {
    hide ValidLead3AndT1, ValidLead4AndT1, IsTail;
  }

  lemma BeginsExactlyWhenTruncated(p: seq<Byte>)
    requires p != []
    ensures Begins(p) <==> Truncated(p)
  {
    hide Encode8, AcceptedGroup, Begins, Completion, IsValidCodepoint, Joined;
    if Begins(p) {
      CompletionIsAccepted(p);
      Accepted8(Completion(p));
    }
    if c :| IsValidCodepoint(c) && |p| < |Encode8(c)| && p == Encode8(c)[..|p|] {
      Encoded8(c);
      AcceptedBegins(Encode8(c), |p|);
    }
  }

  /** The bytes that the reader passes over when it fails. */
  lemma FailedLength(s: seq<Byte>, i: nat)
    requires i < |s| && Next8(s, i).c == SENTINEL && i < Next8(s, i).next <= |s|
    requires !(i + 1 < |s| && Accepts2(s[i], s[i + 1]))
    requires !(i + 2 < |s| && Accepts3(s[i], s[i + 1], s[i + 2]))
    requires !(i + 3 < |s| && Accepts4(s[i], s[i + 1], s[i + 2], s[i + 3]))
    requires s[i] >= 0x80
    ensures var j := Next8(s, i).next;
            && (j == i + 1 || Begins(s[i..j]))
            && (j < |s| ==> !Begins(s[i..j + 1]))
  {
  }

  lemma NoGroupWhereItFails(s: seq<Byte>, i: nat, n: nat)
    requires i < |s| && !IsValidCodepoint(Next8(s, i).c)
    ensures !GroupAt(s, i, n)
  {
    hide Next8, AcceptedGroup, Joined, IsValidCodepoint;
    if GroupAt(s, i, n) {
      Next8OfGroup(s, i, n);
      Accepted8(s[i..i + n]);
    }
  }

  lemma FailureIsNoGroup(s: seq<Byte>, i: nat)
    requires i < |s| && !IsValidCodepoint(Next8(s, i).c)
    ensures s[i] >= 0x80
    ensures !(i + 1 < |s| && Accepts2(s[i], s[i + 1]))
    ensures !(i + 2 < |s| && Accepts3(s[i], s[i + 1], s[i + 2]))
    ensures !(i + 3 < |s| && Accepts4(s[i], s[i + 1], s[i + 2], s[i + 3]))
  {
    hide Next8, Accepts2, Accepts3, Accepts4, IsValidCodepoint;
    NoGroupWhereItFails(s, i, 1);
    NoGroupWhereItFails(s, i, 2);
    NoGroupWhereItFails(s, i, 3);
    NoGroupWhereItFails(s, i, 4);
    assert s[i..i + 1] == [s[i]];
    assert i + 1 < |s| ==> s[i..i + 2] == [s[i], s[i + 1]];
    assert i + 2 < |s| ==> s[i..i + 3] == [s[i], s[i + 1], s[i + 2]];
    assert i + 3 < |s| ==> s[i..i + 4] == [s[i], s[i + 1], s[i + 2], s[i + 3]];
  }

  lemma TruncationsAreNested(p: seq<Byte>, n: nat)
    requires Truncated(p) && n <= |p|
    ensures Truncated(p[..n])
  {
    hide Encode8, IsValidCodepoint;
    var c :| IsValidCodepoint(c) && |p| < |Encode8(c)| && p == Encode8(c)[..|p|];
    assert p[..n] == Encode8(c)[..n];
  }

  /** One replacement character stands for the longest truncated encoding that begins
      where the reader fails, or for one byte if none does. */
  lemma FailureTakesTheLongestTruncation(s: seq<Byte>, i: nat, n: nat)
    requires i < |s| && !IsValidCodepoint(Next8(s, i).c) && 0 < n <= |s| - i
    ensures var j := Next8(s, i).next;
            && i < j <= |s|
            && (j > i + 1 ==> Truncated(s[i..j]))
            && (Truncated(s[i..i + n]) ==> i + n <= j)
  {
    hide Next8, Begins, Truncated, Accepts2, Accepts3, Accepts4, IsValidCodepoint, Encode8;
    var j := Next8(s, i).next;
    Next8AcceptsOnlyEncoded(s, i);
    FailureIsNoGroup(s, i);
    FailedLength(s, i);
    BeginsExactlyWhenTruncated(s[i..j]);
    if i + n > j && Truncated(s[i..i + n]) {
      TruncationsAreNested(s[i..i + n], j + 1 - i);
      assert s[i..i + n][..j + 1 - i] == s[i..j + 1];
      BeginsExactlyWhenTruncated(s[i..j + 1]);
      assert false;
    }
  }

  // ----- the replacement itself -----

  /** A surrogate alone becomes the three bytes of U+FFFD, and a byte of 128 or more alone
      becomes U+FFFD; neither is reported as a success. */
  lemma LoneUnitBecomesFffd(u: Unit, b: Byte)
    ensures IsSurrogate(u) ==> From16([u]) == Outcome(false, [0xEF, 0xBF, 0xBD])
    ensures b >= 0x80 ==> From8([b]) == Outcome(false, [0xFFFD])
  {
    var s, t := [u], [b];
    assert Considered(s) == s && Considered(t) == t;
    if IsSurrogate(u) {
      assert Next16(s, 0) == Read(SENTINEL, 1);
      assert Scan16(s, 0) == [REPLACEMENT] + Scan16(s, 1) == [REPLACEMENT];
      assert Encode8All([REPLACEMENT]) == Encode8(REPLACEMENT) + Encode8All([REPLACEMENT][1..]);
    }
    if b >= 0x80 {
      Next8Fails(t, 0);
      assert Scan8(t, 0) == [REPLACEMENT] + Scan8(t, 1) == [REPLACEMENT];
      assert Encode16All([REPLACEMENT]) == Encode16(REPLACEMENT) + Encode16All([REPLACEMENT][1..]);
    }
  }
}
