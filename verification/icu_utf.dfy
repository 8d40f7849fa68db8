/** The ICU macros of base/third_party/icu, on fixed-width bit vectors: reading and
    writing one code point of UTF-8 or UTF-16, with every error path of the
    reader.  RFC 3629 (sections 3 and 4) and RFC 2781 (sections 2.1 and 2.2) give
    the encodings they are compared with. */
module IcuUtf {

  type Byte = bv8
  type Unit = bv16
  type CodePoint = bv32

  /** CBU_SENTINEL, -1, once it is stored in a uint32. */
  const SENTINEL: CodePoint := 0xFFFF_FFFF
  const REPLACEMENT: CodePoint := 0xFFFD

  /** IsValidCodepoint: a Unicode scalar value. */
  predicate IsValidCodepoint(c: CodePoint) {
    c < 0xD800 || (0xE000 <= c && c <= 0x10FFFF)
  }

  function ToByte(c: CodePoint): Byte {
    (c & 0xFF) as bv8
  }

  function ToUnit(c: CodePoint): Unit {
    (c & 0xFFFF) as bv16
  }

  // ----- the encodings, from the standards -----

  /** RFC 3629, section 3: the table of octet sequences. */
  function Encode8(c: CodePoint): (s: seq<Byte>)
    ensures 1 <= |s| <= 4
  {
    if c < 0x80 then [ToByte(c)]
    else if c < 0x800 then [ToByte(0xC0 + (c >> 6)), Tail(c)]
    else if c < 0x1_0000 then [ToByte(0xE0 + (c >> 12)), Tail(c >> 6), Tail(c)]
    else [ToByte(0xF0 + (c >> 18)), Tail(c >> 12), Tail(c >> 6), Tail(c)]
  }

  /** A continuation octet 10xxxxxx. */
  function Tail(c: CodePoint): Byte {
    ToByte(0x80 + (c & 0x3F))
  }

  /** RFC 2781, section 2.1. */
  function Encode16(c: CodePoint): (s: seq<Unit>)
    ensures 1 <= |s| <= 2
  {
    if c < 0x1_0000 then [ToUnit(c)]
    else
      var u := c - 0x1_0000;
      [ToUnit(0xD800 + (u >> 10)), ToUnit(0xDC00 + (u & 0x3FF))]
  }

  // ----- the macros: UTF-8 -----

  /** CBU8_LEAD3_T1_BITS, indexed by the low four bits of the lead byte. */
  function Lead3Bits(lead: bv32): bv32 {
    if lead & 0xF == 0 then 0x20 else if lead & 0xF == 0xD then 0x10 else 0x30
  }

  predicate ValidLead3AndT1(lead: bv32, t1: Byte) {
    Lead3Bits(lead) & ((1 as bv32) << (t1 >> 5)) != 0
  }

  /** CBU8_LEAD4_T1_BITS, indexed by the high four bits of the first trail byte. */
  function Lead4Bits(t1: Byte): bv32 {
    if t1 >> 4 == 8 then 0x1E
    else if t1 >> 4 == 9 || t1 >> 4 == 0xA || t1 >> 4 == 0xB then 0x0F
    else 0x00
  }

  predicate ValidLead4AndT1(lead: bv32, t1: Byte) {
    Lead4Bits(t1) & ((1 as bv32) << (lead & 7)) != 0
  }

  /** (uint8_t)(b - 0x80) <= 0x3f, which wraps for b < 0x80. */
  predicate IsTail(b: Byte) {
    b - 0x80 <= 0x3F
  }

  function TailBits(b: Byte): bv32 {
    (b - 0x80) as bv32
  }

  datatype Read = Read(c: CodePoint, next: nat)

  /** CBU8_NEXT: the code point at `i`, or the sentinel, and where to go on. */
  function Next8(s: seq<Byte>, i: nat): Read
    requires i < |s|
  {
    var c := s[i] as bv32;
    var j := i + 1;
    if c & 0x80 == 0 then Read(c, j)
    else if 0xE0 <= c && c < 0xF0 && j + 1 < |s| && ValidLead3AndT1(c, s[j]) && IsTail(s[j + 1]) then
      Read(((c & 0xF) << 12) | (((s[j] & 0x3F) as bv32) << 6) | TailBits(s[j + 1]), j + 2)
    else if c < 0xE0 && c >= 0xC2 && j != |s| && IsTail(s[j]) then
      Read(((c & 0x1F) << 6) | TailBits(s[j]), j + 1)
    else NextSafeBody(s, j, c)
  }

  /** utf8_nextCharSafeBody with strict == -1; `i` is one after the lead byte. */
  function NextSafeBody(s: seq<Byte>, i: nat, c: bv32): Read
    requires i <= |s|
  {
    if i == |s| || c > 0xF4 then Read(SENTINEL, i)
    else if c >= 0xF0 then
      if !ValidLead4AndT1(c & 7, s[i]) then Read(SENTINEL, i)
      else if i + 1 == |s| || !IsTail(s[i + 1]) then Read(SENTINEL, i + 1)
      else if i + 2 == |s| || !IsTail(s[i + 2]) then Read(SENTINEL, i + 2)
      else
        Read(((c & 7) << 18) | (((s[i] & 0x3F) as bv32) << 12) | (TailBits(s[i + 1]) << 6) | TailBits(s[i + 2]), i + 3)
    else if c >= 0xE0 then
      if !ValidLead3AndT1(c & 0xF, s[i]) then Read(SENTINEL, i)
      else if i + 1 == |s| || !IsTail(s[i + 1]) then Read(SENTINEL, i + 1)
      else Read(((c & 0xF) << 12) | (((s[i] & 0x3F) as bv32) << 6) | TailBits(s[i + 1]), i + 2)
    else if c >= 0xC2 && IsTail(s[i]) then Read(((c - 0xC0) << 6) | TailBits(s[i]), i + 1)
    else Read(SENTINEL, i)
  }

  lemma LeadBits(c: bv32)
    ensures 0xC2 <= c < 0xE0 ==> (c & 0x1F) << 6 == (c - 0xC0) << 6
    ensures 0xE0 <= c < 0xF0 ==> Lead3Bits(c) == Lead3Bits(c & 0xF)
  {
  }

  /** The inline forms for two and three bytes are short cuts: wherever the reader meets a
      byte of 128 or more it does what the body of its slow path does. */
  lemma ShortCutsAgree(s: seq<Byte>, i: nat)
    requires i < |s| && s[i] >= 0x80
    ensures Next8(s, i) == NextSafeBody(s, i + 1, s[i] as bv32)
  {
    hide Lead3Bits;
    LeadBits(s[i] as bv32);
  }

  /** CBU8_APPEND_UNSAFE: the bytes it writes. */
  function Append8(c: CodePoint): seq<Byte> {
    if c <= 0x7F then [ToByte(c)]
    else if c <= 0x7FF then [ToByte((c >> 6) | 0xC0), ToByte((c & 0x3F) | 0x80)]
    else if c <= 0xFFFF then
      [ToByte((c >> 12) | 0xE0), ToByte(((c >> 6) & 0x3F) | 0x80), ToByte((c & 0x3F) | 0x80)]
    else
      [ToByte((c >> 18) | 0xF0), ToByte(((c >> 12) & 0x3F) | 0x80),
       ToByte(((c >> 6) & 0x3F) | 0x80), ToByte((c & 0x3F) | 0x80)]
  }

  // ----- the macros: UTF-16 -----

  predicate IsSurrogate(u: Unit) {
    u & 0xF800 == 0xD800
  }

  predicate IsSurrogateLead(u: Unit) {
    u & 0x400 == 0
  }

  predicate IsTrail(u: Unit) {
    u & 0xFC00 == 0xDC00
  }

  function GetSupplementary(lead: Unit, trail: Unit): CodePoint {
    ((lead as bv32) << 10) + (trail as bv32) - (((0xD800 as bv32) << 10) + 0xDC00 - 0x1_0000)
  }

  /** CBU16_APPEND_UNSAFE, and CBU16_LENGTH in front of it. */
  function Append16(c: CodePoint): seq<Unit> {
    if c <= 0xFFFF then [ToUnit(c)]
    else [ToUnit((c >> 10) + 0xD7C0), ToUnit((c & 0x3FF) | 0xDC00)]
  }

  // ----- the writers write the standard encodings -----

  lemma Append8IsEncode8(c: CodePoint)
    requires IsValidCodepoint(c)
    ensures Append8(c) == Encode8(c)
  {
  }

  lemma Append16IsEncode16(c: CodePoint)
    requires IsValidCodepoint(c)
    ensures Append16(c) == Encode16(c)
  {
  }

  // ----- the UTF-8 reader inverts the encoding, and accepts nothing else -----

  /** `part` stands in `s` from index `i` on. */
  ghost predicate HasAt<T>(s: seq<T>, i: nat, part: seq<T>) {
    i + |part| <= |s| && forall k :: 0 <= k < |part| ==> s[i + k] == part[k]
  }

  function Join2(b0: Byte, b1: Byte): CodePoint {
    (((b0 as bv32) & 0x1F) << 6) | TailBits(b1)
  }

  function Join3(b0: Byte, b1: Byte, b2: Byte): CodePoint {
    (((b0 as bv32) & 0xF) << 12) | (((b1 & 0x3F) as bv32) << 6) | TailBits(b2)
  }

  function Join4(b0: Byte, b1: Byte, b2: Byte, b3: Byte): CodePoint {
    (((b0 as bv32) & 7) << 18) | (((b1 & 0x3F) as bv32) << 12) | (TailBits(b2) << 6) | TailBits(b3)
  }

  /** What the reader tests before it joins bytes. */
  predicate Accepts2(b0: Byte, b1: Byte) {
    0xC2 <= b0 < 0xE0 && IsTail(b1)
  }

  predicate Accepts3(b0: Byte, b1: Byte, b2: Byte) {
    0xE0 <= b0 < 0xF0 && ValidLead3AndT1(b0 as bv32, b1) && IsTail(b2)
  }

  predicate Accepts4(b0: Byte, b1: Byte, b2: Byte, b3: Byte) {
    0xF0 <= b0 <= 0xF4 && ValidLead4AndT1((b0 as bv32) & 7, b1) && IsTail(b2) && IsTail(b3)
  }

  /** What the two tables accept, as the byte ranges of RFC 3629, section 4. */
  predicate Range3(b0: Byte, b1: Byte) {
    if b0 == 0xE0 then 0xA0 <= b1 <= 0xBF
    else if b0 == 0xED then 0x80 <= b1 <= 0x9F
    else 0x80 <= b1 <= 0xBF
  }

  predicate Range4(b0: Byte, b1: Byte) {
    if b0 == 0xF0 then 0x90 <= b1 <= 0xBF
    else if b0 == 0xF4 then 0x80 <= b1 <= 0x8F
    else 0x80 <= b1 <= 0xBF
  }

  lemma Table3(b0: Byte, b1: Byte)
    requires 0xE0 <= b0 < 0xF0
    ensures ValidLead3AndT1(b0 as bv32, b1) <==> Range3(b0, b1)
  {
  }

  lemma Table4(b0: Byte, b1: Byte)
    requires 0xF0 <= b0 <= 0xF4
    ensures ValidLead4AndT1((b0 as bv32) & 7, b1) <==> Range4(b0, b1)
  {
  }

  predicate AcceptedGroup(g: seq<Byte>) {
    match |g|
    case 1 => g[0] < 0x80
    case 2 => Accepts2(g[0], g[1])
    case 3 => Accepts3(g[0], g[1], g[2])
    case 4 => Accepts4(g[0], g[1], g[2], g[3])
    case _ => false
  }

  function Joined(g: seq<Byte>): CodePoint
    requires AcceptedGroup(g)
  {
    match |g|
    case 1 => g[0] as bv32
    case 2 => Join2(g[0], g[1])
    case 3 => Join3(g[0], g[1], g[2])
    case _ => Join4(g[0], g[1], g[2], g[3])
  }

  lemma Encoded2(c: CodePoint)
    requires 0x80 <= c < 0x800
    ensures Accepts2(ToByte(0xC0 + (c >> 6)), Tail(c))
    ensures Join2(ToByte(0xC0 + (c >> 6)), Tail(c)) == c
  {
  }

  lemma Encoded3(c: CodePoint)
    requires 0x800 <= c < 0x1_0000 && IsValidCodepoint(c)
    ensures Join3(ToByte(0xE0 + (c >> 12)), Tail(c >> 6), Tail(c)) == c
  {
  }

  lemma Encoded3Accepted(c: CodePoint)
    requires 0x800 <= c < 0x1_0000 && IsValidCodepoint(c)
    ensures 0xE0 <= ToByte(0xE0 + (c >> 12)) < 0xF0
    ensures Range3(ToByte(0xE0 + (c >> 12)), Tail(c >> 6)) && IsTail(Tail(c))
  {
  }

  lemma Encoded4(c: CodePoint)
    requires 0x1_0000 <= c && IsValidCodepoint(c)
    ensures Join4(ToByte(0xF0 + (c >> 18)), Tail(c >> 12), Tail(c >> 6), Tail(c)) == c
  {
  }

  lemma Encoded4Accepted(c: CodePoint)
    requires 0x1_0000 <= c && IsValidCodepoint(c)
    ensures 0xF0 <= ToByte(0xF0 + (c >> 18)) <= 0xF4
    ensures Range4(ToByte(0xF0 + (c >> 18)), Tail(c >> 12)) && IsTail(Tail(c >> 6)) && IsTail(Tail(c))
  {
  }

  lemma Accepted2(b0: Byte, b1: Byte)
    requires Accepts2(b0, b1)
    ensures 0x80 <= Join2(b0, b1) < 0x800
    ensures ToByte(0xC0 + (Join2(b0, b1) >> 6)) == b0 && Tail(Join2(b0, b1)) == b1
  {
  }

  lemma Accepted3Range(b0: Byte, b1: Byte, b2: Byte)
    requires 0xE0 <= b0 < 0xF0 && Range3(b0, b1) && IsTail(b2)
    ensures 0x800 <= Join3(b0, b1, b2) < 0x1_0000 && IsValidCodepoint(Join3(b0, b1, b2))
  {
  }

  lemma Accepted3(b0: Byte, b1: Byte, b2: Byte)
    requires 0xE0 <= b0 < 0xF0 && Range3(b0, b1) && IsTail(b2)
    ensures ToByte(0xE0 + (Join3(b0, b1, b2) >> 12)) == b0
    ensures Tail(Join3(b0, b1, b2) >> 6) == b1 && Tail(Join3(b0, b1, b2)) == b2
  {
  }

  lemma Accepted4Range(b0: Byte, b1: Byte, b2: Byte, b3: Byte)
    requires 0xF0 <= b0 <= 0xF4 && Range4(b0, b1) && IsTail(b2) && IsTail(b3)
    ensures 0x1_0000 <= Join4(b0, b1, b2, b3) <= 0x10_FFFF
  {
  }

  lemma Accepted4(b0: Byte, b1: Byte, b2: Byte, b3: Byte)
    requires 0xF0 <= b0 <= 0xF4 && Range4(b0, b1) && IsTail(b2) && IsTail(b3)
    ensures ToByte(0xF0 + (Join4(b0, b1, b2, b3) >> 18)) == b0 && Tail(Join4(b0, b1, b2, b3) >> 12) == b1
    ensures Tail(Join4(b0, b1, b2, b3) >> 6) == b2 && Tail(Join4(b0, b1, b2, b3)) == b3
  {
  }

  lemma Accepted8Of1(b0: Byte)
    requires b0 < 0x80
    ensures IsValidCodepoint(b0 as bv32) && Encode8(b0 as bv32) == [b0]
  {
  }

  lemma Accepted8Of2(b0: Byte, b1: Byte)
    requires Accepts2(b0, b1)
    ensures IsValidCodepoint(Join2(b0, b1)) && Encode8(Join2(b0, b1)) == [b0, b1]
  {
    Accepted2(b0, b1);
  }

  lemma Accepted8Of3(b0: Byte, b1: Byte, b2: Byte)
    requires Accepts3(b0, b1, b2)
    ensures IsValidCodepoint(Join3(b0, b1, b2)) && Encode8(Join3(b0, b1, b2)) == [b0, b1, b2]
  {
    Table3(b0, b1);
    Accepted3(b0, b1, b2);
    Accepted3Range(b0, b1, b2);
  }

  lemma Encode8Of4(c: CodePoint, b0: Byte, b1: Byte, b2: Byte, b3: Byte)
    requires 0x1_0000 <= c <= 0x10_FFFF
    requires ToByte(0xF0 + (c >> 18)) == b0 && Tail(c >> 12) == b1 && Tail(c >> 6) == b2 && Tail(c) == b3
    ensures IsValidCodepoint(c) && Encode8(c) == [b0, b1, b2, b3]
  {
  }

  lemma Encode8OfJoin4(b0: Byte, b1: Byte, b2: Byte, b3: Byte)
    requires 0xF0 <= b0 <= 0xF4 && Range4(b0, b1) && IsTail(b2) && IsTail(b3)
    ensures var c := Join4(b0, b1, b2, b3); IsValidCodepoint(c) && Encode8(c) == [b0, b1, b2, b3]
  {
    var c := Join4(b0, b1, b2, b3);
    Accepted4(b0, b1, b2, b3);
    Accepted4Range(b0, b1, b2, b3);
    Encode8Of4(c, b0, b1, b2, b3);
  }

  lemma Accepted8Of4(b0: Byte, b1: Byte, b2: Byte, b3: Byte)
    requires Accepts4(b0, b1, b2, b3)
    ensures IsValidCodepoint(Join4(b0, b1, b2, b3)) && Encode8(Join4(b0, b1, b2, b3)) == [b0, b1, b2, b3]
  {
    Table4(b0, b1);
    Encode8OfJoin4(b0, b1, b2, b3);
  }

  /** So each accepted byte group is the encoding of the value it joins to. */
  lemma Accepted8(g: seq<Byte>)
    requires AcceptedGroup(g)
    ensures IsValidCodepoint(Joined(g)) && Encode8(Joined(g)) == g
  {
    if |g| == 1 {
      Accepted8Of1(g[0]);
    } else if |g| == 2 {
      Accepted8Of2(g[0], g[1]);
    } else if |g| == 3 {
      Accepted8Of3(g[0], g[1], g[2]);
    } else {
      Accepted8Of4(g[0], g[1], g[2], g[3]);
    }
  }

  // How the control flow of the reader comes down to the accepted groups.

  /** An accepted group of length `n` starts at `i`. */
  predicate GroupAt(s: seq<Byte>, i: nat, n: nat) {
    i + n <= |s| && AcceptedGroup(s[i..i + n])
  }

  lemma Next8Of1(s: seq<Byte>, i: nat)
    requires i < |s| && s[i] < 0x80
    ensures Next8(s, i) == Read(s[i] as bv32, i + 1)
  {
  }

  lemma Next8Of2(s: seq<Byte>, i: nat)
    requires i + 1 < |s| && Accepts2(s[i], s[i + 1])
    ensures Next8(s, i) == Read(Join2(s[i], s[i + 1]), i + 2)
  {
  }

  lemma Next8Of3(s: seq<Byte>, i: nat)
    requires i + 2 < |s| && Accepts3(s[i], s[i + 1], s[i + 2])
    ensures Next8(s, i) == Read(Join3(s[i], s[i + 1], s[i + 2]), i + 3)
  {
  }

  lemma Next8Of4(s: seq<Byte>, i: nat)
    requires i + 3 < |s| && Accepts4(s[i], s[i + 1], s[i + 2], s[i + 3])
    ensures Next8(s, i) == Read(Join4(s[i], s[i + 1], s[i + 2], s[i + 3]), i + 4)
  {
  }

  lemma Next8OfGroup(s: seq<Byte>, i: nat, n: nat)
    requires i < |s| && GroupAt(s, i, n)
    ensures Next8(s, i) == Read(Joined(s[i..i + n]), i + n)
  {
    if n == 1 {
      assert s[i..i + 1] == [s[i]];
      Next8Of1(s, i);
    } else if n == 2 {
      assert s[i..i + 2] == [s[i], s[i + 1]];
      Next8Of2(s, i);
    } else if n == 3 {
      assert s[i..i + 3] == [s[i], s[i + 1], s[i + 2]];
      Next8Of3(s, i);
    } else {
      assert s[i..i + 4] == [s[i], s[i + 1], s[i + 2], s[i + 3]];
      Next8Of4(s, i);
    }
  }

  /** Otherwise it reports an error, and has moved past the lead byte. */
  lemma Next8Fails(s: seq<Byte>, i: nat)
    requires i < |s| && s[i] >= 0x80
    requires !(i + 1 < |s| && Accepts2(s[i], s[i + 1]))
    requires !(i + 2 < |s| && Accepts3(s[i], s[i + 1], s[i + 2]))
    requires !(i + 3 < |s| && Accepts4(s[i], s[i + 1], s[i + 2], s[i + 3]))
    ensures Next8(s, i).c == SENTINEL && i < Next8(s, i).next <= |s|
  {
  }

  lemma Next8FailsElsewhere(s: seq<Byte>, i: nat)
    requires i < |s|
    requires !GroupAt(s, i, 1) && !GroupAt(s, i, 2) && !GroupAt(s, i, 3) && !GroupAt(s, i, 4)
    ensures Next8(s, i).c == SENTINEL && i < Next8(s, i).next <= |s|
  {
    assert s[i..i + 1] == [s[i]];
    assert i + 1 < |s| ==> s[i..i + 2] == [s[i], s[i + 1]];
    assert i + 2 < |s| ==> s[i..i + 3] == [s[i], s[i + 1], s[i + 2]];
    assert i + 3 < |s| ==> s[i..i + 4] == [s[i], s[i + 1], s[i + 2], s[i + 3]];
    Next8Fails(s, i);
  }

  /** Every encoding is an accepted group. */
  lemma Encoded8(c: CodePoint)
    requires IsValidCodepoint(c)
    ensures AcceptedGroup(Encode8(c)) && Joined(Encode8(c)) == c
  {
    var e := Encode8(c);
    if c < 0x80 {
    } else if c < 0x800 {
      Encoded2(c);
    } else if c < 0x1_0000 {
      Encoded3(c);
      Encoded3Accepted(c);
      Table3(e[0], e[1]);
    } else {
      Encoded4(c);
      Encoded4Accepted(c);
      Table4(e[0], e[1]);
    }
  }

  /** Wherever the encoding of a scalar value stands, the reader reads that value. */
  lemma Next8ReadsEncoded(s: seq<Byte>, i: nat, c: CodePoint)
    requires IsValidCodepoint(c) && HasAt(s, i, Encode8(c))
    ensures i < |s| && Next8(s, i) == Read(c, i + |Encode8(c)|)
  {
    Encoded8(c);
    var n := |Encode8(c)|;
    assert s[i..i + n] == Encode8(c);
    Next8OfGroup(s, i, n);
  }

  /** The reader always advances inside the string, and any value it does not
      report as an error is a scalar value whose encoding is what it passed. */
  lemma Next8AcceptsOnlyEncoded(s: seq<Byte>, i: nat)
    requires i < |s|
    ensures i < Next8(s, i).next <= |s|
    ensures var r := Next8(s, i);
            if IsValidCodepoint(r.c) then r.next == i + |Encode8(r.c)| && s[i..r.next] == Encode8(r.c)
            else r.c == SENTINEL
  {
    var n := if GroupAt(s, i, 1) then 1 else if GroupAt(s, i, 2) then 2 else if GroupAt(s, i, 3) then 3 else 4;
    if GroupAt(s, i, n) {
      Next8OfGroup(s, i, n);
      Accepted8(s[i..i + n]);
    } else {
      Next8FailsElsewhere(s, i);
    }
  }

  // ----- surrogate pairs -----

  predicate IsLead(u: Unit) {
    IsSurrogate(u) && IsSurrogateLead(u)
  }

  /** A scalar value below U+10000 is one unit outside the surrogates. */
  lemma Single16(c: CodePoint)
    requires c < 0x1_0000
    ensures ToUnit(c) as bv32 == c
    ensures IsSurrogate(ToUnit(c)) <==> !IsValidCodepoint(c)
  {
  }

  lemma Unit16(u: Unit)
    ensures (u as bv32) < 0x1_0000 && ToUnit(u as bv32) == u
    ensures IsSurrogate(u) <==> !IsValidCodepoint(u as bv32)
    ensures IsSurrogate(u) <==> IsLead(u) || IsTrail(u)
    ensures !(IsLead(u) && IsTrail(u))
  {
  }

  /** The two units of a supplementary value are a lead and a trail, and join to it. */
  lemma Encoded16(c: CodePoint)
    requires 0x1_0000 <= c && IsValidCodepoint(c)
    ensures IsLead(ToUnit(0xD800 + ((c - 0x1_0000) >> 10)))
    ensures IsTrail(ToUnit(0xDC00 + ((c - 0x1_0000) & 0x3FF)))
    ensures GetSupplementary(ToUnit(0xD800 + ((c - 0x1_0000) >> 10)), ToUnit(0xDC00 + ((c - 0x1_0000) & 0x3FF))) == c
  {
  }

  /** Any lead and trail join to a supplementary value, which they encode. */
  lemma Accepted16Range(lead: Unit, trail: Unit)
    requires IsLead(lead) && IsTrail(trail)
    ensures 0x1_0000 <= GetSupplementary(lead, trail) <= 0x10_FFFF
  {
  }

  lemma Accepted16(lead: Unit, trail: Unit)
    requires IsLead(lead) && IsTrail(trail)
    ensures ToUnit(0xD800 + ((GetSupplementary(lead, trail) - 0x1_0000) >> 10)) == lead
    ensures ToUnit(0xDC00 + ((GetSupplementary(lead, trail) - 0x1_0000) & 0x3FF)) == trail
  {
  }
}
