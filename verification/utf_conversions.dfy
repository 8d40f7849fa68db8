/** base/strings/utf_string_conversions.cc and utf_string_conversion_utils.cc:
    transcoding between UTF-8 and UTF-16 with replacement of what is ill-formed. */
module UtfConversions {
  import opened IcuUtf

  // ----- what a string of scalar values is in either encoding -----

  predicate Scalars(cs: seq<CodePoint>) {
    forall k :: 0 <= k < |cs| ==> IsValidCodepoint(cs[k])
  }

  function Encode8All(cs: seq<CodePoint>): seq<Byte> {
    if cs == [] then [] else Encode8(cs[0]) + Encode8All(cs[1..])
  }

  function Encode16All(cs: seq<CodePoint>): seq<Unit> {
    if cs == [] then [] else Encode16(cs[0]) + Encode16All(cs[1..])
  }

  /** Well-formed: the encoding of some scalar values. */
  ghost predicate WellFormed8(s: seq<Byte>) {
    exists cs :: Scalars(cs) && Encode8All(cs) == s
  }

  ghost predicate WellFormed16(s: seq<Unit>) {
    exists cs :: Scalars(cs) && Encode16All(cs) == s
  }

  // ----- one step of either reader, and whole scans -----

  function Next16(s: seq<Unit>, i: nat): Read
    requires i < |s|
  {
    if !IsSurrogate(s[i]) then Read(s[i] as bv32, i + 1)
    else if !IsSurrogateLead(s[i]) || i + 1 >= |s| || !IsTrail(s[i + 1]) then Read(SENTINEL, i + 1)
    else Read(GetSupplementary(s[i], s[i + 1]), i + 2)
  }

  /** A surrogate pair starts at `i`. */
  predicate PairAt(s: seq<Unit>, i: nat) {
    i + 1 < |s| && IsLead(s[i]) && IsTrail(s[i + 1])
  }

  lemma Next16Cases(s: seq<Unit>, i: nat)
    requires i < |s|
    ensures !IsSurrogate(s[i]) ==> Next16(s, i) == Read(s[i] as bv32, i + 1)
    ensures PairAt(s, i) ==> Next16(s, i) == Read(GetSupplementary(s[i], s[i + 1]), i + 2)
    ensures IsSurrogate(s[i]) && !PairAt(s, i) ==> Next16(s, i) == Read(SENTINEL, i + 1)
  {
  }

  lemma Next16InPrefix(s: seq<Unit>, n: nat, i: nat)
    requires i < n <= |s|
    ensures !IsSurrogate(s[i]) ==> Next16(s[..n], i) == Read(s[i] as bv32, i + 1)
    ensures IsLead(s[i]) && i + 1 < n && IsTrail(s[i + 1]) ==>
              Next16(s[..n], i) == Read(GetSupplementary(s[i], s[i + 1]), i + 2)
    ensures IsSurrogate(s[i]) && !(IsLead(s[i]) && i + 1 < n && IsTrail(s[i + 1])) ==>
              Next16(s[..n], i) == Read(SENTINEL, i + 1)
  {
    assert s[..n][i] == s[i];
    assert i + 1 < n ==> s[..n][i + 1] == s[i + 1];
    Next16Cases(s[..n], i);
  }

  function Kept(c: CodePoint): CodePoint {
    if IsValidCodepoint(c) then c else REPLACEMENT
  }

  /** The scalar values written for `s[i..]`, replacements included. */
  function Scan8(s: seq<Byte>, i: nat): seq<CodePoint>
    requires i <= |s|
    decreases |s| - i
  {
    if i == |s| then []
    else
      Next8AcceptsOnlyEncoded(s, i);
      [Kept(Next8(s, i).c)] + Scan8(s, Next8(s, i).next)
  }

  /** No replacement was needed for `s[i..]`. */
  predicate Clean8(s: seq<Byte>, i: nat)
    requires i <= |s|
    decreases |s| - i
  {
    i == |s| || (
      Next8AcceptsOnlyEncoded(s, i);
      IsValidCodepoint(Next8(s, i).c) && Clean8(s, Next8(s, i).next)
    )
  }

  function Scan16(s: seq<Unit>, i: nat): seq<CodePoint>
    requires i <= |s|
    decreases |s| - i
  {
    if i == |s| then [] else [Kept(Next16(s, i).c)] + Scan16(s, Next16(s, i).next)
  }

  predicate Clean16(s: seq<Unit>, i: nat)
    requires i <= |s|
    decreases |s| - i
  {
    i == |s| || (IsValidCodepoint(Next16(s, i).c) && Clean16(s, Next16(s, i).next))
  }

  // ----- the readers and the writers -----

  /** ReadUnicodeCharacter on UTF-8: leaves the index on the last byte it passed. */
  method ReadUnicodeCharacter8(src: seq<Byte>, srcLen: nat, charIndex: nat)
    returns (ok: bool, codePoint: CodePoint, index: nat)
    requires charIndex < srcLen <= |src|
    ensures charIndex <= index < srcLen
    ensures Next8(src[..srcLen], charIndex) == Read(codePoint, index + 1)
    ensures ok <==> IsValidCodepoint(codePoint)
  {
    Next8AcceptsOnlyEncoded(src[..srcLen], charIndex);
    var r := Next8(src[..srcLen], charIndex);
    codePoint, index := r.c, r.next;
    index := index - 1;
    ok := IsValidCodepoint(codePoint);
  }

  /** ReadUnicodeCharacter on UTF-16; `codePoint` means nothing when it fails. */
  method ReadUnicodeCharacter16(src: seq<Unit>, srcLen: nat, charIndex: nat)
    returns (ok: bool, codePoint: CodePoint, index: nat)
    requires charIndex < srcLen <= |src|
    ensures charIndex <= index < srcLen && Next16(src[..srcLen], charIndex).next == index + 1
    ensures ok <==> IsValidCodepoint(Next16(src[..srcLen], charIndex).c)
    ensures ok ==> codePoint == Next16(src[..srcLen], charIndex).c
  {
    ghost var s := src[..srcLen];
    Next16InPrefix(src, srcLen, charIndex);
    index, codePoint := charIndex, 0;
    if IsSurrogate(src[index]) {
      if !IsSurrogateLead(src[index]) || index + 1 >= srcLen || !IsTrail(src[index + 1]) {
        ok := false;
        return;
      }
      codePoint := GetSupplementary(src[index], src[index + 1]);
      index := index + 1;
    } else {
      codePoint := src[index] as bv32;
    }
    ok := IsValidCodepoint(codePoint);
  }

  /** std::basic_string::resize, with the zero fill. */
  function Resized<T>(s: seq<T>, n: nat, zero: T): seq<T> {
    if n <= |s| then s[..n] else s + seq(n - |s|, _ => zero)
  }

  /** Writes `part` over `s` from index `at` on. */
  method Overwrite<T>(s: seq<T>, at: nat, part: seq<T>) returns (r: seq<T>)
    requires at + |part| <= |s|
    ensures r == s[..at] + part + s[at + |part|..]
  {
    r := s;
    var k := 0;
    while k < |part|
      invariant 0 <= k <= |part|
      invariant r == s[..at] + part[..k] + s[at + k..]
    {
      r := r[at + k := part[k]];
      k := k + 1;
    }
  }

  /** WriteUnicodeCharacter on a std::string: room for four bytes, then the encoding,
      then the rest of the room given back. */
  method WriteUnicodeCharacter8(codePoint: CodePoint, output: seq<Byte>) returns (result: seq<Byte>, written: nat)
    requires IsValidCodepoint(codePoint)
    ensures result == output + Encode8(codePoint) && written == |Encode8(codePoint)|
  {
    Append8IsEncode8(codePoint);
    if codePoint <= 0x7F {
      result, written := output + [ToByte(codePoint)], 1;
      return;
    }
    var charOffset := |output|;
    result := Resized(output, charOffset + 4, 0);
    result := Overwrite(result, charOffset, Append8(codePoint));
    result, written := Resized(result, charOffset + |Append8(codePoint)|, 0), |Append8(codePoint)|;
  }

  method WriteUnicodeCharacter16(codePoint: CodePoint, output: seq<Unit>) returns (result: seq<Unit>, written: nat)
    requires IsValidCodepoint(codePoint)
    ensures result == output + Encode16(codePoint) && written == |Encode16(codePoint)|
  {
    Append16IsEncode16(codePoint);
    if codePoint <= 0xFFFF {
      result, written := output + [ToUnit(codePoint)], 1;
      return;
    }
    var charOffset := |output|;
    result := Resized(output, charOffset + 2, 0);
    result := Overwrite(result, charOffset, Append16(codePoint));
    written := 2;
  }

  // ----- ConvertUnicode -----

  /** static_cast<int32_t>(size_t) */
  function ToInt32(n: nat): (r: int)
    ensures r <= n
  {
    var low := n % 0x1_0000_0000;
    if low < 0x8000_0000 then low else low - 0x1_0000_0000
  }

  /** The part of the input that the loop, with its 32-bit length, reads. */
  function Considered<T>(s: seq<T>): seq<T> {
    s[..if ToInt32(|s|) <= 0 then 0 else ToInt32(|s|)]
  }

  datatype Outcome<T> = Outcome(success: bool, text: seq<T>)

  function From8(s: seq<Byte>): Outcome<Unit> {
    Outcome(Clean8(Considered(s), 0), Encode16All(Scan8(Considered(s), 0)))
  }

  function From16(s: seq<Unit>): Outcome<Byte> {
    Outcome(Clean16(Considered(s), 0), Encode8All(Scan16(Considered(s), 0)))
  }

  /** Where the loop over `s` stands: `text` is written for `s[..i]`. */
  ghost predicate At8(s: seq<Byte>, i: nat, success: bool, text: seq<Unit>) {
    i <= |s| && text + Encode16All(Scan8(s, i)) == Encode16All(Scan8(s, 0)) && (success && Clean8(s, i) <==> Clean8(s, 0))
  }

  ghost predicate At16(s: seq<Unit>, i: nat, success: bool, text: seq<Byte>) {
    i <= |s| && text + Encode8All(Scan16(s, i)) == Encode8All(Scan16(s, 0)) && (success && Clean16(s, i) <==> Clean16(s, 0))
  }

  lemma Step8(s: seq<Byte>, i: nat, success: bool, text: seq<Unit>, c: CodePoint, next: nat)
    requires At8(s, i, success, text) && i < |s| && Next8(s, i) == Read(c, next)
    ensures At8(s, next, success && IsValidCodepoint(c), text + Encode16(Kept(c)))
  {
    Next8AcceptsOnlyEncoded(s, i);
    var rest := Scan8(s, next);
    assert Scan8(s, i)[1..] == rest;
    Reassociate(text, Encode16(Kept(c)), Encode16All(rest));
  }

  lemma Step16(s: seq<Unit>, i: nat, success: bool, text: seq<Byte>, c: CodePoint, next: nat)
    requires At16(s, i, success, text) && i < |s| && Next16(s, i) == Read(c, next)
    ensures At16(s, next, success && IsValidCodepoint(c), text + Encode8(Kept(c)))
  {
    var rest := Scan16(s, next);
    assert Scan16(s, i)[1..] == rest;
    Reassociate(text, Encode8(Kept(c)), Encode8All(rest));
  }

  lemma Reassociate<T>(a: seq<T>, b: seq<T>, c: seq<T>)
    ensures (a + b) + c == a + (b + c)
  {
  }

  /** UTF8ToUTF16, with ConvertUnicode in it. */
  method Utf8ToUtf16(src: seq<Byte>) returns (success: bool, output: seq<Unit>)
    ensures Outcome(success, output) == From8(src)
  {
    output, success := [], true;
    var srcLen32 := ToInt32(|src|);
    var i := 0;
    ghost var s := Considered(src);
    while i < srcLen32
      invariant At8(s, i, success, output)
    {
      ghost var was := (i, success, output);
      var read, codePoint, index := ReadUnicodeCharacter8(src, srcLen32, i);
      i := index;
      var written: nat;
      if read {
        output, written := WriteUnicodeCharacter16(codePoint, output);
      } else {
        output, written := WriteUnicodeCharacter16(REPLACEMENT, output);
        success := false;
      }
      i := i + 1;
      Step8(s, was.0, was.1, was.2, codePoint, i);
    }
  }

  /** UTF16ToUTF8, with ConvertUnicode in it. */
  method Utf16ToUtf8(src: seq<Unit>) returns (success: bool, output: seq<Byte>)
    ensures Outcome(success, output) == From16(src)
  {
    output, success := [], true;
    var srcLen32 := ToInt32(|src|);
    var i := 0;
    ghost var s := Considered(src);
    while i < srcLen32
      invariant At16(s, i, success, output)
    {
      ghost var was := (i, success, output);
      var read, codePoint, index := ReadUnicodeCharacter16(src, srcLen32, i);
      i := index;
      var written: nat;
      if read {
        output, written := WriteUnicodeCharacter8(codePoint, output);
      } else {
        output, written := WriteUnicodeCharacter8(REPLACEMENT, output);
        success := false;
      }
      i := i + 1;
      Step16(s, was.0, was.1, was.2, Next16(s, was.0).c, i);
    }
  }
}
