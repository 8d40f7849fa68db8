/** GetComponents and ReferencesParent over path values: the chain of DirName steps
    from a path up to its root, and what the base names along it add up to. */
module PathComponents {
  import opened FilePaths

  /** `s` without its separators. */
  function Letters(s: string): string {
    if s == "" then ""
    else Letters(s[..|s| - 1]) + (if IsSeparator(s[|s| - 1]) then "" else [s[|s| - 1]])
  }

  function Concat(parts: seq<string>): string {
    if parts == [] then "" else Concat(parts[..|parts| - 1]) + parts[|parts| - 1]
  }

  /** What GetComponents adds for the path at which DirName stops. */
  function RootComponents(p: string): seq<string> {
    var base := BaseName(p);
    var dir := DirName(p);
    (if HasDrive(dir) then [dir[..2]] else []) +
    (if base != "" && base != CURRENT_DIRECTORY then [base] else [])
  }

  /** The components along the DirName chain, root first. */
  function Chain(p: string): seq<string>
    decreases Height(p)
  {
    if DirName(p) == p then RootComponents(p)
    else
      HeightFalls(p);
      Chain(DirName(p)) + (if AllSeparators(BaseName(p)) then [] else [BaseName(p)])
  }

  function Components(p: string): seq<string> {
    if p == "" then [] else Chain(p)
  }

  // ----- one step of the chain -----

  lemma {:induction false} LettersOfConcat(a: string, b: string)
    ensures Letters(a + b) == Letters(a) + Letters(b)
  {
    if b == "" {
      assert a + b == a;
    } else {
      assert (a + b)[..|a + b| - 1] == a + b[..|b| - 1];
      LettersOfConcat(a, b[..|b| - 1]);
    }
  }

  lemma {:induction false} LettersOfSeparators(s: string)
    requires AllSeparators(s)
    ensures Letters(s) == ""
  {
    if s != "" {
      LettersOfSeparators(s[..|s| - 1]);
    }
  }

  lemma {:induction false} LettersOfName(s: string)
    requires NoSeparators(s)
    ensures Letters(s) == s
  {
    if s != "" {
      LettersOfName(s[..|s| - 1]);
    }
  }

  /** Cutting separators off the end changes no letters. */
  lemma LettersOfPrefix(s: string, n: nat)
    requires n <= |s| && SeparatorsFrom(s, n)
    ensures Letters(s[..n]) == Letters(s)
  {
    assert s == s[..n] + s[n..];
    LettersOfConcat(s[..n], s[n..]);
    assert AllSeparators(s[n..]) by {
      forall i | 0 <= i < |s[n..]|
        ensures IsSeparator(s[n..][i])
      {
        assert s[n..][i] == s[n + i];
      }
    }
    LettersOfSeparators(s[n..]);
  }

  lemma LettersOfStrip(p: string)
    ensures Letters(Strip(p)) == Letters(p)
  {
    StripIsPrefix(p);
    assert Strip(p) == p[..|Strip(p)|];
    LettersOfPrefix(p, |Strip(p)|);
  }

  lemma {:induction false} BaseStartOfSuffix(s: string, d: nat)
    requires d <= |s| && forall i :: 0 <= i < d ==> !IsSeparator(s[i])
    ensures BaseStart(s[d..]) == if BaseStart(s) == 0 then 0 else BaseStart(s) - d
    decreases |s|
  {
    if |s| > d {
      var n := |s| - 1;
      assert s[d..][..|s[d..]| - 1] == s[..n][d..];
      BaseStartOfSuffix(s[..n], d);
    }
  }

  lemma DriveHasNoSeparator(s: string)
    ensures DriveLength(s) <= |s| && forall i :: 0 <= i < DriveLength(s) ==> !IsSeparator(s[i])
  {
    if !HasDrive(s) {
    }
  }

  /** Where the base name of a stripped path starts. */
  function NameStart(s: string): nat {
    if BaseStart(s) == 0 then DriveLength(s) else BaseStart(s)
  }

  /** BaseName on a stripped path, in terms of the whole string. */
  function NameOf(s: string): string
    requires DriveLength(s) <= |s|
  {
    var rest := s[DriveLength(s)..];
    var k := BaseStart(rest);
    if k < |rest| then rest[k..] else rest
  }

  lemma NameOfPlain(s: string)
    requires s != "" && !IsSeparator(s[|s| - 1]) && DriveLength(s) < |s|
    ensures NameStart(s) < |s| && NameOf(s) == s[NameStart(s)..]
    ensures forall i :: NameStart(s) <= i < |s| ==> !IsSeparator(s[i])
  {
    DriveHasNoSeparator(s);
    BaseStartOfSuffix(s, DriveLength(s));
  }

  lemma NameOfRoot(s: string)
    requires OnlyRoot(s) && DriveLength(s) <= |s|
    ensures NameOf(s) == s[DriveLength(s)..] && AllSeparators(NameOf(s))
  {
    var rest := s[DriveLength(s)..];
    assert forall i :: 0 <= i < |rest| ==> rest[i] == s[DriveLength(s) + i];
    assert rest == "" || BaseStart(rest) == |rest|;
  }

  /** A stripped path that is no root goes past its drive and ends in a name. */
  lemma StrippedEnd(p: string)
    ensures var s := Strip(p);
            && BaseName(p) == NameOf(s) && DriveLength(s) <= |s| && (OnlyRoot(s) <==> OnlyRoot(p))
            && (!OnlyRoot(p) ==> DriveLength(s) < |s| && !IsSeparator(s[|s| - 1]))
  {
    StripIsPrefix(p);
    StripIsIdempotent(p);
    StripFixpoints(Strip(p));
  }

  /** The base name of a root is its separators; of any other path, the
      separator-free, non-empty piece after the last separator or the drive. */
  lemma BaseNameShape(p: string)
    ensures var s := Strip(p);
            if OnlyRoot(p) then
              DriveLength(s) <= |s| && BaseName(p) == s[DriveLength(s)..] && AllSeparators(BaseName(p))
            else
              && NameStart(s) < |s| && BaseName(p) == s[NameStart(s)..]
              && NoSeparators(BaseName(p)) && !AllSeparators(BaseName(p))
  {
    var s := Strip(p);
    StrippedEnd(p);
    if OnlyRoot(p) {
      NameOfRoot(s);
    } else {
      NameOfPlain(s);
      SuffixIsName(s, NameStart(s));
    }
  }

  lemma SuffixIsName(s: string, start: nat)
    requires start < |s| && forall i :: start <= i < |s| ==> !IsSeparator(s[i])
    ensures NoSeparators(s[start..]) && !AllSeparators(s[start..])
  {
    var base := s[start..];
    assert base[0] == s[start];
    assert forall i :: 0 <= i < |base| ==> base[i] == s[start + i];
  }

  lemma LettersOfThree(s: string, kept: string, separators: string, base: string)
    requires s == kept + separators + base && AllSeparators(separators) && NoSeparators(base)
    ensures Letters(s) == Letters(kept) + base
  {
    LettersOfConcat(kept + separators, base);
    LettersOfConcat(kept, separators);
    LettersOfSeparators(separators);
    LettersOfName(base);
  }

  lemma SplitInThree(s: string, cut: nat, start: nat)
    requires cut <= start < |s| && SeparatorsFrom(s[..start], cut)
    ensures s == s[..cut] + s[cut..start] + s[start..] && AllSeparators(s[cut..start])
  {
    forall i | 0 <= i < start - cut
      ensures IsSeparator(s[cut..start][i])
    {
      assert s[cut..start][i] == s[..start][cut + i];
    }
  }

  lemma LettersOfSplit(s: string, cut: nat, start: nat)
    requires cut <= start < |s| && SeparatorsFrom(s[..start], cut)
    requires forall i :: start <= i < |s| ==> !IsSeparator(s[i])
    ensures Letters(s) == Letters(s[..cut]) + s[start..]
  {
    SuffixIsName(s, start);
    SplitInThree(s, cut, start);
    LettersOfThree(s, s[..cut], s[cut..start], s[start..]);
  }

  /** A path that is not a root is, letter for letter, what DirName keeps, followed
      by its base name. */
  lemma StepSplitsLetters(p: string)
    requires !OnlyRoot(p)
    ensures var s := Strip(p); Letters(p) == Letters(s[..DirCut(s)]) + BaseName(p)
  {
    var s := Strip(p);
    StrippedEnd(p);
    NameOfPlain(s);
    LettersOfStrip(p);
    CutBeforeName(s);
    LettersOfSplit(s, DirCut(s), NameStart(s));
  }

  lemma CutBeforeName(s: string)
    ensures DirCut(s) <= NameStart(s) <= |s| && SeparatorsFrom(s[..NameStart(s)], DirCut(s))
  {
    DriveHasNoSeparator(s);
    assert BaseStart(s) == 0 || BaseStart(s) > DriveLength(s);
  }

  /** DirName of a root that can still be stripped is the stripped root. */
  lemma StepOverRoot(p: string)
    requires OnlyRoot(p) && p != ""
    ensures DirName(p) == Strip(p)
  {
    var s := Strip(p);
    StripIsPrefix(p);
    StripIsIdempotent(p);
    StripFixpoints(s);
    DirCutShapes(s);
    assert s[..|s|] == s;
  }

  // ----- nothing is lost but separators -----

  /** The leading "." of a path like "./a" is dropped (and "." alone has no
      components), but "./" keeps its ".". */
  predicate DropsLeadingDot(p: string) {
    p == CURRENT_DIRECTORY ||
    (|p| > 1 && p[0] == '.' && IsSeparator(p[1]) && Strip(p) != CURRENT_DIRECTORY)
  }

  function DroppedLetters(p: string): string {
    if DropsLeadingDot(p) then CURRENT_DIRECTORY else ""
  }

  /** A root: what is left of it is the drive and the separators. */
  lemma RootLossless(p: string)
    requires DirName(p) == p
    ensures Letters(p) == DroppedLetters(p) + Letters(Concat(Chain(p)))
    ensures p == CURRENT_DIRECTORY ==> Chain(p) == []
  {
    hide Strip, DirCut, BaseStart, BaseName, Letters, Chain, DropsLeadingDot;
    DirNameFixpoints(p);
    if p == CURRENT_DIRECTORY {
      DotLossless();
    } else {
      RealRootLossless(p);
    }
  }

  lemma DotLossless()
    ensures DirName(CURRENT_DIRECTORY) == CURRENT_DIRECTORY && Chain(CURRENT_DIRECTORY) == []
    ensures Letters(CURRENT_DIRECTORY) == DroppedLetters(CURRENT_DIRECTORY) + Letters(Concat(Chain(CURRENT_DIRECTORY)))
  {
    hide Strip, DirCut, BaseStart, BaseName, DirName;
    DirNameFixpoints(CURRENT_DIRECTORY);
    DotIsItsOwnName();
    var p := CURRENT_DIRECTORY;
    assert p[..0] == "";
    assert Letters(p) == Letters(p[..0]) + p;
    assert Concat([]) == "" && Letters("") == "";
  }

  lemma RealRootLossless(p: string)
    requires DirName(p) == p && p != CURRENT_DIRECTORY
    ensures Letters(p) == DroppedLetters(p) + Letters(Concat(Chain(p)))
  {
    hide Strip, DirCut, BaseStart, BaseName, DirName, Letters, DropsLeadingDot;
    DirNameFixpoints(p);
    BaseNameShape(p);
    StripFixpoints(p);
    RootParts(p);
    RootsHaveNoDot(p);
  }

  lemma DotIsItsOwnName()
    ensures BaseName(CURRENT_DIRECTORY) == CURRENT_DIRECTORY
    ensures Strip(CURRENT_DIRECTORY) == CURRENT_DIRECTORY
  {
    assert !IsSeparator(CURRENT_DIRECTORY[0]);
    StripFixpoints(CURRENT_DIRECTORY);
    BaseNameShape(CURRENT_DIRECTORY);
    NameOfPlain(CURRENT_DIRECTORY);
    assert CURRENT_DIRECTORY[..0] == "";
    assert BaseStart(CURRENT_DIRECTORY) == 0;
  }

  lemma RootParts(p: string)
    requires p != "" && OnlyRoot(p) && DirName(p) == p && BaseName(p) == p[DriveLength(p)..]
    ensures Concat(RootComponents(p)) == p
  {
    hide Strip, DirCut, BaseStart, BaseName, DirName;
    var d := DriveLength(p);
    var base := p[d..];
    assert base != CURRENT_DIRECTORY by {
      if base != "" {
        assert base[0] == p[d] && IsSeparator(p[d]);
      }
    }
    assert p == p[..d] + base;
    ConcatOne(p[..d]);
    ConcatOne(base);
    ConcatTwo(p[..d], base);
    var drive := if HasDrive(p) then [p[..2]] else [];
    var root := if base != "" then [base] else [];
    assert RootComponents(p) == drive + root;
    if drive == [] {
      assert drive + root == root && base == p;
    } else if root == [] {
      assert drive + root == drive && p[..d] == p;
    }
  }

  lemma ConcatOne(a: string)
    ensures Concat([a]) == a
  {
    assert [a][..0] == [];
  }

  lemma ConcatTwo(a: string, b: string)
    ensures Concat([a] + [b]) == a + b
  {
    assert ([a] + [b])[..1] == [a];
    ConcatOne(a);
  }

  /** The leading-dot rule is decided by the first step of the chain already. */
  lemma DropDecidedEarly(p: string)
    requires !OnlyRoot(p) && p != CURRENT_DIRECTORY
    ensures var t := Strip(Strip(p)[..DirCut(Strip(p))]);
            DropsLeadingDot(p) <==> t != "" && DropsLeadingDot(t)
  {
    var s := Strip(p);
    StripIsPrefix(p);
    StrippedEnd(p);
    var cut := DirCut(s);
    var u := s[..cut];
    var t := Strip(u);
    StripIsPrefix(u);
    StripIsIdempotent(u);
    assert s[0] == p[0];
    if s[0] == '.' {
      assert DriveLength(s) == 0 && DriveLength(u) == 0;
      if cut == 0 {
        assert BaseStart(s) == 0;
        assert |p| > 1 && |s| > 1 ==> p[1] == s[1] && !IsSeparator(s[1]);
      } else {
        DotStep(s, cut);
        assert |s| > 1 && p[1] == s[1];
      }
    } else if t != "" {
      assert t[0] == s[0];
    }
  }

  lemma DotStep(s: string, cut: nat)
    requires s != "" && s[0] == '.' && DriveLength(s) == 0 && !IsSeparator(s[|s| - 1])
    requires cut == DirCut(s) > 0
    ensures var t := Strip(s[..cut]);
            |s| > 1 && t != "" && t <= s && t[0] == '.' &&
            (IsSeparator(s[1]) <==> t == CURRENT_DIRECTORY || (|t| > 1 && IsSeparator(t[1])))
  {
    var u := s[..cut];
    assert u[0] == s[0] && !OnlyRoot(u) by { assert !IsSeparator(u[0]); }
    var t := Trim(u);
    assert t[0] == u[0];
    assert cut == BaseStart(s) - 1 && IsSeparator(s[cut]);
    if t == CURRENT_DIRECTORY && cut > 1 {
      assert IsSeparator(u[1]);
    }
    if |t| > 1 {
      assert t[1] == s[1];
    }
  }

  /** GetComponents loses nothing but separators, and, exactly when DropsLeadingDot
      says so, one leading ".". */
  lemma {:induction false} ComponentsLossless(p: string)
    requires p != ""
    ensures Letters(p) == DroppedLetters(p) + Letters(Concat(Components(p)))
    decreases Height(p)
  {
    if DirName(p) == p {
      RootLossless(p);
    } else {
      HeightFalls(p);
      DirNameShrinks(p);
      ComponentsLossless(DirName(p));
      if OnlyRoot(p) {
        RootStepLossless(p);
      } else {
        NameStepLossless(p);
      }
    }
  }

  lemma RootStepLossless(p: string)
    requires p != "" && DirName(p) != p && OnlyRoot(p)
    requires var q := DirName(p); Letters(q) == DroppedLetters(q) + Letters(Concat(Chain(q)))
    ensures Letters(p) == DroppedLetters(p) + Letters(Concat(Chain(p)))
  {
    StepOverRoot(p);
    LettersOfStrip(p);
    StripIsPrefix(p);
    RootsHaveNoDot(p);
    RootsHaveNoDot(DirName(p));
    ChainOverRoot(p);
  }

  lemma ChainOverRoot(p: string)
    requires DirName(p) != p && OnlyRoot(p)
    ensures Chain(p) == Chain(DirName(p))
  {
    BaseNameShape(p);
    assert Chain(DirName(p)) + [] == Chain(DirName(p));
  }

  lemma NameStepLossless(p: string)
    requires p != "" && DirName(p) != p && !OnlyRoot(p)
    requires var q := DirName(p); Letters(q) == DroppedLetters(q) + Letters(Concat(Chain(q)))
    ensures Letters(p) == DroppedLetters(p) + Letters(Concat(Chain(p)))
  {
    BaseNameShape(p);
    var q, name := DirName(p), BaseName(p);
    assert Chain(p) == Chain(q) + [name];
    ChainStep(Chain(q), name);
    StepLetters(p);
    DotHasNoComponents();
    JoinLetters(Letters(p), Letters(q), name, DroppedLetters(p), DroppedLetters(q),
                Letters(Concat(Chain(q))), Letters(Concat(Chain(p))), q == CURRENT_DIRECTORY);
  }

  lemma JoinLetters(whole: string, front: string, name: string, dropped: string, frontDropped: string,
                    frontParts: string, parts: string, isDot: bool)
    requires front == frontDropped + frontParts && parts == frontParts + name
    requires isDot ==> frontParts == ""
    requires (whole == front + name && dropped == frontDropped) || (isDot && whole == name && dropped == "")
    ensures whole == dropped + parts
  {
    if whole == front + name && dropped == frontDropped {
      assert (frontDropped + frontParts) + name == frontDropped + (frontParts + name);
    }
  }

  lemma DotHasNoComponents()
    ensures Chain(CURRENT_DIRECTORY) == [] && Letters(Concat([])) == ""
    ensures Letters(CURRENT_DIRECTORY) == CURRENT_DIRECTORY
  {
    DirNameFixpoints(CURRENT_DIRECTORY);
    RootLossless(CURRENT_DIRECTORY);
    assert CURRENT_DIRECTORY[..0] == "";
    assert Letters("") == "";
  }

  /** What a step does to the letters and to the leading-dot rule: either DirName is
      a real front part of the path, or it is a "." that was not in the path. */
  lemma StepLetters(p: string)
    requires p != "" && DirName(p) != p && !OnlyRoot(p)
    ensures
      || (Letters(p) == Letters(DirName(p)) + BaseName(p) && DroppedLetters(p) == DroppedLetters(DirName(p)))
      || (DirName(p) == CURRENT_DIRECTORY && Letters(p) == BaseName(p) && DroppedLetters(p) == "")
  {
    StepSplitsLetters(p);
    if p == CURRENT_DIRECTORY {
      DirNameFixpoints(p);
    }
    DropDecidedEarly(p);
    var u := Strip(p)[..DirCut(Strip(p))];
    StripIsPrefix(u);
    LettersOfStrip(u);
    if Strip(u) == "" {
      assert u == "" && "" + BaseName(p) == BaseName(p);
    }
  }

  lemma RootsHaveNoDot(p: string)
    requires OnlyRoot(p)
    ensures !DropsLeadingDot(p)
  {
    if p != "" && DriveLength(p) == 0 {
      assert IsSeparator(p[0]);
    }
  }

  lemma ChainStep(parts: seq<string>, name: string)
    requires NoSeparators(name)
    ensures Letters(Concat(parts + [name])) == Letters(Concat(parts)) + name
  {
    assert (parts + [name])[..|parts|] == parts;
    LettersOfConcat(Concat(parts), name);
    LettersOfName(name);
  }

  // ----- every component is a piece of the path -----

  predicate OccursAt(c: string, p: string, i: nat) {
    i + |c| <= |p| && p[i..i + |c|] == c
  }

  ghost predicate Occurs(c: string, p: string) {
    exists i: nat :: OccursAt(c, p, i)
  }

  /** A component is a separator-free name (or the drive); only right after the
      drive, or first when there is none, can a root of separators stand. */
  ghost predicate ComponentOk(p: string, parts: seq<string>, i: nat)
    requires i < |parts|
  {
    && Occurs(parts[i], p) && parts[i] != ""
    && (NoSeparators(parts[i]) ||
        (AllSeparators(parts[i]) && |parts[i]| <= 2 && i == DriveLength(p) / 2))
  }

  lemma OccursInLonger(c: string, p: string, q: string)
    requires Occurs(c, p) && p <= q
    ensures Occurs(c, q)
  {
    var i: nat :| OccursAt(c, p, i);
    assert q[i..i + |c|] == p[i..i + |c|];
    assert OccursAt(c, q, i);
  }

  lemma {:induction false} ComponentsArePieces(p: string)
    requires p != ""
    ensures forall i: nat :: i < |Components(p)| ==> ComponentOk(p, Components(p), i)
    decreases Height(p)
  {
    if DirName(p) == p {
      RootPieces(p);
    } else {
      HeightFalls(p);
      DirNameShrinks(p);
      ComponentsArePieces(DirName(p));
      StepPieces(p);
    }
  }

  lemma StepPieces(p: string)
    requires p != "" && DirName(p) != p && DirName(p) != ""
    requires forall i: nat :: i < |Components(DirName(p))| ==> ComponentOk(DirName(p), Components(DirName(p)), i)
    ensures forall i: nat :: i < |Components(p)| ==> ComponentOk(p, Components(p), i)
  {
    hide DirName, BaseName, Occurs, NoSeparators, AllSeparators, DriveLength;
    var q, parts := DirName(p), Components(p);
    var before := Components(q);
    LastPiece(p);
    assert parts == before + (if AllSeparators(BaseName(p)) then [] else [BaseName(p)]);
    forall i: nat | i < |parts|
      ensures ComponentOk(p, parts, i)
    {
      if i < |before| {
        assert parts[i] == before[i];
        OldPiece(p, q, before, i);
      } else {
        assert parts[i] == BaseName(p);
      }
    }
  }

  lemma OldPiece(p: string, q: string, before: seq<string>, i: nat)
    requires q == DirName(p) != p && before == Components(q) && q != ""
    requires i < |before| && ComponentOk(q, before, i)
    ensures Occurs(before[i], p) && before[i] != ""
    ensures NoSeparators(before[i]) ||
      (AllSeparators(before[i]) && |before[i]| <= 2 && i == DriveLength(p) / 2)
  {
    if q == CURRENT_DIRECTORY {
      DirNameFixpoints(q);
      RootLossless(q);
      assert false;
    } else {
      DirNameShrinks(p);
      OccursInLonger(before[i], q, p);
      SameDrive(p, q);
    }
  }

  lemma SameDrive(p: string, q: string)
    requires q == DirName(p) && q != CURRENT_DIRECTORY
    ensures DriveLength(p) == DriveLength(q)
  {
    DirNameShrinks(p);
    if HasDrive(q) {
      assert p[0] == q[0] && p[1] == q[1];
    }
  }

  lemma LastPiece(p: string)
    requires DirName(p) != p
    ensures !AllSeparators(BaseName(p)) ==>
      NoSeparators(BaseName(p)) && BaseName(p) != "" && Occurs(BaseName(p), p)
  {
    BaseNameShape(p);
    if !OnlyRoot(p) {
      StripIsPrefix(p);
      SuffixOfPrefixOccurs(p, Strip(p), NameStart(Strip(p)));
    }
  }

  lemma SuffixOfPrefixOccurs(p: string, s: string, start: nat)
    requires s <= p && start <= |s|
    ensures Occurs(s[start..], p)
  {
    assert p[start..|s|] == s[start..];
    assert OccursAt(s[start..], p, start);
  }

  lemma RootPieces(p: string)
    requires p != "" && DirName(p) == p
    ensures forall i: nat :: i < |RootComponents(p)| ==> ComponentOk(p, RootComponents(p), i)
  {
    DirNameFixpoints(p);
    if p == CURRENT_DIRECTORY {
      RootLossless(p);
    } else {
      BaseNameShape(p);
      StripFixpoints(p);
      SplitRootPieces(p, p[DriveLength(p)..]);
    }
  }

  lemma SplitRootPieces(p: string, base: string)
    requires OnlyRoot(p) && DriveLength(p) <= |p| <= DriveLength(p) + 2
    requires base == p[DriveLength(p)..] && base == BaseName(p) && DirName(p) == p && AllSeparators(base)
    ensures forall i: nat :: i < |RootComponents(p)| ==> ComponentOk(p, RootComponents(p), i)
  {
    DriveHasNoSeparator(p);
    var d := DriveLength(p);
    assert OccursAt(base, p, d);
    if HasDrive(p) {
      assert OccursAt(p[..2], p, 0);
      assert NoSeparators(p[..2]);
      assert RootComponents(p)[0] == p[..2];
      assert |RootComponents(p)| == 2 ==> RootComponents(p)[1] == base;
    } else {
      assert |RootComponents(p)| == 1 ==> RootComponents(p)[0] == base;
    }
  }

  // ----- ReferencesParent -----

  predicate IsDotOrBlank(c: char) {
    c in ". \n\r\t"
  }

  ghost predicate HasParentMark(s: string) {
    Occurs(PARENT_DIRECTORY, s)
  }

  /** A component that Windows may read as "..": blanks and dots only, with ".."
      among them. */
  ghost predicate ReadsAsParent(c: string) {
    (forall i :: 0 <= i < |c| ==> IsDotOrBlank(c[i])) && HasParentMark(c)
  }

  /** The early exit of ReferencesParent never changes the answer: without ".." in
      the path no component can contain it. */
  lemma EarlyExitAgrees(p: string)
    requires !HasParentMark(p)
    ensures forall c :: c in Components(p) ==> !ReadsAsParent(c)
  {
    forall c | c in Components(p)
      ensures !ReadsAsParent(c)
    {
      ComponentsArePieces(p);
      var parts := Components(p);
      var k: nat :| k < |parts| && parts[k] == c;
      assert ComponentOk(p, parts, k);
      if HasParentMark(c) {
        MarkInPiece(c, p);
      }
    }
  }

  lemma MarkInPiece(c: string, p: string)
    requires Occurs(c, p) && HasParentMark(c)
    ensures HasParentMark(p)
  {
    var i: nat :| OccursAt(c, p, i);
    var j: nat :| OccursAt(PARENT_DIRECTORY, c, j);
    var window := p[i..i + |c|];
    assert window == c && |PARENT_DIRECTORY| == 2;
    assert window[j] == p[i + j] && window[j + 1] == p[i + j + 1];
    assert c[j..j + 2][0] == c[j] && c[j..j + 2][1] == c[j + 1];
    assert p[i + j..i + j + 2] == PARENT_DIRECTORY;
    assert OccursAt(PARENT_DIRECTORY, p, i + j);
  }
}
