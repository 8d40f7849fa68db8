/** Laws that tie the operations of FilePath to the letters of a path: the two slashes mean
    the same everywhere, drives are the 52 letters, and appending a name adds a component. */
module PathLaws {
  import opened FilePaths
  import opened PathComponents

  // ----- either slash -----

  /** Equal but for the direction of the slashes. */
  predicate Alike(p: string, q: string) {
    |p| == |q| &&
    forall k :: 0 <= k < |p| ==> p[k] == q[k] || ((p[k] == '/' || p[k] == '\\') && (q[k] == '/' || q[k] == '\\'))
  }

  lemma AlikeLetters(p: string, q: string, k: nat)
    requires Alike(p, q) && k < |p|
    ensures IsSeparator(p[k]) <==> IsSeparator(q[k])
    ensures !IsSeparator(p[k]) ==> p[k] == q[k]
  {
  }

  lemma AlikeParts(p: string, q: string, n: nat)
    requires Alike(p, q) && n <= |p|
    ensures Alike(p[..n], q[..n]) && Alike(p[n..], q[n..])
  {
  }

  lemma AlikeGlue(a: string, b: string, x: string, y: string)
    requires Alike(a, b) && Alike(x, y)
    ensures Alike(a + x, b + y)
  {
  }

  lemma AlikeDrives(p: string, q: string)
    requires Alike(p, q)
    ensures DriveLength(p) == DriveLength(q)
    ensures HasDrive(p) ==> p[..2] == q[..2]
    ensures p == CURRENT_DIRECTORY <==> q == CURRENT_DIRECTORY
  {
    if |p| >= 2 {
      AlikeLetters(p, q, 0);
      AlikeLetters(p, q, 1);
    } else if |p| == 1 {
      AlikeLetters(p, q, 0);
    }
  }

  lemma AlikeSeparators(p: string, q: string, n: nat)
    requires Alike(p, q)
    ensures SeparatorsFrom(p, n) <==> SeparatorsFrom(q, n)
    ensures AllSeparators(p) <==> AllSeparators(q)
  {
    hide IsSeparator;
    forall k | 0 <= k < |p|
      ensures IsSeparator(p[k]) <==> IsSeparator(q[k])
    {
      AlikeLetters(p, q, k);
    }
  }

  lemma {:induction false} AlikeTrims(p: string, q: string)
    requires Alike(p, q)
    ensures |Trim(p)| == |Trim(q)|
  {
    hide IsSeparator;
    if p != "" {
      var n := |p| - 1;
      AlikeLetters(p, q, n);
      AlikeParts(p, q, n);
      if IsSeparator(p[n]) {
        AlikeTrims(p[..n], q[..n]);
      }
    }
  }

  lemma {:induction false} AlikeBaseStarts(p: string, q: string)
    requires Alike(p, q)
    ensures BaseStart(p) == BaseStart(q)
  {
    hide IsSeparator;
    if p != "" {
      var n := |p| - 1;
      AlikeLetters(p, q, n);
      AlikeParts(p, q, n);
      if !IsSeparator(p[n]) {
        AlikeBaseStarts(p[..n], q[..n]);
      }
    }
  }

  lemma AlikeStrips(p: string, q: string)
    requires Alike(p, q)
    ensures Alike(Strip(p), Strip(q))
  {
    hide IsSeparator, HasDrive;
    var d := DriveLength(p);
    AlikeDrives(p, q);
    AlikeSeparators(p, q, d);
    AlikeTrims(p, q);
    AlikeParts(p, q, |Trim(p)|);
    assert Trim(p) == p[..|Trim(p)|] && Trim(q) == q[..|Trim(q)|];
    if OnlyRoot(p) && |p| > d + 2 {
      AlikeParts(p, q, d + 1);
    }
  }

  lemma AlikeCuts(s: string, t: string)
    requires Alike(s, t)
    ensures DirCut(s) == DirCut(t)
  {
    hide IsSeparator, HasDrive, BaseStart;
    AlikeDrives(s, t);
    AlikeBaseStarts(s, t);
    if BaseStart(s) == DriveLength(s) + 2 {
      AlikeLetters(s, t, DriveLength(s));
    }
  }

  /** DirName and BaseName see no difference between the slashes. */
  lemma NamesOfAlike(p: string, q: string)
    requires Alike(p, q)
    ensures Alike(DirName(p), DirName(q)) && Alike(BaseName(p), BaseName(q))
    ensures DirName(p) == p <==> DirName(q) == q
  {
    hide IsSeparator, HasDrive, BaseStart, Strip, DirCut, Alike;
    var s, t := Strip(p), Strip(q);
    AlikeStrips(p, q);
    AlikeCuts(s, t);
    AlikeLengths(s, t);
    AlikeParts(s, t, DirCut(s));
    AlikeStrips(s[..DirCut(s)], t[..DirCut(s)]);
    AlikeLengths(Strip(s[..DirCut(s)]), Strip(t[..DirCut(s)]));
    AlikeItself(CURRENT_DIRECTORY);
    StripIsPrefix(p);
    DriveIsInside(s);
    AlikeDrives(s, t);
    AlikeParts(s, t, DriveLength(s));
    var a, b := s[DriveLength(s)..], t[DriveLength(s)..];
    AlikeBaseStarts(a, b);
    AlikeLengths(a, b);
    AlikeParts(a, b, BaseStart(a));
    FixpointsOfAlike(p, q);
  }

  lemma AlikeLengths(p: string, q: string)
    requires Alike(p, q)
    ensures |p| == |q|
  {
  }

  lemma AlikeItself(p: string)
    ensures Alike(p, p)
  {
  }

  lemma DriveIsInside(s: string)
    ensures DriveLength(s) <= |s|
  {
  }

  lemma FixpointsOfAlike(p: string, q: string)
    requires Alike(p, q)
    ensures DirName(p) == p <==> DirName(q) == q
  {
    hide DirName, IsSeparator, HasDrive;
    DirNameFixpoints(p);
    DirNameFixpoints(q);
    AlikeDrives(p, q);
    AlikeSeparators(p, q, DriveLength(p));
  }

  predicate AllAlike(a: seq<string>, b: seq<string>) {
    |a| == |b| && forall k :: 0 <= k < |a| ==> Alike(a[k], b[k])
  }

  lemma AllAlikeGlue(a: seq<string>, b: seq<string>, x: seq<string>, y: seq<string>)
    requires AllAlike(a, b) && AllAlike(x, y)
    ensures AllAlike(a + x, b + y)
  {
    hide Alike;
  }

  lemma OneAlike(c: string, d: string, here: bool)
    requires Alike(c, d)
    ensures AllAlike(if here then [c] else [], if here then [d] else [])
  {
    hide Alike;
  }

  lemma RootsOfAlike(p: string, q: string)
    requires Alike(p, q)
    ensures AllAlike(RootComponents(p), RootComponents(q))
  {
    hide DirName, BaseName, Alike;
    var base, other, dir, dir' := BaseName(p), BaseName(q), DirName(p), DirName(q);
    NamesOfAlike(p, q);
    AlikeDrives(dir, dir');
    AlikeLengths(base, other);
    AlikeDrives(base, other);
    var drive := if HasDrive(dir) then [dir[..2]] else [];
    if HasDrive(dir) {
      AlikeItself(dir[..2]);
    }
    OneAlike(base, other, base != "" && base != CURRENT_DIRECTORY);
    AllAlikeGlue(drive, drive, if base != "" && base != CURRENT_DIRECTORY then [base] else [],
                 if base != "" && base != CURRENT_DIRECTORY then [other] else []);
  }

  lemma {:induction false} ChainsOfAlike(p: string, q: string)
    requires Alike(p, q)
    ensures AllAlike(Chain(p), Chain(q))
    decreases Height(p)
  {
    hide DirName, BaseName, Alike, AllAlike, RootComponents, AllSeparators;
    NamesOfAlike(p, q);
    if DirName(p) == p {
      RootsOfAlike(p, q);
    } else {
      HeightFalls(p);
      ChainsOfAlike(DirName(p), DirName(q));
      AlikeSeparators(BaseName(p), BaseName(q), 0);
      var here := !AllSeparators(BaseName(p));
      OneAlike(BaseName(p), BaseName(q), here);
      AllAlikeGlue(Chain(DirName(p)), Chain(DirName(q)), if here then [BaseName(p)] else [],
                   if here then [BaseName(q)] else []);
    }
  }

  /** Nor does GetComponents. */
  lemma ComponentsOfAlike(p: string, q: string)
    requires Alike(p, q)
    ensures AllAlike(Components(p), Components(q))
  {
    hide Chain, Alike;
    AlikeLengths(p, q);
    ChainsOfAlike(p, q);
  }

  /** Nor does Append. */
  lemma AppendToAlike(p: string, q: string, c: string)
    requires Alike(p, q)
    ensures Alike(Append(p, c), Append(q, c))
  {
    hide Strip, Alike, UpToNul, IsSeparator, HasDrive;
    var s, t, a := Strip(p), Strip(q), UpToNul(c);
    AlikeDrives(p, q);
    AlikeStrips(p, q);
    AlikeLengths(s, t);
    AlikeDrives(s, t);
    AlikeItself(a);
    AlikeItself("\\");
    AlikeGlue(s, t, "\\", "\\");
    AlikeGlue(s, t, a, a);
    AlikeGlue(s + "\\", t + "\\", a, a);
    if s != "" {
      AlikeLetters(s, t, |s| - 1);
    }
  }

  // ----- letters -----

  /** A drive is a letter of ASCII and a colon. */
  lemma DrivesAreLetters(p: string)
    ensures HasDrive(p) <==> |p| >= 2 && p[1] == ':' && (65 <= p[0] as int <= 90 || 97 <= p[0] as int <= 122)
  {
  }

  /** What may stand around a ".." in a component that still reads as one. */
  lemma DotsAndBlanks(c: char)
    ensures IsDotOrBlank(c) <==> c == '.' || c == ' ' || c == '\n' || c == '\r' || c == '\t'
  {
  }

  // ----- appending a name adds a component -----

  lemma NamesOfStripped(p: string)
    ensures DirName(Strip(p)) == DirName(p) && BaseName(Strip(p)) == BaseName(p)
  {
    hide BaseStart, DirCut;
    StripIsIdempotent(p);
  }

  lemma DotStripped(p: string)
    requires !OnlyRoot(p)
    ensures Strip(p) == CURRENT_DIRECTORY ==> DirName(p) == CURRENT_DIRECTORY && BaseName(p) == CURRENT_DIRECTORY
  {
    hide DirName, BaseName, Strip;
    DotIsItsOwnName();
    NamesOfStripped(p);
    DirNameFixpoints(CURRENT_DIRECTORY);
  }

  lemma DotIsNoRoot()
    ensures !OnlyRoot(CURRENT_DIRECTORY) && !AllSeparators(CURRENT_DIRECTORY)
  {
    assert !IsSeparator(CURRENT_DIRECTORY[0]);
  }

  lemma ChainOfStrippedRoot(p: string)
    requires OnlyRoot(p) && Strip(p) != p
    ensures Chain(Strip(p)) == Chain(p) && Strip(p) != CURRENT_DIRECTORY
  {
    hide DirName, BaseName, Chain;
    NamesOfStripped(p);
    StripIsPrefix(p);
    StripFixpoints(p);
    StripKeepsRoots(p);
    DirNameFixpoints(p);
    DirNameFixpoints(Strip(p));
    DotIsNoRoot();
    ChainOverRoot(p);
  }

  lemma ChainOfStrippedName(p: string)
    requires !OnlyRoot(p) && Strip(p) != p
    ensures Chain(Strip(p)) == Chain(p) <==> Strip(p) != CURRENT_DIRECTORY
  {
    hide DirName, BaseName, Strip, OnlyRoot, RootComponents;
    NamesOfStripped(p);
    DotIsItsOwnName();
    DotIsNoRoot();
    DotStripped(p);
    DotHasNoComponents();
    StripIsPrefix(p);
    DirNameFixpoints(p);
    DirNameFixpoints(Strip(p));
  }

  /** Trailing separators make no component, but for those behind a single dot. */
  lemma ChainOfStripped(p: string)
    ensures Chain(Strip(p)) == Chain(p) <==> p == CURRENT_DIRECTORY || Strip(p) != CURRENT_DIRECTORY
  {
    hide Strip, Chain, OnlyRoot;
    DotIsItsOwnName();
    if Strip(p) != p {
      if OnlyRoot(p) {
        ChainOfStrippedRoot(p);
      } else {
        ChainOfStrippedName(p);
      }
    }
  }

  /** The chain of an appended path. */
  lemma ChainOfAppended(p: string, c: string)
    requires IsComponent(c) && p != "" && p != CURRENT_DIRECTORY
    ensures Chain(Append(p, c)) == Chain(Strip(p)) + [c] && Append(p, c) != ""
  {
    hide Strip, DirName, BaseName, Append, AppendHead;
    AppendShape(p, c);
    DirNameOfAppend(p, c);
    BaseNameOfAppend(p, c);
    HeadOfStripped(p);
    assert |Append(p, c)| > |Strip(p)|;
    NameIsNoSeparator(c);
  }

  lemma NameIsNoSeparator(c: string)
    requires IsComponent(c)
    ensures !AllSeparators(c)
  {
    assert !IsSeparator(c[0]);
  }

  lemma DriveAlone(c: string)
    requires HasDrive(c) && |c| == 2
    ensures Chain(c) == [c]
  {
    hide Strip, DirName, BaseName, BaseStart;
    DirNameFixpoints(c);
    BaseNameDropsDrive(c);
    assert c[..2] == c;
  }

  lemma NameBehindDrive(c: string)
    requires IsComponent(c) && HasDrive(c) && |c| > 2
    ensures !AllSeparators(BaseName(c)) && DirName(c) != c
  {
    assert !IsSeparator(c[2]);
    StripFixpoints(c);
    DirNameFixpoints(c);
    BaseNameShape(c);
  }

  lemma PlainName(c: string)
    requires IsComponent(c) && !HasDrive(c) && c != CURRENT_DIRECTORY
    ensures Chain(c) == [c]
  {
    hide Strip, DirName, BaseName, Append, BaseStart, HasDrive, RootComponents, OnlyRoot;
    AppendAlone("", c);
    NameIsNoSeparator(c);
    DotHasNoComponents();
    DirNameOfPlain("", c);
    BaseNameOfAppend("", c);
    assert Chain(CURRENT_DIRECTORY) + [c] == [c];
  }

  lemma DriveAndName(c: string)
    requires IsComponent(c) && HasDrive(c) && |c| > 2
    ensures Chain(c) != [c]
  {
    hide Strip, DirName, BaseName, BaseStart, RootComponents, AllSeparators;
    BaseNameDropsDrive(c);
    NameBehindDrive(c);
    var before := Chain(DirName(c));
    assert Chain(c) == before + [BaseName(c)];
    assert (before + [BaseName(c)])[|before|] != c;
  }

  /** A name that stands alone. */
  lemma ChainOfName(c: string)
    requires IsComponent(c)
    ensures Chain(c) == [c] <==> c != CURRENT_DIRECTORY && !(HasDrive(c) && |c| > 2)
  {
    hide Chain, IsComponent, DirName, BaseName;
    DotHasNoComponents();
    if c != CURRENT_DIRECTORY {
      if !HasDrive(c) {
        PlainName(c);
      } else if |c| == 2 {
        DriveAlone(c);
      } else {
        DriveAndName(c);
      }
    }
  }

  /** GetComponents of an appended path is that of the path and the name, except exactly
      when the path is a dot with separators behind it, or nothing stands in front of a
      name that is a dot or begins with a drive. */
  lemma ComponentsOfAppend(p: string, c: string)
    requires IsComponent(c)
    ensures Components(Append(p, c)) == Components(p) + [c] <==>
            !(Strip(p) == CURRENT_DIRECTORY && p != CURRENT_DIRECTORY) &&
            !((p == "" || p == CURRENT_DIRECTORY) && (c == CURRENT_DIRECTORY || (HasDrive(c) && |c| > 2)))
  {
    hide Strip, DirName, BaseName, Append, Chain, HasDrive;
    if p == "" || p == CURRENT_DIRECTORY {
      AppendAlone(p, c);
      ChainOfName(c);
      DotHasNoComponents();
      EmptyStripped();
      assert [] + [c] == [c];
    } else {
      ChainOfAppended(p, c);
      ChainOfStripped(p);
      SnocIsInjective(Chain(Strip(p)), Chain(p), c);
    }
  }

  lemma EmptyStripped()
    ensures Strip("") == ""
  {
  }

  lemma SnocIsInjective<T>(a: seq<T>, b: seq<T>, x: T)
    ensures a + [x] == b + [x] <==> a == b
  {
    if a + [x] == b + [x] {
      assert a == (a + [x])[..|a|] && b == (b + [x])[..|b|];
    }
  }
}
