/** Path values in the Windows configuration: separators '\\' and '/', drive
    letters, and a double leading separator that is a root of its own.  The
    functions here say what the operations of FilePath compute; the class in
    file_path_class.dfy is proved to compute them. */
module FilePaths {

  const KNUL: char := '\0'
  const CURRENT_DIRECTORY := "."
  const PARENT_DIRECTORY := ".."

  // Longest string the string class can hold; well below npos.
  const MAX_LENGTH: nat := 0x3FFF_FFFF_FFFF_FFFE

  predicate IsSeparator(c: char) {
    c == '\\' || c == '/'
  }

  /** FilePath strips NULs when it is built, so its value never has one. */
  type Path = p: string | |p| <= MAX_LENGTH && KNUL !in p

  predicate HasDrive(p: string) {
    |p| >= 2 && p[1] == ':' && ('A' <= p[0] <= 'Z' || 'a' <= p[0] <= 'z')
  }

  function DriveLength(p: string): nat {
    if HasDrive(p) then 2 else 0
  }

  predicate AllSeparators(s: string) {
    forall i :: 0 <= i < |s| ==> IsSeparator(s[i])
  }

  predicate NoSeparators(s: string) {
    forall i :: 0 <= i < |s| ==> !IsSeparator(s[i])
  }

  predicate SeparatorsFrom(s: string, n: nat) {
    forall i :: n <= i < |s| ==> IsSeparator(s[i])
  }

  /** `s` without its trailing separators. */
  function Trim(s: string): (t: string)
    ensures t <= s && SeparatorsFrom(s, |t|)
    ensures t == "" || !IsSeparator(t[|t| - 1])
  {
    if s == "" || !IsSeparator(s[|s| - 1]) then s else Trim(s[..|s| - 1])
  }

  /** Where the part after the last separator starts; 0 if there is none. */
  function BaseStart(s: string): (k: nat)
    ensures k <= |s| && forall i :: k <= i < |s| ==> !IsSeparator(s[i])
    ensures k > 0 ==> IsSeparator(s[k - 1])
  {
    if s == "" then 0
    else if IsSeparator(s[|s| - 1]) then |s|
    else BaseStart(s[..|s| - 1])
  }

  /** A drive, or nothing, followed by nothing but separators. */
  predicate OnlyRoot(p: string) {
    SeparatorsFrom(p, DriveLength(p))
  }

  /** Trailing separators go, but a root stays: one separator, or exactly two, with
      or without a drive in front; three or more become one. */
  function Strip(p: string): string {
    var d := DriveLength(p);
    if !OnlyRoot(p) then Trim(p)
    else if |p| <= d + 2 then p
    else p[..d + 1]
  }

  /** How much of a stripped path DirName keeps before it strips again. */
  function DirCut(s: string): (cut: nat)
    ensures cut <= |s|
  {
    var d, k := DriveLength(s), BaseStart(s);
    if k <= d then d
    else if k == d + 1 then d + 1
    else if k == d + 2 && IsSeparator(s[d]) then d + 2
    else k - 1
  }

  function DirName(p: string): string {
    var s := Strip(p);
    var t := Strip(s[..DirCut(s)]);
    if t == "" then CURRENT_DIRECTORY else t
  }

  function BaseName(p: string): string {
    var s := Strip(p);
    var rest := s[DriveLength(s)..];
    var k := BaseStart(rest);
    if k < |rest| then rest[k..] else rest
  }

  /** A component argument ends at its first NUL. */
  function UpToNul(c: string): (r: string)
    ensures r <= c && KNUL !in r
    ensures |r| < |c| ==> c[|r|] == KNUL
    ensures KNUL !in c ==> r == c
  {
    if c == "" || c[0] == KNUL then ""
    else
      assert c == [c[0]] + c[1..];
      [c[0]] + UpToNul(c[1..])
  }

  function Append(p: string, component: string): string {
    var c := UpToNul(component);
    if p == CURRENT_DIRECTORY then c
    else
      var s := Strip(p);
      var glue := c != "" && s != "" && !IsSeparator(s[|s| - 1]) && DriveLength(s) != |s|;
      (if glue then s + "\\" else s) + c
  }

  // ----- stripping -----

  lemma DriveOfPrefix(p: string, n: nat)
    requires DriveLength(p) <= n <= |p|
    ensures DriveLength(p[..n]) == DriveLength(p)
  {
  }

  /** A drive is no separator, so trimming never reaches into it. */
  lemma TrimKeepsDrive(p: string)
    ensures DriveLength(Trim(p)) == DriveLength(p)
  {
    assert Trim(p) == p[..|Trim(p)|];
  }

  /** Strip returns a prefix with the same drive, removing separators only. */
  lemma StripIsPrefix(p: string)
    ensures Strip(p) <= p && DriveLength(Strip(p)) == DriveLength(p)
    ensures SeparatorsFrom(p, |Strip(p)|)
    ensures p != "" ==> Strip(p) != ""
    ensures OnlyRoot(Strip(p)) <==> OnlyRoot(p)
  {
    var d := DriveLength(p);
    if !OnlyRoot(p) {
      TrimKeepsDrive(p);
      var i :| d <= i < |p| && !IsSeparator(p[i]);
      assert Trim(p)[i] == p[i];
    } else {
      DriveOfPrefix(p, if |p| <= d + 2 then |p| else d + 1);
      assert p[..|p|] == p;
    }
  }

  /** What Strip leaves alone: a root, or a path that ends in no separator. */
  lemma StripFixpoints(p: string)
    ensures Strip(p) == p <==>
      (if OnlyRoot(p) then |p| <= DriveLength(p) + 2 else !IsSeparator(p[|p| - 1]))
  {
    if OnlyRoot(p) {
    } else {
      assert p != "";
    }
  }

  /** StripTrailingSeparators is idempotent. */
  lemma StripIsIdempotent(p: string)
    ensures Strip(Strip(p)) == Strip(p)
  {
    StripIsPrefix(p);
    StripFixpoints(Strip(p));
  }

  /** Neither a root, nor an exact double root, nor a bare drive is ever removed. */
  lemma StripKeepsRoots(p: string)
    requires OnlyRoot(p)
    ensures |Strip(p)| == DriveLength(p) + (match |p| - DriveLength(p) case 0 => 0 case 2 => 2 case _ => 1)
  {
  }

  // ----- DirName: progress and fixpoints -----

  /** The kept part of a stripped path, for each shape of the path. */
  lemma DirCutShapes(s: string)
    ensures DirCut(s) >= DriveLength(s)
    ensures DirCut(s) == |s| <==> OnlyRoot(s) && |s| <= DriveLength(s) + 2
  {
  }

  /** DirName is the path itself, or strictly shorter, or "." - and it keeps the drive. */
  lemma DirNameShrinks(p: string)
    ensures DirName(p) == p || DirName(p) == CURRENT_DIRECTORY || |DirName(p)| < |p|
    ensures DirName(p) != CURRENT_DIRECTORY ==> DirName(p) <= p
    ensures HasDrive(p) ==> HasDrive(DirName(p)) && DirName(p) <= p
    ensures DirName(p) != ""
  {
    var s := Strip(p);
    var cut := DirCut(s);
    StripIsPrefix(p);
    DirCutShapes(s);
    DriveOfPrefix(s, cut);
    StripIsPrefix(s[..cut]);
    assert s == p[..|s|];
    if Strip(s[..cut]) != "" && |Strip(s[..cut])| == |p| {
      assert s[..cut] == s == p;
    }
  }

  /** The fixpoints of DirName are "." and the roots. */
  lemma DirNameFixpoints(p: string)
    ensures DirName(p) == p <==>
      p == CURRENT_DIRECTORY || (p != "" && OnlyRoot(p) && |p| <= DriveLength(p) + 2)
  {
    var s := Strip(p);
    StripIsPrefix(p);
    DirCutShapes(s);
    var cut := DirCut(s);
    StripIsPrefix(s[..cut]);
    if p == CURRENT_DIRECTORY {
      assert p[0..][0] == '.';
      assert s == p by { StripFixpoints(p); }
      assert BaseStart(p[..0]) == 0;
      assert Strip("") == "";
    } else if p != "" && OnlyRoot(p) && |p| <= DriveLength(p) + 2 {
      assert s == p && s[..cut] == s;
    }
  }

  /** A number that falls on every step of the DirName chain until it stops. */
  function Height(p: string): nat {
    if p == CURRENT_DIRECTORY then 0 else |p| + 1
  }

  lemma HeightFalls(p: string)
    requires DirName(p) != p
    ensures Height(DirName(p)) < Height(p)
  {
    DirNameShrinks(p);
    if p == CURRENT_DIRECTORY {
      DirNameFixpoints(p);
    }
  }

  // ----- Append against DirName and BaseName -----

  /** One non-empty path component. */
  predicate IsComponent(c: string) {
    c != "" && NoSeparators(c) && KNUL !in c
  }

  lemma BaseStartOfAppend(s: string, c: string)
    requires NoSeparators(c)
    ensures BaseStart(s + c) == BaseStart(s)
    decreases |c|
  {
    if c == "" {
      assert s + c == s;
    } else {
      var n := |c| - 1;
      assert (s + c)[..|s + c| - 1] == s + c[..n];
      assert NoSeparators(c[..n]);
      BaseStartOfAppend(s, c[..n]);
    }
  }

  /** What Append produces for a component: `head` is everything before it, and
      `head` ends in a separator, or is a bare drive, or is empty. */
  function AppendHead(p: string): string {
    if p == CURRENT_DIRECTORY then ""
    else
      var s := Strip(p);
      if s != "" && !IsSeparator(s[|s| - 1]) && DriveLength(s) != |s| then s + "\\" else s
  }

  /** The case the laws exclude: a drive-prefixed name, with nothing in front of it. */
  predicate NameBecomesDrive(p: string, c: string) {
    (p == "" || p == CURRENT_DIRECTORY) && HasDrive(c)
  }

  lemma AppendShape(p: string, c: string)
    requires IsComponent(c)
    ensures Append(p, c) == AppendHead(p) + c
    ensures AppendHead(p) == "" <==> p == "" || p == CURRENT_DIRECTORY
    ensures var h := AppendHead(p);
            h != "" ==> (
              && |h| >= DriveLength(h) == DriveLength(h + c) == DriveLength(p)
              && (IsSeparator(h[|h| - 1]) || |h| == DriveLength(h)))
  {
    StripIsPrefix(p);
    var s, h := Strip(p), AppendHead(p);
    if p != CURRENT_DIRECTORY && p != "" {
      if |h| == 1 {
        assert h[0] == (h + c)[0] && IsSeparator(h[0]);
      } else {
        assert (h + c)[0] == h[0] && (h + c)[1] == h[1];
        assert h[0] == s[0];
        if |s| == 1 {
          assert h[1] == '\\';
        }
      }
    }
  }

  /** `h` can stand directly in front of a component: it is empty, or ends in a
      separator, or is a bare drive - and no drive arises across the border. */
  predicate IsHead(h: string, c: string) {
    && (h == "" || IsSeparator(h[|h| - 1]) || |h| == DriveLength(h))
    && DriveLength(h + c) == DriveLength(h)
  }

  /** Such a path ends in its component, so there is nothing to strip. */
  lemma StripOfGlued(h: string, c: string)
    requires IsComponent(c) && IsHead(h, c)
    ensures Strip(h + c) == h + c && DriveLength(h) <= |h|
  {
    assert (h + c)[|h + c| - 1] == c[|c| - 1];
    assert DriveLength(h) <= |h| by {
      if |h| < 2 {
        assert !HasDrive(h);
      }
    }
    StripFixpoints(h + c);
  }

  lemma BaseStartOfHead(h: string)
    requires h == "" || IsSeparator(h[|h| - 1]) || |h| == DriveLength(h)
    ensures BaseStart(h) == if DriveLength(h) == |h| then 0 else |h|
  {
    if h != "" && DriveLength(h) == |h| {
      assert h[..1][..0] == "";
      assert BaseStart(h[..1]) == 0;
    }
  }

  lemma FrontOfHead(h: string)
    requires h == "" || IsSeparator(h[|h| - 1]) || |h| == DriveLength(h)
    ensures DriveLength(h) <= |h| && BaseStart(h[DriveLength(h)..]) == |h| - DriveLength(h)
  {
    var front := h[DriveLength(h)..];
    assert front == "" || front[|front| - 1] == h[|h| - 1];
  }

  lemma BaseNameOfGlued(h: string, c: string)
    requires IsComponent(c) && IsHead(h, c)
    ensures BaseName(h + c) == c
  {
    hide Strip, BaseStart, DriveLength, HasDrive, IsSeparator;
    StripOfGlued(h, c);
    FrontOfHead(h);
    var d := DriveLength(h);
    var front := h[d..];
    DropOfGlued(h, c, d);
    BaseStartOfAppend(front, c);
  }

  lemma DropOfGlued(h: string, c: string, d: nat)
    requires d <= |h|
    ensures (h + c)[d..] == h[d..] + c && (h[d..] + c)[|h| - d..] == c
  {
  }

  lemma DirCutOfGlued(h: string, c: string)
    requires IsComponent(c) && IsHead(h, c)
    ensures var d := DriveLength(h);
            DirCut(h + c) ==
              if |h| <= d + 1 || (|h| == d + 2 && IsSeparator(h[d])) then |h| else |h| - 1
  {
    StripOfGlued(h, c);
    BaseStartOfAppend(h, c);
    BaseStartOfHead(h);
    assert forall i :: 0 <= i < |h| ==> (h + c)[i] == h[i];
  }

  /** Stripping a proper path and then gluing: the head is the stripped path, with a
      separator unless it is a root or a bare drive. */
  lemma HeadOfStripped(p: string)
    requires p != "" && p != CURRENT_DIRECTORY
    ensures var s, h, d := Strip(p), AppendHead(p), DriveLength(p);
            && s != "" && DriveLength(s) == d <= |s|
            && (if h == s then |s| <= d + 2 && OnlyRoot(s)
                else h == s + "\\" && |s| > d && !IsSeparator(s[|s| - 1]))
  {
    StripIsPrefix(p);
    StripIsIdempotent(p);
    StripFixpoints(Strip(p));
    var s := Strip(p);
    assert DriveLength(s) <= |s|;
    if AppendHead(p) == s {
      assert |s + "\\"| != |s|;
    }
  }

  lemma DirNameOfGlued(p: string, c: string)
    requires IsComponent(c) && p != "" && p != CURRENT_DIRECTORY
    requires IsHead(AppendHead(p), c)
    ensures DirName(AppendHead(p) + c) == Strip(p)
  {
    hide Strip, BaseStart, DirCut, AppendHead, HasDrive, DriveLength;
    var s, h := Strip(p), AppendHead(p);
    HeadOfStripped(p);
    StripIsIdempotent(p);
    StripOfGlued(h, c);
    DirCutOfGlued(h, c);
    if h != s {
      assert DriveLength(h) == DriveLength(s) by { HeadKeepsDrive(s); }
      assert h[|s| - 1] == s[|s| - 1];
    } else if |s| == DriveLength(s) + 2 {
      assert IsSeparator(s[DriveLength(s)]);
    }
    assert (h + c)[..|s|] == s;
  }

  lemma HeadKeepsDrive(s: string)
    ensures DriveLength(s + "\\") == DriveLength(s)
  {
    if |s| >= 2 {
      assert (s + "\\")[0] == s[0] && (s + "\\")[1] == s[1];
    } else if |s| == 1 {
      assert (s + "\\")[1] == '\\';
    }
  }

  /** BaseName undoes Append, except exactly when the name turns into a drive. */
  lemma BaseNameOfAppend(p: string, c: string)
    requires IsComponent(c)
    ensures BaseName(Append(p, c)) == c <==> !NameBecomesDrive(p, c)
  {
    AppendShape(p, c);
    var h := AppendHead(p);
    if NameBecomesDrive(p, c) {
      assert Append(p, c) == c by { assert "" + c == c; }
      BaseNameDropsDrive(c);
    } else {
      assert IsHead(h, c) by {
        if h == "" {
          assert "" + c == c;
        }
      }
      BaseNameOfGlued(h, c);
    }
  }

  lemma BaseNameDropsDrive(p: string)
    requires HasDrive(p)
    ensures |BaseName(p)| <= |p| - 2
  {
    StripIsPrefix(p);
  }

  /** DirName of an appended path is the path it was appended to, stripped ("." for
      the empty path), except exactly when the name turns into a drive. */
  lemma DirNameOfAppend(p: string, c: string)
    requires IsComponent(c)
    ensures DirName(Append(p, c)) == (if p == "" then CURRENT_DIRECTORY else Strip(p))
      <==> !NameBecomesDrive(p, c)
  {
    hide Strip, BaseStart, DirCut, AppendHead, DriveLength, Append, DirName, IsComponent;
    AppendShape(p, c);
    if p != "" && p != CURRENT_DIRECTORY {
      DirNameOfGlued(p, c);
    } else if HasDrive(c) {
      DirNameKeepsDrive(p, c);
    } else {
      DirNameOfPlain(p, c);
    }
  }

  lemma DotIsStripped()
    ensures Strip(CURRENT_DIRECTORY) == CURRENT_DIRECTORY
  {
    assert !IsSeparator(CURRENT_DIRECTORY[0]);
    StripFixpoints(CURRENT_DIRECTORY);
  }

  /** A name with a drive that stands alone keeps its drive in DirName. */
  lemma DirNameKeepsDrive(p: string, c: string)
    requires IsComponent(c) && HasDrive(c) && (p == "" || p == CURRENT_DIRECTORY)
    ensures DirName(Append(p, c)) != CURRENT_DIRECTORY && Strip(CURRENT_DIRECTORY) == CURRENT_DIRECTORY
  {
    hide Strip, BaseStart, DirCut, DirName;
    AppendAlone(p, c);
    DirNameShrinks(c);
    DotIsStripped();
  }

  lemma AppendAlone(p: string, c: string)
    requires IsComponent(c) && (p == "" || p == CURRENT_DIRECTORY)
    ensures Append(p, c) == c
  {
    assert Strip("") == "";
    assert "" + c == c;
  }

  lemma DirNameOfPlain(p: string, c: string)
    requires IsComponent(c) && !HasDrive(c) && (p == "" || p == CURRENT_DIRECTORY)
    ensures DirName(Append(p, c)) == CURRENT_DIRECTORY && Strip(CURRENT_DIRECTORY) == CURRENT_DIRECTORY
  {
    hide BaseStart, DirCut;
    AppendAlone(p, c);
    DotIsStripped();
    assert "" + c == c;
    StripOfGlued("", c);
    DirCutOfGlued("", c);
    assert c[..0] == "" && Strip("") == "";
  }

  // ----- Append with more than one component -----

  /** A text that Append takes as it is. */
  predicate IsText(c: string) {
    c != "" && KNUL !in c
  }

  lemma UpToNulStep(c: char, rest: string)
    requires c != KNUL
    ensures UpToNul([c] + rest) == [c] + UpToNul(rest)
  {
    assert ([c] + rest)[1..] == rest;
  }

  lemma GluesAssociate(a: string, b: string, c: string)
    ensures (a + b) + c == a + (b + c)
  {
  }

  lemma {:induction false} NulFreeGlue(x: string, y: string)
    requires KNUL !in x
    ensures UpToNul(x + y) == x + UpToNul(y)
  {
    hide UpToNul;
    if x == "" {
      assert x + y == y && x + UpToNul(y) == UpToNul(y);
    } else {
      var c, rest := x[0], x[1..];
      assert x == [c] + rest;
      NulFreeGlue(rest, y);
      UpToNulStep(c, rest + y);
      GluesAssociate([c], rest, y);
      GluesAssociate([c], rest, UpToNul(y));
    }
  }

  /** What is glued between path and component depends on the path alone. */
  lemma AppendOfText(p: string, c: string)
    requires IsText(c)
    ensures Append(p, c) == AppendHead(p) + c
  {
    hide Strip, DriveLength;
    if p == CURRENT_DIRECTORY {
      assert "" + c == c;
    }
  }

  /** Once a letter is appended the rest of the component follows it unchanged, its
      separators too. */
  lemma AppendKeepsTheRest(p: string, x: string, y: string)
    requires IsText(x)
    ensures Append(p, x + y) == Append(p, x) + UpToNul(y)
  {
    hide Strip, DriveLength, AppendHead, Append, UpToNul;
    NulFreeGlue(x, y);
    AppendOfText(p, x);
    AppendOfText(p, x + UpToNul(y));
    AppendUpToNul(p, x + y);
    GluesAssociate(AppendHead(p), x, UpToNul(y));
  }

  /** A component ends at its first NUL. */
  lemma AppendUpToNul(p: string, c: string)
    ensures Append(p, c) == Append(p, UpToNul(c)) && UpToNul(UpToNul(c)) == UpToNul(c)
  {
  }

  /** Nothing to append: the path is stripped, and "." becomes the empty path. */
  lemma AppendNothing(p: string)
    ensures Append(p, "") == if p == CURRENT_DIRECTORY then "" else Strip(p)
  {
    hide Strip, DriveLength;
    assert Strip(p) + "" == Strip(p);
  }

  /** A path that is a bare drive or ".": to it Append glues no separator. */
  predicate TakesNoSeparator(x: string) {
    x == CURRENT_DIRECTORY || (HasDrive(x) && |x| == 2)
  }

  lemma HeadShape(p: string)
    ensures AppendHead(p) == "" <==> p == "" || p == CURRENT_DIRECTORY
    ensures var h := AppendHead(p); h != "" ==> IsSeparator(h[|h| - 1]) || |h| == 2
  {
    hide Strip, Append, AppendHead;
    AppendShape(p, "a");
  }

  lemma HeadOfText(q: string)
    requires q != "" && !IsSeparator(q[|q| - 1])
    ensures AppendHead(q) == if TakesNoSeparator(q) then (if q == CURRENT_DIRECTORY then "" else q) else q + "\\"
  {
    StripFixpoints(q);
  }

  lemma GluedTakesSeparator(h: string, x: string)
    requires h != "" && x != "" && (IsSeparator(h[|h| - 1]) || |h| == 2)
    ensures !TakesNoSeparator(h + x)
  {
    assert (h + x)[0] == h[0];
  }

  /** Appending two components at once is appending one after the other, except exactly
      when the first, with nothing in front of it, is "." or a bare drive. */
  lemma AppendInTwoSteps(p: string, x: string, d: string)
    requires IsText(x) && !IsSeparator(x[|x| - 1]) && IsText(d)
    ensures Append(p, x + "\\" + d) == Append(Append(p, x), d) <==>
            !((p == "" || p == CURRENT_DIRECTORY) && TakesNoSeparator(x))
  {
    hide Strip, AppendHead, Append, TakesNoSeparator;
    var h, q := AppendHead(p), Append(p, x);
    HeadShape(p);
    AppendOfText(p, x);
    AppendOfText(p, x + "\\" + d);
    AppendOfText(q, d);
    assert h + (x + "\\" + d) == q + "\\" + d;
    assert q[|q| - 1] == x[|x| - 1];
    HeadOfText(q);
    if h == "" {
      assert q == x;
      assert TakesNoSeparator(q) ==> |AppendHead(q) + d| < |q + "\\" + d|;
    } else {
      GluedTakesSeparator(h, x);
    }
  }
}
