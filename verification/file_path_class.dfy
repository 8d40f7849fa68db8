/** FilePath as code: a mutable path_ that StripTrailingSeparatorsInternal cuts in
    place, and operations that work on fresh copies.  Positions are size_t and
    `npos` is its largest value, so `npos + 1` is 0: the code relies on that for
    paths without a drive letter. */
module FilePathClass {
  import opened FilePaths
  import opened PathComponents

  const NPOS: nat := 0xFFFF_FFFF_FFFF_FFFF

  /** size_t addition. */
  function SizeAdd(a: nat, k: nat): nat {
    if a + k <= NPOS then a + k else (a + k) % (NPOS + 1)
  }

  function FindDriveLetter(path: string): nat {
    if |path| >= 2 && path[1] == ':' && ('A' <= path[0] <= 'Z' || 'a' <= path[0] <= 'z') then 1 else NPOS
  }

  /** path.find_last_of(kSeparators). */
  function FindLastSeparator(path: string): nat {
    if BaseStart(path) == 0 then NPOS else BaseStart(path) - 1
  }

  function ToLower(c: char): char {
    if 'A' <= c <= 'Z' then c - 'A' + 'a' else c
  }

  predicate EqualDriveLetterCaseInsensitive(a: string, b: string) {
    var aLetter, bLetter := FindDriveLetter(a), FindDriveLetter(b);
    if aLetter == NPOS || bLetter == NPOS then a == b
    else ToLower(a[0]) == ToLower(b[0]) && a[aLetter + 1..] == b[bLetter + 1..]
  }

  predicate IsPathAbsolute(path: string) {
    var letter := FindDriveLetter(path);
    if letter != NPOS then |path| > letter + 1 && IsSeparator(path[letter + 1])
    else |path| > 1 && IsSeparator(path[0]) && IsSeparator(path[1])
  }

  // ----- absolute paths and their parents -----

  lemma AbsoluteByDrive(p: string)
    ensures HasDrive(p) ==> (IsPathAbsolute(p) <==> |p| > 2 && IsSeparator(p[2]))
    ensures !HasDrive(p) ==> (IsPathAbsolute(p) <==> |p| > 1 && IsSeparator(p[0]) && IsSeparator(p[1]))
  {
  }

  /** Without a drive, three separators or more are cut down to one: when they are all
      there is, or when one name stands behind four or more. */
  predicate LosesItsRoot(p: string) {
    var s := Strip(p);
    !HasDrive(p) && if OnlyRoot(p) then |p| >= 3 else BaseStart(s) >= 4 && AllSeparators(s[..BaseStart(s)])
  }

  lemma AbsoluteStrip(p: string)
    ensures IsPathAbsolute(Strip(p)) <==> IsPathAbsolute(p) && !(!HasDrive(p) && OnlyRoot(p) && |p| >= 3)
  {
    StripIsPrefix(p);
    AbsoluteByDrive(p);
    AbsoluteByDrive(Strip(p));
  }

  /** What DirName keeps of a stripped path is absolute exactly if the path is. */
  lemma AbsoluteCut(s: string)
    requires Strip(s) == s
    ensures HasDrive(s[..DirCut(s)]) <==> HasDrive(s)
    ensures IsPathAbsolute(s[..DirCut(s)]) <==> IsPathAbsolute(s)
  {
    StripFixpoints(s);
    AbsoluteByDrive(s);
    AbsoluteByDrive(s[..DirCut(s)]);
  }

  lemma CutLosesItsRoot(s: string)
    requires Strip(s) == s && IsPathAbsolute(s)
    ensures var u := s[..DirCut(s)];
            (!HasDrive(u) && OnlyRoot(u) && |u| >= 3) <==> LosesItsRoot(s)
  {
    StripFixpoints(s);
    AbsoluteByDrive(s);
  }

  lemma SameLoss(p: string)
    requires IsPathAbsolute(Strip(p))
    ensures LosesItsRoot(Strip(p)) <==> LosesItsRoot(p)
  {
    StripIsIdempotent(p);
    StripIsPrefix(p);
    AbsoluteStrip(p);
  }

  /** The parent of a path is absolute if and only if the path is, and does not lose its
      root. */
  lemma ParentOfAbsolute(p: string)
    ensures IsPathAbsolute(FilePaths.DirName(p)) <==> IsPathAbsolute(p) && !LosesItsRoot(p)
  {
    hide Strip, BaseStart, IsPathAbsolute, LosesItsRoot, DirCut, HasDrive;
    var s := Strip(p);
    var u := s[..DirCut(s)];
    StripIsIdempotent(p);
    AbsoluteStrip(p);
    AbsoluteCut(s);
    AbsoluteStrip(u);
    RelativeExamples();
    if IsPathAbsolute(s) {
      SameLoss(p);
      CutLosesItsRoot(s);
    } else if IsPathAbsolute(p) {
      AllSlashesLost(p);
    }
  }

  lemma AllSlashesLost(p: string)
    requires !HasDrive(p) && OnlyRoot(p) && |p| >= 3
    ensures LosesItsRoot(p)
  {
  }

  lemma RelativeExamples()
    ensures !IsPathAbsolute("") && !IsPathAbsolute(CURRENT_DIRECTORY)
  {
  }

  // ----- what the loop of StripTrailingSeparatorsInternal leaves -----

  lemma TrimEnds(p: string, pos: nat)
    requires 0 < pos <= |p| && SeparatorsFrom(p, pos) && !IsSeparator(p[pos - 1])
    ensures Trim(p) == p[..pos]
  {
    var t := Trim(p);
    assert t == p[..|t|];
  }

  lemma LoopResult(p: string, pos: nat)
    requires pos <= |p| && SeparatorsFrom(p, pos)
    requires var start := DriveLength(p) + 1;
             || (pos > start && !IsSeparator(p[pos - 1]))
             || (pos == |p| <= start)
             || (pos == start < |p| && !(|p| == start + 1 && IsSeparator(p[start - 1])))
    ensures Strip(p) == p[..pos]
  {
    var d := DriveLength(p);
    if pos > d && !IsSeparator(p[pos - 1]) {
      TrimEnds(p, pos);
    }
    assert p[..|p|] == p;
  }

  class FilePath {
    var path_: string

    ghost predicate Valid()
      reads this
    {
      |path_| <= MAX_LENGTH && KNUL !in path_
    }

    /** FilePath(const StringType&): everything from the first NUL on is dropped. */
    constructor (path: string)
      requires |path| <= MAX_LENGTH
      ensures Valid() && path_ == UpToNul(path)
    {
      path_ := UpToNul(path);
    }

    /** The loop runs backwards over path_ and shortens it as it goes. */
    method StripTrailingSeparatorsInternal()
      requires Valid()
      modifies this
      ensures Valid() && path_ == Strip(old(path_))
    {
      ghost var p := path_;
      var start := SizeAdd(FindDriveLetter(path_), 2);
      var lastStripped := NPOS;
      var pos: nat := |path_|;
      ghost var kept := false;
      assert start == DriveLength(p) + 1;
      assert p[..|p|] == p;
      while pos > start && IsSeparator(path_[pos - 1])
        invariant pos <= |p| && SeparatorsFrom(p, pos)
        invariant kept ==> pos == start && path_ == p && |p| == start + 1 && IsSeparator(p[start - 1])
        invariant !kept ==> path_ == p[..pos] && lastStripped == if pos == |p| then NPOS else pos + 1
        invariant !kept && pos <= start < |p| ==> !(|p| == start + 1 && IsSeparator(p[start - 1]))
        invariant pos >= start || pos == |p|
        decreases pos
      {
        if pos != SizeAdd(start, 1) || lastStripped == SizeAdd(start, 2) || !IsSeparator(path_[start - 1]) {
          path_ := path_[..pos - 1];
          lastStripped := pos;
        } else {
          kept := true;
        }
        pos := pos - 1;
      }
      if !kept {
        LoopResult(p, pos);
      }
    }

    method StripTrailingSeparators() returns (newPath: FilePath)
      requires Valid()
      ensures fresh(newPath) && newPath.Valid() && newPath.path_ == Strip(path_)
    {
      newPath := new FilePath(path_);
      newPath.StripTrailingSeparatorsInternal();
    }

    method DirName() returns (newPath: FilePath)
      requires Valid()
      ensures fresh(newPath) && newPath.Valid() && newPath.path_ == FilePaths.DirName(path_)
    {
      newPath := StripTrailingSeparators();
      ghost var s := newPath.path_;
      StripIsPrefix(path_);
      var letter := FindDriveLetter(newPath.path_);
      var lastSeparator := FindLastSeparator(newPath.path_);
      DriveHasNoSeparator(s);
      if lastSeparator == NPOS {
        newPath.path_ := newPath.path_[..SizeAdd(letter, 1)];
      } else if lastSeparator == SizeAdd(letter, 1) {
        newPath.path_ := newPath.path_[..SizeAdd(letter, 2)];
      } else if lastSeparator == SizeAdd(letter, 2) && IsSeparator(newPath.path_[SizeAdd(letter, 1)]) {
        newPath.path_ := newPath.path_[..SizeAdd(letter, 3)];
      } else if lastSeparator != 0 {
        newPath.path_ := newPath.path_[..lastSeparator];
      }
      assert newPath.path_ == s[..DirCut(s)];
      newPath.StripTrailingSeparatorsInternal();
      StripIsPrefix(s[..DirCut(s)]);
      if |newPath.path_| == 0 {
        newPath.path_ := CURRENT_DIRECTORY;
      }
    }

    method BaseName() returns (newPath: FilePath)
      requires Valid()
      ensures fresh(newPath) && newPath.Valid() && newPath.path_ == FilePaths.BaseName(path_)
    {
      newPath := StripTrailingSeparators();
      ghost var s := newPath.path_;
      var letter := FindDriveLetter(newPath.path_);
      if letter != NPOS {
        newPath.path_ := newPath.path_[letter + 1..];
      }
      assert newPath.path_ == s[DriveLength(s)..];
      var lastSeparator := FindLastSeparator(newPath.path_);
      if lastSeparator != NPOS && lastSeparator < |newPath.path_| - 1 {
        newPath.path_ := newPath.path_[lastSeparator + 1..];
      }
    }

    /** The DCHECK on an absolute component is the caller's duty. */
    method Append(component: string) returns (newPath: FilePath)
      requires Valid() && |path_| + 1 + |component| <= MAX_LENGTH
      requires !IsPathAbsolute(UpToNul(component))
      ensures fresh(newPath) && newPath.Valid() && newPath.path_ == FilePaths.Append(path_, component)
    {
      var appended := UpToNul(component);
      if path_ == CURRENT_DIRECTORY {
        newPath := new FilePath(appended);
        return;
      }
      newPath := StripTrailingSeparators();
      StripIsPrefix(path_);
      if |appended| > 0 && |newPath.path_| > 0 {
        if !IsSeparator(newPath.path_[|newPath.path_| - 1]) {
          if SizeAdd(FindDriveLetter(newPath.path_), 1) != |newPath.path_| {
            newPath.path_ := newPath.path_ + "\\";
          }
        }
      }
      assert newPath.path_ == Strip(path_) + "" || newPath.path_ == Strip(path_) + "\\";
      newPath.path_ := newPath.path_ + appended;
    }

    /** Lines 158 to 160: the base name is pushed unless it is only separators. */
    method PushBase(collected: seq<string>) returns (all: seq<string>)
      requires Valid() && FilePaths.DirName(path_) != path_
      ensures Chain(path_) + Reversed(collected) == Chain(FilePaths.DirName(path_)) + Reversed(all)
    {
      var base := BaseName();
      all := collected;
      if !AllSeparators(base.path_) {
        all := all + [base.path_];
      }
      ghost var here := !AllSeparators(base.path_);
      ChainUnfold(path_, base.path_, FilePaths.DirName(path_));
      PushOne(collected, here, base.path_, all);
      Assoc(Chain(FilePaths.DirName(path_)), Optional(here, base.path_), Reversed(collected));
    }

    /** Lines 164 to 174: the root, then the drive. */
    method PushRoot(dir: FilePath, collected: seq<string>) returns (all: seq<string>)
      requires Valid() && dir.path_ == FilePaths.DirName(path_) == path_
      ensures Reversed(all) == Chain(path_) + Reversed(collected)
    {
      var base := BaseName();
      all := collected;
      if base.path_ != "" && base.path_ != CURRENT_DIRECTORY {
        all := all + [base.path_];
      }
      ghost var middle := all;
      var letter := FindDriveLetter(dir.path_);
      if letter != NPOS {
        all := all + [dir.path_[..letter + 1]];
      }
      ChainUnfold(path_, base.path_, dir.path_);
      ghost var hasDrive, hasRoot := HasDrive(dir.path_), base.path_ != "" && base.path_ != CURRENT_DIRECTORY;
      ghost var drive := if hasDrive then dir.path_[..2] else "";
      PushOne(collected, hasRoot, base.path_, middle);
      PushOne(middle, hasDrive, drive, all);
      Assoc(Optional(hasDrive, drive), Optional(hasRoot, base.path_), Reversed(collected));
    }

    /** The chain of DirName steps, collected backwards and then reversed. */
    method GetComponents() returns (components: seq<string>)
      requires Valid()
      ensures components == Components(path_)
    {
      components := [];
      if path_ == "" {
        return;
      }
      var collected: seq<string> := [];
      var current := new FilePath(path_);
      var dir := current.DirName();
      DirNameComparison(current.path_);
      assert Chain(path_) == Chain(path_) + [];
      while !EqualDriveLetterCaseInsensitive(current.path_, dir.path_)
        invariant current.Valid() && dir.Valid() && dir.path_ == FilePaths.DirName(current.path_)
        invariant Chain(path_) == Chain(current.path_) + Reversed(collected)
        invariant EqualDriveLetterCaseInsensitive(current.path_, dir.path_) <==> current.path_ == dir.path_
        decreases Height(current.path_)
      {
        HeightFalls(current.path_);
        collected := current.PushBase(collected);
        current := dir;
        dir := current.DirName();
        DirNameComparison(current.path_);
      }
      collected := current.PushRoot(dir, collected);
      components := ReverseOf(collected);
    }

    /** A path refers to its parent when some component reads as ".."; the search for
        ".." in the whole path only saves work. */
    method ReferencesParent() returns (result: bool)
      requires Valid()
      ensures result <==> exists c :: c in Components(path_) && ReadsAsParent(c)
    {
      var found := Find(path_, PARENT_DIRECTORY);
      if !found {
        EarlyExitAgrees(path_);
        return false;
      }
      var components := GetComponents();
      result := AnyReadsAsParent(components);
    }
  }

  method AnyReadsAsParent(components: seq<string>) returns (result: bool)
    ensures result <==> exists c :: c in components && ReadsAsParent(c)
  {
    result := false;
    for i := 0 to |components|
      invariant forall j :: 0 <= j < i ==> !ReadsAsParent(components[j])
    {
      var plain := OnlyDotsAndBlanks(components[i]);
      var marked := Find(components[i], PARENT_DIRECTORY);
      if plain && marked {
        assert components[i] in components && ReadsAsParent(components[i]);
        return true;
      }
    }
  }

  function Optional(present: bool, part: string): seq<string> {
    if present then [part] else []
  }

  /** Pushing at the back of the collected parts is adding in front of the result. */
  lemma PushIsPrepend(parts: seq<string>, present: bool, part: string)
    ensures Reversed(parts + Optional(present, part)) == Optional(present, part) + Reversed(parts)
  {
    if present {
      assert (parts + [part])[..|parts|] == parts;
    } else {
      assert parts + [] == parts;
    }
  }

  lemma Assoc(a: seq<string>, b: seq<string>, c: seq<string>)
    ensures a + b + c == a + (b + c)
  {
  }

  lemma PushOne(parts: seq<string>, present: bool, part: string, all: seq<string>)
    requires all == if present then parts + [part] else parts
    ensures Reversed(all) == Optional(present, part) + Reversed(parts)
  {
    assert all == parts + Optional(present, part);
    PushIsPrepend(parts, present, part);
  }

  lemma ChainUnfold(p: string, base: string, dir: string)
    requires base == FilePaths.BaseName(p) && dir == FilePaths.DirName(p)
    ensures dir != p ==> Chain(p) == Chain(dir) + Optional(!AllSeparators(base), base)
    ensures dir == p ==>
      Chain(p) == Optional(HasDrive(dir), if HasDrive(dir) then dir[..2] else "")
                + Optional(base != "" && base != CURRENT_DIRECTORY, base)
  {
  }

  function Reversed(parts: seq<string>): seq<string> {
    if parts == [] then [] else [parts[|parts| - 1]] + Reversed(parts[..|parts| - 1])
  }

  /** vector(rbegin, rend). */
  method ReverseOf(parts: seq<string>) returns (r: seq<string>)
    ensures r == Reversed(parts)
  {
    r := [];
    var i := 0;
    while i < |parts|
      invariant 0 <= i <= |parts| && r == Reversed(parts[..i])
    {
      assert parts[..i + 1][..i] == parts[..i];
      r := [parts[i]] + r;
      i := i + 1;
    }
    assert parts[..|parts|] == parts;
  }

  /** path.find(mark) != npos. */
  method Find(s: string, mark: string) returns (found: bool)
    ensures found <==> Occurs(mark, s)
  {
    found := false;
    var i: nat := 0;
    while i + |mark| <= |s|
      invariant forall j: nat :: j < i ==> !OccursAt(mark, s, j)
      decreases |s| - i
    {
      if s[i..i + |mark|] == mark {
        assert OccursAt(mark, s, i);
        return true;
      }
      i := i + 1;
    }
  }

  /** component.find_first_not_of(". \n\r\t") == npos. */
  method OnlyDotsAndBlanks(s: string) returns (yes: bool)
    ensures yes <==> forall i :: 0 <= i < |s| ==> IsDotOrBlank(s[i])
  {
    yes := true;
    for i := 0 to |s|
      invariant yes && forall j :: 0 <= j < i ==> IsDotOrBlank(s[j])
    {
      if !IsDotOrBlank(s[i]) {
        return false;
      }
    }
  }

  /** The loop of GetComponents compares drives without case.  DirName keeps the
      drive as it is, so the comparison means equality. */
  lemma DirNameComparison(p: string)
    ensures EqualDriveLetterCaseInsensitive(p, FilePaths.DirName(p)) <==> p == FilePaths.DirName(p)
  {
    DirNameShrinks(p);
    var q := FilePaths.DirName(p);
    if HasDrive(p) {
      assert q[0] == p[0] && q[1] == p[1];
      if p[2..] == q[2..] {
        assert p == p[..2] + p[2..] && q == q[..2] + q[2..];
        assert p[..2] == q[..2];
      }
    }
  }
}
