/** CreateDirectoryAndGetError over an abstract file system: a map from path values
    to files and directories, which other processes may add to at any time, and
    whose create call may be refused for any reason. */
module CreateDirectories {
  import opened FilePaths

  datatype Node = Directory | File

  const ERROR_ALREADY_EXISTS: nat := 183
  const ERROR_PATH_NOT_FOUND: nat := 3

  datatype Error = FileOk | NotADirectory | NotFound | FromOs(code: nat)

  datatype Option<T> = None | Some(value: T)

  /** What happens just before the n-th call to the system: others add entries, and
      if the call creates something it may be refused with an error code. */
  datatype Turn = Turn(additions: map<string, Node>, refusal: Option<nat>)

  /** Others only add; they do not replace what is there. */
  function Grown(nodes: map<string, Node>, additions: map<string, Node>): map<string, Node> {
    additions + nodes
  }

  ghost predicate IsDirectory(nodes: map<string, Node>, p: string) {
    p in nodes && nodes[p] == Directory
  }

  /** The path reached by `k` steps of DirName. */
  function Ancestor(p: string, k: nat): string
    decreases k
  {
    if k == 0 then p else Ancestor(DirName(p), k - 1)
  }

  /** The path itself and its first `k` ancestors are all directories. */
  ghost predicate ChainOfDirectories(nodes: map<string, Node>, p: string, k: nat)
    decreases k
  {
    IsDirectory(nodes, p) && (k > 0 ==> ChainOfDirectories(nodes, DirName(p), k - 1))
  }

  lemma {:induction false} ChainMeansAll(nodes: map<string, Node>, p: string, k: nat, j: nat)
    requires ChainOfDirectories(nodes, p, k) && j <= k
    ensures IsDirectory(nodes, Ancestor(p, j))
    decreases j
  {
    if j > 0 {
      ChainMeansAll(nodes, DirName(p), k - 1, j - 1);
    }
  }

  lemma {:induction false} ChainSurvivesGrowth(nodes: map<string, Node>, more: map<string, Node>, p: string, k: nat)
    requires ChainOfDirectories(nodes, p, k)
    requires forall q :: q in nodes ==> q in more && more[q] == nodes[q]
    ensures ChainOfDirectories(more, p, k)
    decreases k
  {
    if k > 0 {
      ChainSurvivesGrowth(nodes, more, DirName(p), k - 1);
    }
  }

  // ----- what was looked at on the way up -----

  /** Nothing is removed or replaced. */
  ghost predicate GrowsTo(before: map<string, Node>, after: map<string, Node>) {
    forall q :: q in before ==> q in after && after[q] == before[q]
  }

  /** `looks` are the states of the file system in which the path and then its ancestors
      were looked up, one after the other: each lookup but the last found nothing. */
  ghost predicate LookedUp(before: map<string, Node>, p: string, looks: seq<map<string, Node>>, after: map<string, Node>)
    decreases |looks|
  {
    looks != [] && GrowsTo(before, looks[0]) &&
    if |looks| == 1 then GrowsTo(looks[0], after)
    else p !in looks[0] && LookedUp(looks[0], DirName(p), looks[1..], after)
  }

  /** What the last lookup found, for the ancestor it was made for. */
  function Found(p: string, looks: seq<map<string, Node>>): Option<Node>
    requires looks != []
  {
    var k := |looks| - 1;
    if Ancestor(p, k) in looks[k] then Some(looks[k][Ancestor(p, k)]) else None
  }

  /** What follows from what the last lookup found: a file there, or nothing at a path
      that is its own parent, is the error reported. */
  ghost predicate Explained(p: string, looks: seq<map<string, Node>>, error: Error)
    requires looks != []
  {
    match Found(p, looks)
    case None => error == NotFound && DirName(Ancestor(p, |looks| - 1)) == Ancestor(p, |looks| - 1)
    case Some(File) => error == NotADirectory
    case Some(Directory) => true
  }

  lemma {:induction false} LookedUpLater(before: map<string, Node>, p: string, looks: seq<map<string, Node>>,
                                         middle: map<string, Node>, after: map<string, Node>)
    requires LookedUp(before, p, looks, middle) && GrowsTo(middle, after)
    ensures LookedUp(before, p, looks, after)
    decreases |looks|
  {
    if |looks| > 1 {
      LookedUpLater(looks[0], DirName(p), looks[1..], middle, after);
    }
  }

  /** Each lookup in terms of the original path. */
  lemma {:induction false} LookedUpAt(before: map<string, Node>, p: string, looks: seq<map<string, Node>>,
                                      after: map<string, Node>, j: nat)
    requires LookedUp(before, p, looks, after) && j < |looks|
    ensures GrowsTo(before, looks[j]) && GrowsTo(looks[j], after)
    ensures j < |looks| - 1 ==> Ancestor(p, j) !in looks[j] && GrowsTo(looks[j], looks[j + 1])
    decreases |looks|
  {
    if |looks| > 1 {
      LookedUpAt(looks[0], DirName(p), looks[1..], after, if j == 0 then 0 else j - 1);
    }
  }

  lemma LookedUpHere(before: map<string, Node>, p: string, look: map<string, Node>, looks: seq<map<string, Node>>,
                     after: map<string, Node>)
    requires GrowsTo(before, look) && LookedUp(look, DirName(p), looks, after) && p !in look
    ensures LookedUp(before, p, [look] + looks, after)
  {
    assert ([look] + looks)[1..] == looks;
  }

  lemma FoundByParent(p: string, look: map<string, Node>, looks: seq<map<string, Node>>)
    requires looks != []
    ensures Found(p, [look] + looks) == Found(DirName(p), looks)
    ensures Ancestor(p, |[look] + looks| - 1) == Ancestor(DirName(p), |looks| - 1)
  {
  }

  lemma ExplainedByParent(p: string, look: map<string, Node>, looks: seq<map<string, Node>>, error: Error)
    requires looks != [] && Explained(DirName(p), looks, error)
    ensures Explained(p, [look] + looks, error)
  {
    FoundByParent(p, look, looks);
  }

  /** When the last lookup found a directory, every error is one of creating. */
  lemma ExplainedAnyway(p: string, looks: seq<map<string, Node>>, error: Error)
    requires looks != [] && Explained(p, looks, FileOk)
    ensures Explained(p, looks, error)
  {
  }

  /** A call that looks no further up. */
  lemma LookedUpOnce(before: map<string, Node>, p: string, look: map<string, Node>)
    requires GrowsTo(before, look)
    ensures LookedUp(before, p, [look], look)
    ensures Found(p, [look]) == if p in look then Some(look[p]) else None
    ensures IsDirectory(look, p) ==> Explained(p, [look], FileOk) && ChainOfDirectories(look, p, 0)
    ensures p in look && look[p] == File ==> Explained(p, [look], NotADirectory)
    ensures p !in look && DirName(p) == p ==> Explained(p, [look], NotFound)
  {
    hide DirName;
  }

  // ----- the undisturbed case, as a function -----

  /** The nearest path on the DirName chain that exists. */
  function FirstExisting(nodes: map<string, Node>, p: string): (q: Option<string>)
    ensures q.Some? ==> q.value in nodes
    decreases Height(p)
  {
    if p in nodes then Some(p)
    else if DirName(p) == p then None
    else
      HeightFalls(p);
      FirstExisting(nodes, DirName(p))
  }

  /** The paths before it, which have to be created. */
  function Missing(nodes: map<string, Node>, p: string): set<string>
    decreases Height(p)
  {
    if p in nodes || DirName(p) == p then {}
    else
      HeightFalls(p);
      {p} + Missing(nodes, DirName(p))
  }

  function WithDirectories(nodes: map<string, Node>, paths: set<string>): map<string, Node> {
    nodes + map p | p in paths :: Directory
  }

  lemma {:induction false} MissingAreBelow(nodes: map<string, Node>, p: string, q: string)
    requires q in Missing(nodes, p)
    ensures Height(q) <= Height(p) && q !in nodes
    decreases Height(p)
  {
    HeightFalls(p);
    if q != p {
      MissingAreBelow(nodes, DirName(p), q);
    }
  }

  /** What an undisturbed call does: it succeeds exactly when the nearest existing
      path of the chain is a directory, and then it adds exactly the missing ones. */
  ghost predicate Expected(before: map<string, Node>, p: string, error: Error, after: map<string, Node>) {
    match FirstExisting(before, p)
    case None => error == NotFound && after == before
    case Some(q) =>
      if before[q] == File then error == NotADirectory && after == before
      else error == FileOk && after == WithDirectories(before, Missing(before, p))
  }

  lemma ExpectedWhenPresent(nodes: map<string, Node>, p: string)
    requires p in nodes
    ensures Expected(nodes, p, if nodes[p] == Directory then FileOk else NotADirectory, nodes)
    ensures Missing(nodes, p) == {}
  {
    assert WithDirectories(nodes, {}) == nodes;
  }

  lemma ExpectedAtTheTop(nodes: map<string, Node>, p: string)
    requires p !in nodes && DirName(p) == p
    ensures Expected(nodes, p, NotFound, nodes)
  {
  }

  lemma ExpectedWhenParentFails(before: map<string, Node>, p: string, error: Error, after: map<string, Node>)
    requires p !in before && DirName(p) != p && error != FileOk
    requires Expected(before, DirName(p), error, after)
    ensures Expected(before, p, error, after)
  {
  }

  /** Creating the path in what the recursion for its parent left. */
  lemma ExpectedAfterParent(before: map<string, Node>, p: string, middle: map<string, Node>)
    requires p !in before && DirName(p) != p
    requires Expected(before, DirName(p), FileOk, middle)
    ensures IsDirectory(middle, DirName(p)) && p !in middle
    ensures Expected(before, p, FileOk, middle[p := Directory])
    ensures |Missing(before, p)| == |Missing(before, DirName(p))| + 1
  {
    MissingStep(before, p);
    ParentGetsMade(before, DirName(p));
    MakeOneMore(before, Missing(before, DirName(p)), p);
  }

  lemma MissingStep(before: map<string, Node>, p: string)
    requires p !in before && DirName(p) != p
    ensures var missing := Missing(before, DirName(p));
            p !in missing && Missing(before, p) == {p} + missing && |{p} + missing| == |missing| + 1
  {
    NotItsOwnAncestor(before, p);
  }

  lemma NotItsOwnAncestor(before: map<string, Node>, p: string)
    requires DirName(p) != p
    ensures p !in Missing(before, DirName(p))
  {
    var missing := Missing(before, DirName(p));
    HeightFalls(p);
    forall q | q in missing
      ensures q != p
    {
      MissingAreBelow(before, DirName(p), q);
    }
  }

  lemma MakeOneMore(before: map<string, Node>, missing: set<string>, p: string)
    ensures WithDirectories(before, missing)[p := Directory] == WithDirectories(before, {p} + missing)
    ensures p !in before && p !in missing ==> p !in WithDirectories(before, missing)
  {
  }

  lemma ParentGetsMade(before: map<string, Node>, p: string)
    requires FirstExisting(before, p).Some? && before[FirstExisting(before, p).value] == Directory
    ensures IsDirectory(WithDirectories(before, Missing(before, p)), p)
  {
    if p !in before {
      assert p in Missing(before, p);
    }
  }

  // ----- the calls to the system -----

  /** What the create call answers on the file system that it finds: an error code, or
      None if it makes the directory. */
  function CreateCode(refusal: Option<nat>, nodes: map<string, Node>, path: string): Option<nat> {
    if refusal != None then refusal
    else if !(DirName(path) in nodes && nodes[DirName(path)] == Directory) then Some(ERROR_PATH_NOT_FOUND)
    else if path in nodes then Some(ERROR_ALREADY_EXISTS)
    else None
  }

  /** A create call: for which path, and its answer. */
  datatype Attempt = Attempt(path: string, code: Option<nat>)

  /** The directories to be made for a path, the highest first. */
  function Upwards(p: string, k: nat): seq<string>
    decreases k
  {
    if k == 0 then [] else Upwards(DirName(p), k - 1) + [p]
  }

  function Paths(attempts: seq<Attempt>): seq<string> {
    seq(|attempts|, i requires 0 <= i < |attempts| => attempts[i].path)
  }

  lemma PathsGrow(attempts: seq<Attempt>, a: Attempt)
    ensures Paths(attempts + [a]) == Paths(attempts) + [a.path]
  {
  }

  function LastCode(attempts: seq<Attempt>): Option<nat> {
    if attempts == [] then None else attempts[|attempts| - 1].code
  }

  lemma NothingUpwards(p: string, attempts: seq<Attempt>)
    ensures Paths(attempts) == Paths(attempts) + Upwards(p, 0)
  {
  }

  lemma OneMoreUpwards(p: string, k: nat, before: seq<string>, asked: seq<Attempt>, a: Attempt)
    requires Paths(asked) == before + Upwards(DirName(p), k) && a.path == p
    ensures Paths(asked + [a]) == before + Upwards(p, k + 1)
  {
    hide Paths;
    PathsGrow(asked, a);
    assert (before + Upwards(DirName(p), k)) + [p] == before + (Upwards(DirName(p), k) + [p]);
  }

  class FileSystem {
    var nodes: map<string, Node>
    var calls: nat
    const world: nat -> Turn
    /** The create calls so far. */
    ghost var attempts: seq<Attempt>

    constructor (nodes: map<string, Node>, world: nat -> Turn)
      ensures this.nodes == nodes && this.world == world && attempts == []
    {
      this.nodes := nodes;
      this.world := world;
      calls := 0;
      attempts := [];
    }

    /** Nobody else uses the file system, and it refuses nothing on its own. */
    ghost predicate Undisturbed() {
      forall n :: world(n) == Turn(map[], None)
    }

    /** Nothing is refused without reason, and others make directories only. */
    ghost predicate Friendly() {
      forall n :: world(n).refusal == None && forall q :: q in world(n).additions ==> world(n).additions[q] == Directory
    }

    twostate predicate OnlyGrew()
      reads this
    {
      forall q :: q in old(nodes) ==> q in nodes && nodes[q] == old(nodes[q])
    }

    /** What was not there before is a directory now. */
    twostate predicate OnlyDirectoriesCame()
      reads this
    {
      forall q :: q in nodes && q !in old(nodes) ==> nodes[q] == Directory
    }

    /** GetFileAttributes. */
    method GetFileAttributes(path: string) returns (node: Option<Node>)
      modifies this`nodes, this`calls
      ensures nodes == Grown(old(nodes), world(old(calls)).additions) && calls == old(calls) + 1
      ensures OnlyGrew() && (Friendly() ==> OnlyDirectoriesCame())
      ensures node == if path in nodes then Some(nodes[path]) else None
    {
      nodes := Grown(nodes, world(calls).additions);
      calls := calls + 1;
      node := if path in nodes then Some(nodes[path]) else None;
    }

    /** CreateDirectory: needs a parent directory and a free name. */
    method CreateDirectory(path: string) returns (code: Option<nat>)
      modifies this
      ensures var found := Grown(old(nodes), world(old(calls)).additions);
              && code == CreateCode(world(old(calls)).refusal, found, path)
              && nodes == if code == None then found[path := Directory] else found
      ensures OnlyGrew() && (Friendly() ==> OnlyDirectoriesCame()) && calls == old(calls) + 1
      ensures attempts == old(attempts) + [Attempt(path, code)]
    {
      var turn := world(calls);
      nodes := Grown(nodes, turn.additions);
      calls := calls + 1;
      if turn.refusal != None {
        code := turn.refusal;
      } else if !(DirName(path) in nodes && nodes[DirName(path)] == Directory) {
        code := Some(ERROR_PATH_NOT_FOUND);
      } else if path in nodes {
        code := Some(ERROR_ALREADY_EXISTS);
      } else {
        nodes := nodes[path := Directory];
        code := None;
      }
      attempts := attempts + [Attempt(path, code)];
    }

    /** The recursion of file_util_win.cc.  `looks` are the file systems it saw on its way
        up the DirName chain, whoever else was changing them.  Each lookup but the last
        found nothing; on success the last one found a directory, the missing ones were
        asked for one by one, the highest first, and the path and all its ancestors up to
        the one found are directories now.  After a directory was found, a failure carries
        the code of the create call that was refused, and there is none if nothing is
        refused and others make directories only. */
    method CreateDirectoryAndGetError(fullPath: string)
      returns (ok: bool, error: Error, ghost looks: seq<map<string, Node>>)
      modifies this
      ensures OnlyGrew() && (Friendly() ==> OnlyDirectoriesCame())
      ensures ok <==> error == FileOk
      ensures looks != [] && LookedUp(old(nodes), fullPath, looks, nodes) && Explained(fullPath, looks, error)
      ensures ok ==> ChainOfDirectories(nodes, fullPath, |looks| - 1)
      ensures old(attempts) <= attempts
      ensures ok ==> Paths(attempts) == Paths(old(attempts)) + Upwards(fullPath, |looks| - 1)
      ensures !ok && Found(fullPath, looks) == Some(Directory) ==>
        attempts != old(attempts) && LastCode(attempts) != None && error == FromOs(LastCode(attempts).value)
      ensures Found(fullPath, looks) != Some(Directory) ==> !ok && attempts == old(attempts)
      ensures Friendly() && Found(fullPath, looks) == Some(Directory) ==> ok
      ensures Undisturbed() ==> Expected(old(nodes), fullPath, error, nodes)
      ensures Undisturbed() && ok ==> |looks| - 1 == |Missing(old(nodes), fullPath)|
      decreases Height(fullPath)
    {
      hide LookedUp, Found, Explained, Expected, ChainOfDirectories, Missing, DirName, Upwards, Paths;
      var attributes := GetFileAttributes(fullPath);
      ghost var seen := nodes;
      looks := [seen];
      LookedUpOnce(old(nodes), fullPath, seen);
      QuietTurns();
      if attributes != None {
        ExpectedWhenPresent(nodes, fullPath);
        NothingUpwards(fullPath, attempts);
        if attributes.value == Directory {
          return true, FileOk, looks;
        }
        return false, NotADirectory, looks;
      }
      var parentPath := DirName(fullPath);
      if parentPath == fullPath {
        ExpectedAtTheTop(nodes, fullPath);
        return false, NotFound, looks;
      }
      HeightFalls(fullPath);
      ghost var above;
      ok, error, above := CreateDirectoryAndGetError(parentPath);
      looks := [seen] + above;
      ExplainedByParent(fullPath, seen, above, error);
      FoundByParent(fullPath, seen, above);
      LookedUpHere(old(nodes), fullPath, seen, above, nodes);
      if !ok {
        if Undisturbed() {
          ExpectedWhenParentFails(seen, fullPath, error, nodes);
        }
        return false, error, looks;
      }
      if Undisturbed() {
        ExpectedAfterParent(seen, fullPath, nodes);
      }
      ghost var middle, asked := nodes, attempts;
      ok, error := CreateLast(fullPath, |above| - 1);
      OneMoreUpwards(fullPath, |above| - 1, Paths(old(attempts)), asked, attempts[|asked|]);
      ExplainedAnyway(fullPath, looks, error);
      LookedUpLater(old(nodes), fullPath, looks, middle, nodes);
    }

    /** Lines 91 to 106: the verdict is that of the create call, but for a lost race to make
        the same directory. */
    method CreateLast(fullPath: string, ghost k: nat) returns (ok: bool, error: Error)
      requires ChainOfDirectories(nodes, DirName(fullPath), k)
      modifies this
      ensures OnlyGrew() && (Friendly() ==> OnlyDirectoriesCame())
      ensures ok <==> error == FileOk
      ensures var code := CreateCode(world(old(calls)).refusal, Grown(old(nodes), world(old(calls)).additions), fullPath);
              && attempts == old(attempts) + [Attempt(fullPath, code)]
              && (ok <==> code == None || (code == Some(ERROR_ALREADY_EXISTS) && IsDirectory(nodes, fullPath)))
              && (!ok ==> error == FromOs(code.value))
      ensures ok ==> ChainOfDirectories(nodes, fullPath, k + 1)
      ensures var turn := world(old(calls));
              turn.refusal == None && IsDirectory(Grown(old(nodes), turn.additions), fullPath) ==> ok
      ensures Friendly() && (fullPath in old(nodes) ==> IsDirectory(old(nodes), fullPath)) ==> ok
      ensures Undisturbed() && fullPath !in old(nodes) ==> ok && nodes == old(nodes)[fullPath := Directory]
    {
      ghost var before := nodes;
      var code := CreateDirectory(fullPath);
      ChainSurvivesGrowth(before, nodes, DirName(fullPath), k);
      if code == None {
        return true, FileOk;
      }
      if code.value == ERROR_ALREADY_EXISTS {
        var now := GetFileAttributes(fullPath);
        ChainSurvivesGrowth(before, nodes, DirName(fullPath), k);
        if now == Some(Directory) {
          return true, FileOk;
        }
      }
      return false, FromOs(code.value);
    }

    /** An undisturbed file system does not change by itself. */
    lemma QuietTurns()
      ensures Undisturbed() ==> forall before, n :: Grown(before, world(n).additions) == before
    {
      if Undisturbed() {
        forall before: map<string, Node>, n
          ensures Grown(before, world(n).additions) == before
        {
          assert world(n) == Turn(map[], None);
        }
      }
    }
  }
}
