/** The folders of one owner: a forest kept by create, move and delete. */
module FolderForest {

  type Id = string

  /** The parent of each folder; an empty parent means the top level. */
  type Folders = map<Id, Id>

  datatype Answer<T> = Ok(value: T) | NotFound | TooDeep | Cycle

  const MaxDepth := 32
  const MaxSubtree := 10000

  // Walking up.

  /** From `id`, exactly `n` folders are passed on the way to the top level. */
  ghost predicate Reaches(folders: Folders, id: Id, n: nat)
    decreases n
  {
    if n == 0 then id == "" else id != "" && id in folders && Reaches(folders, folders[id], n - 1)
  }

  /** The parent relation is a forest: from every folder the top level is reached. */
  ghost predicate Forest(folders: Folders) {
    "" !in folders && forall id :: id in folders ==> exists n: nat :: Reaches(folders, id, n)
  }

  /** From `x`, `k` steps up lead to `root`. */
  ghost predicate Under(folders: Folders, x: Id, root: Id, k: nat)
    decreases k
  {
    if k == 0 then x == root else x in folders && Under(folders, folders[x], root, k - 1)
  }

  ghost predicate Below(folders: Folders, x: Id, root: Id) {
    exists k: nat :: Under(folders, x, root, k)
  }

  /** A folder and every folder beneath it. */
  ghost function Subtree(folders: Folders, root: Id): set<Id> {
    set x | x in folders && Below(folders, x, root)
  }

  lemma {:induction false} ReachesUnique(folders: Folders, id: Id, n: nat, m: nat)
    requires Reaches(folders, id, n) && Reaches(folders, id, m)
    ensures n == m
    decreases n
  {
    if n > 0 && m > 0 { ReachesUnique(folders, folders[id], n - 1, m - 1); }
  }

  /** The depth of what lies under a folder is its distance plus the folder's own depth. */
  lemma {:induction false} UnderReaches(folders: Folders, x: Id, root: Id, k: nat, n: nat)
    requires "" !in folders && Under(folders, x, root, k) && Reaches(folders, root, n) && root != ""
    ensures Reaches(folders, x, k + n)
    decreases k
  {
    if k > 0 { UnderReaches(folders, folders[x], root, k - 1, n); }
  }

  /** No folder lies under itself. */
  lemma NotUnderItself(folders: Folders, x: Id, k: nat, n: nat)
    requires "" !in folders && Reaches(folders, x, n) && x != "" && Under(folders, x, x, k)
    ensures k == 0
  {
    UnderReaches(folders, x, x, k, n);
    ReachesUnique(folders, x, n, k + n);
  }

  /** depthOf: how many folders there are from `id` up, doubling as an existence check. */
  method DepthOf(folders: Folders, id: Id) returns (r: Answer<nat>)
    requires "" !in folders
    ensures forall d: nat :: r == Ok(d) <==> Reaches(folders, id, d) && d <= 33
    ensures r == NotFound ==> forall n: nat :: !Reaches(folders, id, n)
    ensures r != Cycle && (id != "" && id !in folders ==> r == NotFound)
  {
    var depth := 0;
    var current := id;
    while current != ""
      invariant 0 <= depth <= MaxDepth + 1 && (depth == 0 ==> current == id) && (depth > 0 ==> id in folders)
      invariant forall n: nat :: Reaches(folders, id, n) <==> n >= depth && Reaches(folders, current, n - depth)
      decreases MaxDepth + 1 - depth
    {
      if depth > MaxDepth {
        return TooDeep;
      }
      if current !in folders {
        return NotFound;
      }
      current := folders[current];
      depth := depth + 1;
    }
    r := Ok(depth);
  }

  ghost predicate ReachesWithin(folders: Folders, id: Id, limit: nat) {
    exists d: nat :: Reaches(folders, id, d) && d <= limit
  }

  lemma TopReached(folders: Folders)
    ensures ReachesWithin(folders, "", MaxDepth + 1)
  {
    var d: nat := 0;
    assert Reaches(folders, "", d);
  }

  /** checkMove: refuses a move that would make a folder its own ancestor. */
  method CheckMove(folders: Folders, id: Id, newParent: Id) returns (r: Answer<()>)
    requires "" !in folders && id != ""
    ensures r.Ok? <==> ReachesWithin(folders, newParent, 33) && !Below(folders, newParent, id)
    ensures r == Cycle ==> Below(folders, newParent, id)
  {
    if newParent == "" {
      TopReached(folders);
      assert forall k: nat :: !Under(folders, "", id, k);
      assert !Below(folders, newParent, id);
      return Ok(());
    }
    if newParent == id {
      assert Under(folders, newParent, id, 0);
      return Cycle;
    }
    var current := newParent;
    var depth := 0;
    while current != ""
      invariant 0 <= depth <= MaxDepth + 1
      invariant forall n: nat :: Reaches(folders, newParent, n) <==> n >= depth && Reaches(folders, current, n - depth)
      invariant forall k: nat ::
        Under(folders, newParent, id, k) <==> k >= depth && Under(folders, current, id, k - depth)
      decreases MaxDepth + 1 - depth
    {
      if depth > MaxDepth {
        assert forall n: nat :: Reaches(folders, newParent, n) ==> n > MaxDepth + 1;
        return TooDeep;
      }
      if current == id {
        assert Under(folders, newParent, id, depth);
        return Cycle;
      }
      if current !in folders {
        assert forall n: nat :: !Reaches(folders, newParent, n);
        return NotFound;
      }
      current := folders[current];
      depth := depth + 1;
    }
    assert Reaches(folders, newParent, depth);
    forall k: nat ensures !Under(folders, newParent, id, k) {
      if k >= depth { assert !Under(folders, current, id, k - depth); }
    }
    assert !Below(folders, newParent, id);
    assert ReachesWithin(folders, newParent, MaxDepth + 1);
    r := Ok(());
  }

  // Edits.

  /** The folders, and the folder each saved connection is in. */
  datatype Tree = Tree(folders: Folders, sessions: map<Id, Id>)

  datatype Edit =
    | Create(id: Id, parent: Id)
    | Move(id: Id, parent: Id)
    | Delete(id: Id)
    | DeleteRecursive(id: Id)
    | Save(session: Id, folder: Id)

  ghost predicate Empty(t: Tree, id: Id) {
    (forall x :: x in t.folders ==> t.folders[x] != id) && (forall x :: x in t.sessions ==> t.sessions[x] != id)
  }

  ghost predicate Accepts(t: Tree, e: Edit) {
    match e
    case Create(_, parent) => ReachesWithin(t.folders, parent, MaxDepth - 2)
    case Move(id, parent) =>
      id in t.folders
      && (parent == t.folders[id] || (ReachesWithin(t.folders, parent, MaxDepth + 1) && !Below(t.folders, parent, id)))
    case Delete(id) => id in t.folders && Empty(t, id)
    case DeleteRecursive(id) => id in t.folders && |Subtree(t.folders, id)| <= MaxSubtree
    case Save(_, folder) => folder == "" || folder in t.folders
  }

  /** Identifiers are minted: not empty, and never used for another folder. */
  ghost predicate Possible(t: Tree, e: Edit) {
    e.Create? ==> e.id != "" && e.id !in t.folders
  }

  ghost function Outside(sessions: map<Id, Id>, gone: set<Id>): map<Id, Id> {
    map x | x in sessions && sessions[x] !in gone :: sessions[x]
  }

  ghost function InFolders(sessions: map<Id, Id>, folders: set<Id>): set<Id> {
    set x | x in sessions && sessions[x] in folders
  }

  ghost function Apply(t: Tree, e: Edit): Tree {
    if !Accepts(t, e) then t
    else
      match e
      case Create(id, parent) => t.(folders := t.folders[id := parent])
      case Move(id, parent) => t.(folders := t.folders[id := parent])
      case Delete(id) => t.(folders := t.folders - {id})
      case DeleteRecursive(id) =>
        var gone := Subtree(t.folders, id);
        Tree(t.folders - gone, Outside(t.sessions, gone))
      case Save(session, folder) => t.(sessions := t.sessions[session := folder])
  }

  ghost predicate Inv(t: Tree) {
    Forest(t.folders) && forall x :: x in t.sessions ==> t.sessions[x] == "" || t.sessions[x] in t.folders
  }

  /** What does not lie under a folder keeps its way up when that folder changes. */
  lemma {:induction false} ReachesAround(folders: Folders, folders': Folders, x: Id, changed: set<Id>, n: nat)
    requires Reaches(folders, x, n) && "" !in changed
    requires forall c, k: nat :: c in changed ==> !Under(folders, x, c, k)
    requires forall y :: y in folders && y !in changed ==> y in folders' && folders'[y] == folders[y]
    ensures Reaches(folders', x, n)
    decreases n
  {
    if n > 0 {
      forall c, k: nat | c in changed ensures !Under(folders, folders[x], c, k) {
        assert !Under(folders, x, c, k + 1);
      }
      assert forall c :: c in changed ==> !Under(folders, x, c, 0);
      ReachesAround(folders, folders', folders[x], changed, n - 1);
    }
  }

  /** What lies under a moved folder is then as deep as the new parent, the folder and the distance add up to. */
  lemma {:induction false} MovedReaches(folders: Folders, id: Id, parent: Id, d: nat, x: Id, k: nat)
    requires "" !in folders && id != "" && Reaches(folders, parent, d) && !Below(folders, parent, id)
    requires Under(folders, x, id, k) && (k > 0 ==> x != id)
    requires forall j: nat :: j < k ==> !Under(folders, x, id, j)
    ensures Reaches(folders[id := parent], x, k + 1 + d)
    decreases k
  {
    if k == 0 {
      assert forall c, j: nat :: c in {id} ==> !Under(folders, parent, c, j);
      ReachesAround(folders, folders[id := parent], parent, {id}, d);
    } else {
      forall j: nat | j < k - 1 ensures !Under(folders, folders[x], id, j) {
        assert !Under(folders, x, id, j + 1);
      }
      assert k > 1 ==> !Under(folders, x, id, 1);
      assert folders[x] == id ==> k == 1 by {
        if folders[x] == id { assert Under(folders, folders[x], id, 0); assert Under(folders, x, id, 1); }
      }
      MovedReaches(folders, id, parent, d, folders[x], k - 1);
    }
  }

  lemma {:induction false} Nearest(folders: Folders, x: Id, root: Id, k: nat) returns (m: nat)
    requires Under(folders, x, root, k)
    ensures m <= k && Under(folders, x, root, m) && forall j: nat :: j < m ==> !Under(folders, x, root, j)
    decreases k
  {
    if x == root {
      m := 0;
    } else {
      var i := Nearest(folders, folders[x], root, k - 1);
      m := i + 1;
      forall j: nat | j < m ensures !Under(folders, x, root, j) {
        if j > 0 { assert !Under(folders, folders[x], root, j - 1); }
      }
    }
  }

  lemma MoveKeepsForest(folders: Folders, id: Id, parent: Id, d: nat)
    requires Forest(folders) && id in folders && Reaches(folders, parent, d) && !Below(folders, parent, id)
    ensures Forest(folders[id := parent])
  {
    var folders' := folders[id := parent];
    forall x | x in folders' ensures exists n: nat :: Reaches(folders', x, n) {
      if Below(folders, x, id) {
        var k: nat :| Under(folders, x, id, k);
        var m := Nearest(folders, x, id, k);
        assert m > 0 ==> !Under(folders, x, id, 0);
        MovedReaches(folders, id, parent, d, x, m);
      } else {
        var n: nat :| Reaches(folders, x, n);
        assert forall c, j: nat :: c in {id} ==> !Under(folders, x, c, j);
        ReachesAround(folders, folders', x, {id}, n);
      }
    }
  }

  /** Removing a set of folders that nothing outside lies under. */
  lemma RemoveKeepsForest(folders: Folders, gone: set<Id>)
    requires Forest(folders) && gone <= folders.Keys
    requires forall x, c, k: nat :: x in folders && x !in gone && c in gone ==> !Under(folders, x, c, k)
    ensures Forest(folders - gone)
  {
    forall x | x in folders - gone ensures exists n: nat :: Reaches(folders - gone, x, n) {
      var n: nat :| Reaches(folders, x, n);
      ReachesAround(folders, folders - gone, x, gone, n);
    }
  }

  /** What lies under a part of a subtree is part of the subtree. */
  lemma {:induction false} UnderUnder(folders: Folders, x: Id, c: Id, k: nat, root: Id, m: nat)
    requires Under(folders, x, c, k) && Under(folders, c, root, m)
    ensures Under(folders, x, root, k + m)
    decreases k
  {
    if k > 0 { UnderUnder(folders, folders[x], c, k - 1, root, m); }
  }

  lemma EditKeeps(t: Tree, e: Edit)
    requires Inv(t) && Possible(t, e)
    ensures Inv(Apply(t, e))
  {
    var folders, folders' := t.folders, Apply(t, e).folders;
    if Accepts(t, e) {
      match e {
        case Create(id, parent) =>
          forall x | x in folders' ensures exists n: nat :: Reaches(folders', x, n) {
            var y := if x == id then parent else x;
            var n: nat :| Reaches(folders, y, n);
            CreatedAround(folders, id, parent, y, n);
            if x == id { assert Reaches(folders', id, n + 1); }
          }
        case Move(id, parent) =>
          if parent == folders[id] {
            assert folders' == folders;
          } else {
            var d: nat :| Reaches(folders, parent, d);
            MoveKeepsForest(folders, id, parent, d);
          }
        case Delete(id) =>
          forall x, c, k: nat | x in folders && x !in {id} && c in {id} ensures !Under(folders, x, c, k) {
            ChildlessAbove(t, x, id, k);
          }
          RemoveKeepsForest(folders, {id});
        case DeleteRecursive(id) =>
          var gone := Subtree(folders, id);
          forall x, c, k: nat | x in folders && x !in gone && c in gone ensures !Under(folders, x, c, k) {
            var m: nat :| Under(folders, c, id, m);
            if Under(folders, x, c, k) { UnderUnder(folders, x, c, k, id, m); }
          }
          RemoveKeepsForest(folders, gone);
        case Save(_, _) =>
      }
    }
  }

  /** A new folder has nothing under it yet. */
  lemma {:induction false} CreatedAround(folders: Folders, id: Id, parent: Id, y: Id, n: nat)
    requires Reaches(folders, y, n) && id !in folders
    ensures Reaches(folders[id := parent], y, n)
    decreases n
  {
    if n > 0 { CreatedAround(folders, id, parent, folders[y], n - 1); }
  }

  lemma {:induction false} ChildlessAbove(t: Tree, x: Id, id: Id, k: nat)
    requires Empty(t, id) && x != id
    ensures !Under(t.folders, x, id, k)
    decreases k
  {
    if k > 0 && x in t.folders { ChildlessAbove(t, t.folders[x], id, k - 1); }
  }

  ghost predicate IsRun(run: seq<Tree>, edits: seq<Edit>) {
    && |run| == |edits| + 1
    && run[0] == Tree(map[], map[])
    && forall i :: 0 <= i < |edits| ==> Possible(run[i], edits[i]) && run[i + 1] == Apply(run[i], edits[i])
  }

  /** Over every run of create, move and delete, the folders are a forest. */
  lemma {:induction false} AlwaysForest(run: seq<Tree>, edits: seq<Edit>, i: nat)
    requires IsRun(run, edits) && i < |run|
    ensures Inv(run[i])
  {
    hide Apply;
    if i > 0 {
      AlwaysForest(run, edits, i - 1);
      EditKeeps(run[i - 1], edits[i - 1]);
    }
  }

  /**
   The nesting limit is not kept by moves. A move is judged by the depth `d` of the new parent
   alone, so a folder `k` below the moved one ends up `d + 1 + k` deep; its ancestry can then
   still be walked, and folders still be created or moved into it, exactly when that is within
   the limit of the walk.
   */
  lemma MoveIgnoresHeight(t: Tree, id: Id, parent: Id, d: nat, x: Id, k: nat)
    requires Inv(t) && Accepts(t, Move(id, parent)) && parent != t.folders[id]
    requires Reaches(t.folders, parent, d) && Under(t.folders, x, id, k)
    ensures var folders' := Apply(t, Move(id, parent)).folders;
            Reaches(folders', x, d + 1 + k) && (ReachesWithin(folders', x, MaxDepth + 1) <==> d + 1 + k <= MaxDepth + 1)
  {
    var n: nat :| Reaches(t.folders, id, n);
    var m := Nearest(t.folders, x, id, k);
    UnderReaches(t.folders, x, id, k, n);
    UnderReaches(t.folders, x, id, m, n);
    ReachesUnique(t.folders, x, k + n, m + n);
    assert k > 0 ==> !Under(t.folders, x, id, 0);
    MovedReaches(t.folders, id, parent, d, x, k);
    var folders' := Apply(t, Move(id, parent)).folders;
    if ReachesWithin(folders', x, MaxDepth + 1) {
      var w: nat :| Reaches(folders', x, w) && w <= MaxDepth + 1;
      ReachesUnique(folders', x, w, d + 1 + k);
    }
  }

  // A run in which that happens.

  function Name(c: char, n: nat): Id { seq(n, _ => c) }

  /** Folders `c`, `cc`, `ccc` and so on, each in the one before, down to depth `n` and no further. */
  ghost predicate Tower(folders: Folders, c: char, n: nat) {
    && (forall i :: 1 <= i <= n ==> Name(c, i) in folders && folders[Name(c, i)] == Name(c, i - 1))
    && (forall i :: i > n ==> Name(c, i) !in folders)
  }

  lemma NamesDiffer(c: char, i: nat, d: char, j: nat)
    requires Name(c, i) == Name(d, j) && i > 0
    ensures i == j && c == d
  {
    assert |Name(c, i)| == i && |Name(d, j)| == j;
    assert Name(c, i)[0] == c && Name(d, j)[0] == d;
  }

  lemma {:induction false} TowerReaches(folders: Folders, c: char, n: nat, i: nat)
    requires Tower(folders, c, n) && i <= n
    ensures Reaches(folders, Name(c, i), i)
  {
    assert Name(c, 0) == "";
    if i > 0 {
      TowerReaches(folders, c, n, i - 1);
      assert |Name(c, i)| == i;
    }
  }

  lemma {:induction false} TowerUnder(folders: Folders, c: char, n: nat, i: nat, k: nat)
    requires Tower(folders, c, n) && 1 <= i && i + k <= n
    ensures Under(folders, Name(c, i + k), Name(c, i), k)
    decreases k
  {
    if k > 0 { TowerUnder(folders, c, n, i, k - 1); }
  }

  /** Nothing in one tower lies under a folder of another. */
  lemma {:induction false} TowersApart(folders: Folders, c: char, n: nat, i: nat, d: char, k: nat)
    requires "" !in folders && Tower(folders, c, n) && i <= n && c != d
    ensures !Under(folders, Name(c, i), Name(d, 1), k)
    decreases k
  {
    assert Name(c, 0) == "" && |Name(d, 1)| == 1;
    if Name(c, i) == Name(d, 1) { NamesDiffer(d, 1, c, i); }
    if k > 0 && i > 0 { TowersApart(folders, c, n, i - 1, d, k - 1); }
  }

  lemma GrowTower(run: seq<Tree>, edits: seq<Edit>, c: char, n: nat) returns (run': seq<Tree>, edits': seq<Edit>)
    requires IsRun(run, edits) && n <= MaxDepth - 2 && Tower(run[|edits|].folders, c, n)
    ensures IsRun(run', edits') && Tower(run'[|edits'|].folders, c, n + 1)
    ensures forall d, m :: d != c && Tower(run[|edits|].folders, d, m) ==> Tower(run'[|edits'|].folders, d, m)
  {
    var t := run[|edits|];
    var e := Create(Name(c, n + 1), Name(c, n));
    TowerReaches(t.folders, c, n, n);
    assert ReachesWithin(t.folders, Name(c, n), MaxDepth - 2);
    assert |Name(c, n + 1)| == n + 1;
    run', edits' := run + [Apply(t, e)], edits + [e];
    var folders' := Apply(t, e).folders;
    forall i | 1 <= i <= n + 1 ensures Name(c, i) in folders' && folders'[Name(c, i)] == Name(c, i - 1) {
      if i <= n { assert |Name(c, i)| == i; }
    }
    forall i | i > n + 1 ensures Name(c, i) !in folders' { assert |Name(c, i)| == i; }
    forall d, m | d != c && Tower(t.folders, d, m) ensures Tower(folders', d, m) {
      forall i: nat | i >= 1 ensures Name(d, i) != Name(c, n + 1) {
        if Name(d, i) == Name(c, n + 1) { NamesDiffer(d, i, c, n + 1); }
      }
    }
  }

  lemma {:induction false} BuildTower(c: char, n: nat, below: char, m: nat) returns (run: seq<Tree>, edits: seq<Edit>)
    requires c != below && n <= MaxDepth - 1 && m <= MaxDepth - 1
    ensures IsRun(run, edits) && Tower(run[|edits|].folders, c, n) && Tower(run[|edits|].folders, below, m)
    decreases n + m
  {
    hide Tower, IsRun;
    if n > 0 {
      run, edits := BuildTower(c, n - 1, below, m);
      run, edits := GrowTower(run, edits, c, n - 1);
    } else if m > 0 {
      run, edits := BuildTower(c, n, below, m - 1);
      run, edits := GrowTower(run, edits, below, m - 1);
    } else {
      run, edits := [Tree(map[], map[])], [];
      NoTower(c);
      NoTower(below);
      OnlyStart();
    }
  }

  lemma NoTower(c: char)
    ensures Tower(map[], c, 0)
  {
  }

  lemma OnlyStart()
    ensures IsRun([Tree(map[], map[])], [])
  {
  }

  /** Creates within the limit and one accepted move, after which the way up from a folder can no longer be walked. */
  lemma MoveTooDeep() returns (run: seq<Tree>, edits: seq<Edit>, x: Id)
    ensures IsRun(run, edits) && |edits| > 0 && edits[|edits| - 1].Move?
      && Accepts(run[|edits| - 1], edits[|edits| - 1])
    ensures x in run[|edits|].folders && ReachesWithin(run[|edits| - 1].folders, x, MaxDepth - 1)
    ensures !ReachesWithin(run[|edits|].folders, x, MaxDepth + 1)
  {
    hide Tower;
    var top := MaxDepth - 1;
    run, edits := BuildTower('a', top, 'b', 3);
    AlwaysForest(run, edits, |edits|);
    var t := run[|edits|];
    var id, parent := Name('a', 1), Name('b', 3);
    x := Name('a', top);
    TowerAt(t.folders, 'a', top, 1);
    TowerAt(t.folders, 'a', top, top);
    TowerReaches(t.folders, 'b', 3, 3);
    TowerReaches(t.folders, 'a', top, top);
    TowerUnder(t.folders, 'a', top, 1, top - 1);
    forall k: nat ensures !Under(t.folders, parent, id, k) { TowersApart(t.folders, 'b', 3, 3, 'a', k); }
    assert |parent| == 3 && Name('a', 0) == "";
    var e := Move(id, parent);
    assert Accepts(t, e);
    MoveIgnoresHeight(t, id, parent, 3, x, top - 1);
    run, edits := run + [Apply(t, e)], edits + [e];
  }

  lemma TowerAt(folders: Folders, c: char, n: nat, i: nat)
    requires Tower(folders, c, n) && 1 <= i <= n
    ensures Name(c, i) in folders && folders[Name(c, i)] == Name(c, i - 1)
  {
  }

  // The breadth-first walk.

  /** The folders of the listing that have the given parent, in order. */
  function ChildrenOf(folders: Folders, listed: seq<Id>, parent: Id): seq<Id> {
    if listed == [] then []
    else
      var last := listed[|listed| - 1];
      var rest := ChildrenOf(folders, listed[..|listed| - 1], parent);
      if last in folders && folders[last] == parent then rest + [last] else rest
  }

  ghost predicate Distinct(q: seq<Id>) {
    forall i, j :: 0 <= i < j < |q| ==> q[i] != q[j]
  }

  /** A listing has every folder once. */
  ghost predicate Lists(folders: Folders, listed: seq<Id>) {
    Distinct(listed) && forall x :: x in listed <==> x in folders
  }

  lemma {:induction false} ChildrenExactly(folders: Folders, listed: seq<Id>, parent: Id)
    requires Distinct(listed)
    ensures Distinct(ChildrenOf(folders, listed, parent))
    ensures forall x ::
      x in ChildrenOf(folders, listed, parent) <==> x in listed && x in folders && folders[x] == parent
  {
    if listed != [] {
      var n := |listed| - 1;
      ChildrenExactly(folders, listed[..n], parent);
      assert listed == listed[..n] + [listed[n]];
    }
  }

  /** Everything found is a folder under the root. */
  ghost predicate AllBelow(folders: Folders, root: Id, out: seq<Id>) {
    forall i :: 0 <= i < |out| ==> out[i] in folders && Below(folders, out[i], root)
  }

  /** Everything found but the root was added as the child of a folder already done. */
  ghost predicate ParentsDone(folders: Folders, root: Id, out: seq<Id>, done: set<Id>) {
    forall x :: x in out && x in folders && x != root ==> folders[x] in done
  }

  /** The children of the folders done have all been found. */
  ghost predicate ChildrenFound(folders: Folders, out: seq<Id>, done: set<Id>) {
    forall x :: x in folders && folders[x] in done ==> x in out
  }

  ghost function Firsts(out: seq<Id>, k: nat): set<Id>
    requires k <= |out|
  {
    set i | 0 <= i < k :: out[i]
  }

  /** The first `k` of what has been found have had their children added. */
  ghost predicate Found(folders: Folders, root: Id, out: seq<Id>, k: nat) {
    && k <= |out| && root in out && Distinct(out) && AllBelow(folders, root, out)
    && ParentsDone(folders, root, out, Firsts(out, k))
    && ChildrenFound(folders, out, Firsts(out, k))
  }

  lemma {:induction false} DistinctBound(q: seq<Id>, keys: set<Id>)
    requires Distinct(q) && forall i :: 0 <= i < |q| ==> q[i] in keys
    ensures |q| <= |keys|
  {
    if q != [] {
      var n := |q| - 1;
      DistinctBound(q[..n], keys - {q[n]});
    }
  }

  lemma FirstsMore(out: seq<Id>, more: seq<Id>, k: nat)
    requires Distinct(out) && k < |out|
    ensures Firsts(out + more, k + 1) == Firsts(out, k) + {out[k]}
    ensures out[k] !in Firsts(out, k)
  {
    var r := out + more;
    assert forall i :: 0 <= i < k + 1 ==> r[i] == out[i];
    assert out[k] in Firsts(r, k + 1);
  }

  lemma ChildBelow(folders: Folders, root: Id, parent: Id, c: Id)
    requires Forest(folders) && root in folders && Below(folders, parent, root) && c in folders && folders[c] == parent
    ensures c != root && Below(folders, c, root)
  {
    var j: nat :| Under(folders, parent, root, j);
    assert Under(folders, c, root, j + 1);
    if c == root {
      var n: nat :| Reaches(folders, root, n);
      NotUnderItself(folders, root, j + 1, n);
    }
  }

  /** A child that has not been added yet is new. */
  lemma ChildIsNew(folders: Folders, root: Id, out: seq<Id>, k: nat, c: Id)
    requires Forest(folders) && Found(folders, root, out, k) && k < |out| && c in folders && folders[c] == out[k]
    ensures c !in out && Below(folders, c, root)
  {
    hide Forest, Below, Firsts;
    assert root in folders;
    ChildBelow(folders, root, out[k], c);
    FirstsMore(out, [], k);
  }

  lemma DistinctAppend(a: seq<Id>, b: seq<Id>)
    requires Distinct(a) && Distinct(b) && forall x :: x in b ==> x !in a
    ensures Distinct(a + b)
  {
    var r := a + b;
    forall i, j | 0 <= i < j < |r| ensures r[i] != r[j] {
      if i < |a| <= j { assert r[j] in b; }
    }
  }

  lemma FoundMore(folders: Folders, listed: seq<Id>, root: Id, out: seq<Id>, k: nat)
    requires Forest(folders) && Lists(folders, listed) && Found(folders, root, out, k) && k < |out|
    ensures Found(folders, root, out + ChildrenOf(folders, listed, out[k]), k + 1)
  {
    var children := ChildrenOf(folders, listed, out[k]);
    ChildrenExactly(folders, listed, out[k]);
    hide ChildrenOf, Below;
    var out' := out + children;
    forall c | c in children ensures c !in out && Below(folders, c, root) { ChildIsNew(folders, root, out, k, c); }
    DistinctAppend(out, children);
    assert AllBelow(folders, root, out');
    FirstsMore(out, children, k);
    hide Distinct, AllBelow, Firsts;
    assert forall x :: x in out' <==> x in out || x in children;
    assert ParentsDone(folders, root, out', Firsts(out', k + 1));
    assert ChildrenFound(folders, out', Firsts(out', k + 1));
  }

  lemma {:induction false} FoundAll(folders: Folders, root: Id, out: seq<Id>, done: set<Id>, x: Id, j: nat)
    requires ChildrenFound(folders, out, done) && root in out && (forall y :: y in out ==> y in done)
    requires x in folders && Under(folders, x, root, j)
    ensures x in out
    decreases j
  {
    if j == 1 {
      assert Under(folders, folders[x], root, 0);
    } else if j > 1 {
      assert folders[x] in folders;
      FoundAll(folders, root, out, done, folders[x], j - 1);
    }
  }

  /** descendantFolderIDs: a folder and every folder beneath it, each once. */
  method DescendantFolderIds(folders: Folders, listed: seq<Id>, root: Id) returns (r: Answer<seq<Id>>)
    requires Forest(folders) && Lists(folders, listed) && root in folders
    ensures r.Ok? <==> |Subtree(folders, root)| <= 10000
    ensures r.Ok? ==> Distinct(r.value) && forall x :: x in r.value <==> x in Subtree(folders, root)
  {
    hide Forest, Lists, Found, Subtree;
    var out := [root];
    var queue := [root];
    ghost var k := 0;
    FoundStart(folders, root);
    while queue != []
      invariant Found(folders, root, out, k) && k <= |out| <= MaxSubtree && queue == out[k..]
      decreases |folders.Keys| - k
    {
      var current := queue[0];
      var children := ChildrenOf(folders, listed, current);
      FoundMore(folders, listed, root, out, k);
      Dequeued(out, children, k);
      queue := queue[1..] + children;
      out := out + children;
      k := k + 1;
      FoundBound(folders, root, out, k);
      if |out| > MaxSubtree {
        return TooDeep;
      }
    }
    FoundBound(folders, root, out, k);
    FoundSubtree(folders, root, out);
    r := Ok(out);
  }

  lemma Dequeued(out: seq<Id>, children: seq<Id>, k: nat)
    requires k < |out|
    ensures out[k..] != [] && out[k..][0] == out[k] && (out + children)[k + 1..] == out[k..][1..] + children
  {
  }

  lemma FoundStart(folders: Folders, root: Id)
    requires root in folders
    ensures Found(folders, root, [root], 0)
  {
    var top: nat := 0;
    assert Under(folders, root, root, top);
  }

  lemma FoundBound(folders: Folders, root: Id, out: seq<Id>, k: nat)
    requires Found(folders, root, out, k)
    ensures Distinct(out) && |out| <= |folders.Keys| && |out| <= |Subtree(folders, root)|
    ensures forall x :: x in out ==> x in Subtree(folders, root)
  {
    DistinctBound(out, folders.Keys);
    DistinctBound(out, Subtree(folders, root));
  }

  lemma FoundSubtree(folders: Folders, root: Id, out: seq<Id>)
    requires Found(folders, root, out, |out|)
    ensures |Subtree(folders, root)| <= |out| && forall x :: x in Subtree(folders, root) ==> x in out
  {
    forall x | x in Subtree(folders, root) ensures x in out {
      var j: nat :| Under(folders, x, root, j);
      FoundAll(folders, root, out, Firsts(out, |out|), x, j);
    }
    AsMany(out, Subtree(folders, root));
  }

  lemma {:induction false} AsMany(q: seq<Id>, keys: set<Id>)
    requires forall x :: x in keys ==> x in q
    ensures |keys| <= |q|
  {
    if q == [] {
      assert keys == {};
    } else {
      var n := |q| - 1;
      assert forall x :: x in q <==> x in q[..n] || x == q[n];
      AsMany(q[..n], keys - {q[n]});
    }
  }

  // The program's methods.

  class FolderStore {
    var folders: Folders
    var sessions: map<Id, Id>

    ghost function View(): Tree
      reads this
    {
      Tree(folders, sessions)
    }

    constructor ()
      ensures View() == Tree(map[], map[])
    {
      folders, sessions := map[], map[];
    }

    method CreateFolder(id: Id, parent: Id) returns (r: Answer<()>)
      requires Inv(View()) && id != "" && id !in folders
      modifies this
      ensures View() == Apply(old(View()), Create(id, parent)) && Inv(View())
      ensures r.Ok? <==> Accepts(old(View()), Create(id, parent))
      ensures r.Ok? <==> ReachesWithin(old(folders), parent, 30)
      ensures r == NotFound <==> parent != "" && parent !in old(folders)
      ensures folders == (if r.Ok? then old(folders)[id := parent] else old(folders)) && sessions == old(sessions)
    {
      EditKeeps(View(), Create(id, parent));
      assert parent in folders ==> exists n: nat :: Reaches(folders, parent, n);
      assert Reaches(folders, "", 0);
      var depth := DepthOf(folders, parent);
      if depth.NotFound? {
        return NotFound;
      }
      if depth.TooDeep? || depth.value + 1 >= MaxDepth {
        DeeperThan(folders, parent, MaxDepth - 2);
        return TooDeep;
      }
      assert ReachesWithin(folders, parent, MaxDepth - 2);
      folders := folders[id := parent];
      r := Ok(());
    }

    method MoveFolder(id: Id, parent: Id) returns (r: Answer<()>)
      requires Inv(View())
      modifies this
      ensures View() == Apply(old(View()), Move(id, parent)) && Inv(View())
      ensures r.Ok? <==> Accepts(old(View()), Move(id, parent))
      ensures r.Ok? <==>
        && id in old(folders)
        && (parent == old(folders)[id]
            || (ReachesWithin(old(folders), parent, 33) && !Below(old(folders), parent, id)))
      ensures r == Cycle ==> Below(old(folders), parent, id)
      ensures folders == (if r.Ok? then old(folders)[id := parent] else old(folders)) && sessions == old(sessions)
    {
      EditKeeps(View(), Move(id, parent));
      if id !in folders {
        return NotFound;
      }
      if parent != folders[id] {
        r := CheckMove(folders, id, parent);
        if !r.Ok? {
          return;
        }
      }
      folders := folders[id := parent];
      r := Ok(());
    }

    /** Puts a saved connection into a folder, or at the top level. */
    method SaveSession(session: Id, folder: Id) returns (ok: bool)
      requires Inv(View())
      modifies this
      ensures View() == Apply(old(View()), Save(session, folder)) && Inv(View())
      ensures ok <==> folder == "" || folder in old(folders)
      ensures sessions == (if ok then old(sessions)[session := folder] else old(sessions)) && folders == old(folders)
    {
      EditKeeps(View(), Save(session, folder));
      ok := folder == "" || folder in folders;
      if ok {
        sessions := sessions[session := folder];
      }
    }

    method DeleteFolder(id: Id) returns (ok: bool)
      requires Inv(View())
      modifies this
      ensures View() == Apply(old(View()), Delete(id)) && Inv(View())
      ensures ok <==> Accepts(old(View()), Delete(id))
      ensures ok <==>
        && id in old(folders) && (forall x :: x in old(folders) ==> old(folders)[x] != id)
        && forall x :: x in old(sessions) ==> old(sessions)[x] != id
      ensures folders == (if ok then old(folders) - {id} else old(folders)) && sessions == old(sessions)
    {
      EditKeeps(View(), Delete(id));
      if id !in folders {
        return false;
      }
      var children := set x | x in folders && folders[x] == id;
      var contents := set x | x in sessions && sessions[x] == id;
      if |children| > 0 || |contents| > 0 {
        assert children != {} || contents != {};
        return false;
      }
      assert forall x :: x in folders ==> x !in children;
      assert forall x :: x in sessions ==> x !in contents;
      folders := folders - {id};
      ok := true;
    }

    /** Removes a folder with everything in it, and says how many connections went. */
    method DeleteFolderRecursive(id: Id, listed: seq<Id>) returns (r: Answer<nat>)
      requires Inv(View()) && Lists(folders, listed)
      modifies this
      ensures View() == Apply(old(View()), DeleteRecursive(id)) && Inv(View())
      ensures r.Ok? <==> Accepts(old(View()), DeleteRecursive(id))
      ensures r.Ok? ==> r.value == |InFolders(old(sessions), Subtree(old(folders), id))|
      ensures r.Ok? <==> id in old(folders) && |Subtree(old(folders), id)| <= 10000
      ensures r.Ok? ==>
                && (forall x :: x in folders <==> x in old(folders) && x !in Subtree(old(folders), id))
                && (forall x :: x in folders ==> folders[x] == old(folders)[x])
                && (forall x :: x in sessions <==> x in old(sessions) && old(sessions)[x] !in Subtree(old(folders), id))
                && (forall x :: x in sessions ==> sessions[x] == old(sessions)[x])
      ensures !r.Ok? ==> View() == old(View())
    {
      EditKeeps(View(), DeleteRecursive(id));
      hide Inv;
      if id !in folders {
        return NotFound;
      }
      var found := DescendantFolderIds(folders, listed, id);
      if !found.Ok? {
        return TooDeep;
      }
      var ids := found.value;
      assert forall x :: x in ids <==> x in Subtree(folders, id);
      var deleted;
      sessions, deleted := DeleteContents(sessions, ids);
      // Deleting the row of the folder cascades to the folders beneath it.
      var gone := set x | x in ids;
      assert gone == Subtree(old(folders), id);
      folders := folders - gone;
      r := Ok(deleted);
    }
  }

  /** One DELETE per folder, adding up the rows affected. */
  method DeleteContents(sessions: map<Id, Id>, ids: seq<Id>) returns (left: map<Id, Id>, deleted: nat)
    ensures left == Outside(sessions, set x | x in ids)
    ensures deleted == |InFolders(sessions, set x | x in ids)|
  {
    hide Outside, InFolders, Firsts;
    left, deleted := sessions, 0;
    NoneDone(sessions, ids);
    for i := 0 to |ids|
      invariant left == Outside(sessions, Firsts(ids, i))
      invariant deleted == |sessions.Keys| - |left.Keys|
    {
      OutsideMore(sessions, Firsts(ids, i), ids[i]);
      OneMoreDone(ids, i);
      var hit := set x | x in left && left[x] == ids[i];
      deleted := deleted + |hit|;
      left := map x | x in left && left[x] != ids[i] :: left[x];
    }
    AllDone(ids);
    OutsideCount(sessions, Firsts(ids, |ids|));
  }

  lemma NoneDone(sessions: map<Id, Id>, ids: seq<Id>)
    ensures Outside(sessions, Firsts(ids, 0)) == sessions
  {
  }

  lemma OneMoreDone(ids: seq<Id>, i: nat)
    requires i < |ids|
    ensures Firsts(ids, i + 1) == Firsts(ids, i) + {ids[i]}
  {
  }

  lemma AllDone(ids: seq<Id>)
    ensures Firsts(ids, |ids|) == set x | x in ids
  {
  }

  lemma OutsideMore(sessions: map<Id, Id>, done: set<Id>, f: Id)
    ensures var left := Outside(sessions, done);
            && (map x | x in left && left[x] != f :: left[x]) == Outside(sessions, done + {f})
            && |left.Keys| == |Outside(sessions, done + {f}).Keys| + |set x | x in left && left[x] == f|
  {
    var left := Outside(sessions, done);
    var hit := set x | x in left && left[x] == f;
    assert Outside(sessions, done + {f}).Keys == left.Keys - hit && hit <= left.Keys;
  }

  lemma OutsideCount(sessions: map<Id, Id>, done: set<Id>)
    ensures |sessions.Keys| == |Outside(sessions, done).Keys| + |InFolders(sessions, done)|
  {
    var lost := InFolders(sessions, done);
    assert Outside(sessions, done).Keys == sessions.Keys - lost && lost <= sessions.Keys;
  }

  lemma DeeperThan(folders: Folders, id: Id, limit: nat)
    requires forall d: nat :: Reaches(folders, id, d) ==> d > limit
    ensures !ReachesWithin(folders, id, limit)
  {
  }
}
