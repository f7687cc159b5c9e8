/** Folder paths turned into folders on import, and folders into paths on export. */
module FolderPaths {
  import opened Text
  import opened ParentOrder

  type Path = seq<string>

  const NUL: char := '\0'

  /** What the tree remembers a path by. */
  function PathName(path: Path): string { Join(path, NUL) }

  /** A folder stands for `path`: it has the last name, and its parent stands for the rest. */
  ghost predicate Stands(folders: seq<Folder>, paths: map<Id, Path>, k: nat) {
    k < |folders| && folders[k].id in paths &&
    var path := paths[folders[k].id];
    path != [] && folders[k].name == path[|path| - 1] &&
    if |path| == 1 then folders[k].parent == ""
    else
      && Earlier(folders, folders[k].parent, k) && folders[k].parent in paths
      && paths[folders[k].parent] == path[..|path| - 1]
  }

  ghost predicate Earlier(folders: seq<Folder>, id: Id, k: nat) {
    exists j :: 0 <= j < k && j < |folders| && folders[j].id == id
  }

  ghost predicate Clean(paths: map<Id, Path>) {
    "" !in paths && forall id :: id in paths ==> paths[id] != [] && FreeOf(paths[id], NUL)
  }

  /** The tree of folders is the tree of the paths asked for. */
  ghost predicate Built(ids: map<string, Id>, folders: seq<Folder>, paths: map<Id, Path>) {
    && Clean(paths)
    && (forall k :: 0 <= k < |folders| ==> Stands(folders, paths, k))
    && DistinctIds(folders)
    && (forall id ::
        id in paths ==> InBundle(folders, id) && PathName(paths[id]) in ids && ids[PathName(paths[id])] == id)
    && (forall name :: name in ids ==> ids[name] in paths && PathName(paths[ids[name]]) == name)
  }

  lemma StandsMore(folders: seq<Folder>, paths: map<Id, Path>, k: nat, f: Folder, path: Path)
    requires Stands(folders, paths, k) && f.id !in paths
    ensures Stands(folders + [f], paths[f.id := path], k)
  {
    if |paths[folders[k].id]| > 1 {
      var j :| 0 <= j < k && j < |folders| && folders[j].id == folders[k].parent;
      assert (folders + [f])[j].id == folders[k].parent;
    }
  }

  /** A path can be named in at most one way. */
  lemma NamesDiffer(ids: map<string, Id>, folders: seq<Folder>, paths: map<Id, Path>, path: Path)
    requires Built(ids, folders, paths) && path != [] && FreeOf(path, NUL)
    ensures PathName(path) in ids <==> path in paths.Values
    ensures PathName(path) in ids ==> ids[PathName(path)] in paths && paths[ids[PathName(path)]] == path
  {
    hide Stands, DistinctIds, InBundle;
    if PathName(path) in ids {
      JoinInjective(paths[ids[PathName(path)]], path, NUL);
    }
  }

  /** Distinct paths have distinct folders, and the other way round. */
  lemma PathsDiffer(ids: map<string, Id>, folders: seq<Folder>, paths: map<Id, Path>, a: Id, b: Id)
    requires Built(ids, folders, paths) && a in paths && b in paths
    ensures paths[a] == paths[b] <==> a == b
  {
  }

  lemma BuiltMore(ids: map<string, Id>, folders: seq<Folder>, paths: map<Id, Path>, path: Path, parent: Id, id: Id)
    requires Built(ids, folders, paths) && path != [] && FreeOf(path, NUL) && PathName(path) !in ids
    requires id != "" && !InBundle(folders, id)
    requires if |path| == 1 then parent == "" else parent in paths && paths[parent] == path[..|path| - 1]
    ensures Built(ids[PathName(path) := id], folders + [Folder(id, parent, path[|path| - 1], NoSettings)],
      paths[id := path])
  {
    var f := Folder(id, parent, path[|path| - 1], NoSettings);
    var ids', folders', paths' := ids[PathName(path) := id], folders + [f], paths[id := path];
    assert id !in paths;
    forall k | 0 <= k < |folders'| ensures Stands(folders', paths', k) {
      hide FreeOf, Join;
      if k < |folders| {
        StandsMore(folders, paths, k, f, path);
      } else if |path| > 1 {
        assert InBundle(folders, parent);
        var j :| 0 <= j < |folders| && folders[j].id == parent;
        assert folders'[j].id == parent;
        assert Earlier(folders', parent, k);
      }
    }
    hide Stands, Join;
    forall x | x in paths' ensures InBundle(folders', x) && PathName(paths'[x]) in ids'
        && ids'[PathName(paths'[x])] == x {
      if x == id {
        assert folders'[|folders|].id == id;
      } else {
        var j :| 0 <= j < |folders| && folders[j].id == x;
        assert folders'[j].id == x;
      }
    }
    assert DistinctIds(folders') by {
      forall i, j | 0 <= i < j < |folders'| ensures folders'[i].id != folders'[j].id { }
    }
  }

  /** Parents come first, so that the import takes the folders as they are. */
  lemma BuiltInOrder(ids: map<string, Id>, folders: seq<Folder>, paths: map<Id, Path>)
    requires Built(ids, folders, paths)
    ensures DistinctIds(folders) && ParentsFirst(folders, folders)
  {
    forall k | 0 <= k < |folders|
      ensures folders[k].parent == "" || !InBundle(folders, folders[k].parent) || exists j ::
        0 <= j < k && folders[j].id == folders[k].parent
    {
      assert Stands(folders, paths, k);
    }
  }

  /** folderIndex. */
  function FolderIndex(folders: seq<Folder>): map<Id, Folder> {
    if folders == [] then map[]
        else FolderIndex(folders[..|folders| - 1])[folders[|folders| - 1].id := folders[|folders| - 1]]
  }

  lemma {:induction false} IndexFinds(folders: seq<Folder>, id: Id)
    ensures id in FolderIndex(folders) <==> InBundle(folders, id)
    ensures DistinctIds(folders) ==> forall k ::
      0 <= k < |folders| && folders[k].id == id ==> FolderIndex(folders)[id] == folders[k]
  {
    if folders != [] {
      var n := |folders| - 1;
      var head := folders[..n];
      IndexFinds(head, id);
      assert InBundle(folders, id) <==> InBundle(head, id) || folders[n].id == id by {
        if InBundle(head, id) { var j :| 0 <= j < n && head[j].id == id; assert folders[j].id == id; }
      }
      forall k | 0 <= k < |folders| && folders[k].id == id && DistinctIds(folders)
        ensures FolderIndex(folders)[id] == folders[k] {
        if k < n { assert head[k] == folders[k]; assert DistinctIds(head); }
      }
    }
  }

  /** The names on the way up from a folder, outermost first, stopping at a folder met before. */
  function NamesUp(index: map<Id, Folder>, id: Id, seen: set<Id>): Path
    decreases |index.Keys - seen|
  {
    if id == "" || id !in index || id in seen then []
    else
      assert index.Keys - seen - {id} == index.Keys - (seen + {id});
      NamesUp(index, index[id].parent, seen + {id}) + [index[id].name]
  }

  lemma OneUp(index: map<Id, Folder>, id: Id, seen: set<Id>, parts: Path)
    requires id != "" && id in index && id !in seen
    ensures NamesUp(index, id, seen) + parts
      == NamesUp(index, index[id].parent, seen + {id}) + ([index[id].name] + parts)
    ensures |index.Keys - (seen + {id})| < |index.Keys - seen|
  {
    assert index.Keys - (seen + {id}) == index.Keys - seen - {id};
  }

  lemma Top(index: map<Id, Folder>, id: Id, seen: set<Id>, parts: Path)
    requires id == "" || id !in index || id in seen
    ensures NamesUp(index, id, seen) + parts == parts
  {
  }

  /** pathOf. The guard on folders already met makes it end on a looping bundle too. */
  method PathOf(folderId: Id, index: map<Id, Folder>) returns (parts: Path)
    ensures parts == NamesUp(index, folderId, {})
    ensures |parts| <= |index|
  {
    hide NamesUp;
    parts := [];
    var seen: set<Id> := {};
    var id := folderId;
    while id != "" && id in index && id !in seen
      invariant NamesUp(index, folderId, {}) == NamesUp(index, id, seen) + parts
      invariant |parts| == |seen| && seen <= index.Keys
      decreases |index.Keys - seen|
    {
      OneUp(index, id, seen, parts);
      seen := seen + {id};
      parts := [index[id].name] + parts;
      id := index[id].parent;
    }
    Top(index, id, seen, parts);
    SubsetSize(seen, index.Keys);
  }

  lemma SubsetSize<T>(a: set<T>, b: set<T>)
    requires a <= b
    ensures |a| <= |b|
  {
    assert b == a + (b - a);
  }

  /** Reading the path off the folders gives back the path they were made from. */
  lemma {:induction false} PathBack(ids: map<string, Id>, folders: seq<Folder>, paths: map<Id, Path>, id: Id,
      seen: set<Id>)
    requires Built(ids, folders, paths) && id in paths
    requires forall x :: x in seen && x in paths ==> |paths[x]| > |paths[id]|
    ensures NamesUp(FolderIndex(folders), id, seen) == paths[id]
    decreases |paths[id]|
  {
    IndexFinds(folders, id);
    var k :| 0 <= k < |folders| && folders[k].id == id;
    assert Stands(folders, paths, k);
    var path := paths[id];
    assert path == path[..|path| - 1] + [path[|path| - 1]];
    if |path| > 1 {
      PathBack(ids, folders, paths, folders[k].parent, seen + {id});
    } else {
      assert path[..|path| - 1] == [];
    }
  }

  /** Fresh identifiers for the folders a call may have to make. */
  ghost predicate FreshFor(supply: seq<Id>, folders: seq<Folder>) {
    && (forall k :: 0 <= k < |supply| ==> supply[k] != "" && !InBundle(folders, supply[k]))
    && (forall k, l :: 0 <= k < l < |supply| ==> supply[k] != supply[l])
  }

  lemma SpendNone(supply: seq<Id>, folders: seq<Folder>)
    requires FreshFor(supply, folders) && supply != []
    ensures FreshFor(supply[1..], folders)
    ensures supply[0] != "" && !InBundle(folders, supply[0])
  {
    hide InBundle;
    var rest := supply[1..];
    forall k | 0 <= k < |rest| ensures rest[k] != "" && !InBundle(folders, rest[k]) { assert rest[k] == supply[k + 1]; }
    forall k, l | 0 <= k < l < |rest| ensures rest[k] != rest[l]
    { assert rest[k] == supply[k + 1] && rest[l] == supply[l + 1]; }
  }

  lemma SpendOne(supply: seq<Id>, folders: seq<Folder>, parent: Id, name: string)
    requires FreshFor(supply, folders) && supply != []
    ensures FreshFor(supply[1..], folders + [Folder(supply[0], parent, name, NoSettings)])
  {
    SpendNone(supply, folders);
    var rest, folders' := supply[1..], folders + [Folder(supply[0], parent, name, NoSettings)];
    forall k | 0 <= k < |rest| ensures !InBundle(folders', rest[k]) {
      assert rest[k] == supply[k + 1];
      BundleMore(folders, Folder(supply[0], parent, name, NoSettings), rest[k]);
    }
  }

  lemma PartFree(path: Path, n: nat)
    requires FreeOf(path, NUL) && n <= |path|
    ensures FreeOf(path[..n], NUL)
  {
  }

  lemma NotYet(ids: map<string, Id>, folders: seq<Folder>, paths: map<Id, Path>, id: Id)
    requires Built(ids, folders, paths) && !InBundle(folders, id)
    ensures id !in paths
  {
  }

  /** Whatever the names hold: each path name has a folder of its own. */
  ghost predicate Told(ids: map<string, Id>, folders: seq<Folder>) {
    && (forall name :: name in ids ==> InBundle(folders, ids[name]))
    && (forall a, b :: a in ids && b in ids && ids[a] == ids[b] ==> a == b)
  }

  lemma ToldMore(ids: map<string, Id>, folders: seq<Folder>, name: string, f: Folder)
    requires Told(ids, folders) && name !in ids && !InBundle(folders, f.id)
    ensures Told(ids[name := f.id], folders + [f])
  {
    hide InBundle;
    forall id ensures InBundle(folders + [f], id) <==> InBundle(folders, id) || id == f.id
    { BundleMore(folders, f, id); }
  }

  /** folderTree. */
  class FolderTree {
    var ids: map<string, Id>
    var folders: seq<Folder>
    /** The path each folder was made for. */
    ghost var paths: map<Id, Path>
    /** No path asked for so far held a NUL. */
    ghost var clean: bool

    ghost predicate Valid() reads this { Told(ids, folders) && (clean ==> Built(ids, folders, paths)) }

    constructor ()
      ensures Valid() && clean && ids == map[] && folders == [] && paths == map[]
    {
      ids, folders := map[], [];
      paths, clean := map[], true;
    }

    /**
     ensure: the folder for a path, made with its missing ancestors and nothing else. What was
     there stays as it was.
     */
    method Ensure(path: Path, supply: seq<Id>) returns (id: Id)
      requires Valid() && FreshFor(supply, folders) && |path| <= |supply|
      modifies this
      ensures Valid() && clean == (old(clean) && FreeOf(path, NUL))
      ensures |old(folders)| <= |folders| && folders[..|old(folders)|] == old(folders)
      ensures clean ==> if path == [] then id == "" else id in paths && paths[id] == path
      ensures clean ==> forall x :: x in old(paths) ==> x in paths && paths[x] == old(paths)[x]
      ensures clean ==> forall x :: x in paths && x !in old(paths) ==> paths[x] <= path && x in supply
      ensures FreshFor(supply[|path|..], folders)
      ensures path != [] ==> PathName(path) in ids && ids[PathName(path)] == id
      ensures forall name :: name in old(ids) ==> name in ids && ids[name] == old(ids)[name]
    {
      hide Built, Told, FreshFor, FreeOf, InBundle, Stands;
      clean := clean && FreeOf(path, NUL);
      id := "";
      for i := 0 to |path|
        invariant clean == (old(clean) && FreeOf(path, NUL))
        invariant Told(ids, folders) && (clean ==> Built(ids, folders, paths))
        invariant |old(folders)| <= |folders| && folders[..|old(folders)|] == old(folders)
        invariant FreshFor(supply[i..], folders)
        invariant i > 0 ==> PathName(path[..i]) in ids && ids[PathName(path[..i])] == id
        invariant forall name :: name in old(ids) ==> name in ids && ids[name] == old(ids)[name]
        invariant clean ==> if i == 0 then id == "" else id in paths && paths[id] == path[..i]
        invariant clean ==> forall x :: x in old(paths) ==> x in paths && paths[x] == old(paths)[x]
        invariant clean ==> forall x :: x in paths && x !in old(paths) ==> paths[x] <= path && x in supply
      {
        var part := path[..i + 1];
        ghost var rest := supply[i..];
        assert supply[i + 1..] == rest[1..];
        if clean { PartFree(path, i + 1); assert part[..i] == path[..i]; }
        SpendNone(rest, folders);
        if PathName(part) in ids {
          if clean { NamesDiffer(ids, folders, paths, part); }
          id := ids[PathName(part)];
        } else {
          if clean { BuiltMore(ids, folders, paths, part, id, supply[i]); NotYet(ids, folders, paths, supply[i]); }
          SpendOne(rest, folders, id, path[i]);
          ToldMore(ids, folders, PathName(part), Folder(supply[i], id, path[i], NoSettings));
          ids := ids[PathName(part) := supply[i]];
          folders := folders + [Folder(supply[i], id, path[i], NoSettings)];
          paths := paths[supply[i] := part];
          id := supply[i];
        }
      }
      assert path[..|path|] == path;
    }
  }

  ghost function Needed(wanted: seq<Path>): nat {
    if wanted == [] then 0 else |wanted[0]| + Needed(wanted[1..])
  }

  /** Each folder asked for stands for its path. */
  ghost predicate Answers(wanted: seq<Path>, given: seq<Id>, paths: map<Id, Path>) {
    |given| <= |wanted| &&
    forall k :: 0 <= k < |given| ==>
      if wanted[k] == [] then given[k] == "" else given[k] in paths && paths[given[k]] == wanted[k]
  }

  ghost predicate AllFree(wanted: seq<Path>) { forall k :: 0 <= k < |wanted| ==> FreeOf(wanted[k], NUL) }

  /** What a caller sees once every path has its folder. */
  ghost predicate ReadsBack(wanted: seq<Path>, given: seq<Id>, folders: seq<Folder>) {
    && |given| == |wanted|
    && (forall k :: 0 <= k < |given| ==> NamesUp(FolderIndex(folders), given[k], {}) == wanted[k])
    && (forall k, l :: 0 <= k < |given| && 0 <= l < |given| ==> (given[k] == given[l] <==> wanted[k] == wanted[l]))
    && DistinctIds(folders) && ParentsFirst(folders, folders)
  }

  lemma AnswersReadBack(wanted: seq<Path>, given: seq<Id>, ids: map<string, Id>, folders: seq<Folder>, paths: map<Id,
      Path>)
    requires Built(ids, folders, paths) && Answers(wanted, given, paths) && |given| == |wanted|
    ensures ReadsBack(wanted, given, folders)
  {
    BuiltInOrder(ids, folders, paths);
    assert "" !in paths;
    hide Built, DistinctIds, ParentsFirst;
    forall k | 0 <= k < |given| ensures NamesUp(FolderIndex(folders), given[k], {}) == wanted[k] {
      if wanted[k] != [] { PathBack(ids, folders, paths, given[k], {}); }
    }
    forall k, l | 0 <= k < |given| && 0 <= l < |given| ensures given[k] == given[l] <==> wanted[k] == wanted[l] {
      hide NamesUp, FolderIndex;
      if wanted[k] != [] && wanted[l] != [] { PathsDiffer(ids, folders, paths, given[k], given[l]); }
    }
  }

  /**
   A reader's whole use of the tree, one path for each connection. Reading the path off the folder
   given for it gives the path back, equal folders are given for equal paths only, and the folders
   are already in the order in which they will be imported.
   */
  method FoldersFor(wanted: seq<Path>, supply: seq<Id>) returns (folders: seq<Folder>, given: seq<Id>)
    requires FreshFor(supply, []) && Needed(wanted) <= |supply|
    ensures |given| == |wanted|
    ensures AllFree(wanted) ==> ReadsBack(wanted, given, folders)
  {
    hide Built, FreshFor, FreeOf, InBundle, ReadsBack, AllFree, Answers;
    NothingYet(wanted);
    var tree := new FolderTree();
    given := [];
    var rest := supply;
    for k := 0 to |wanted|
      invariant fresh(tree) && tree.Valid() && |given| == k
      invariant tree.clean == AllFree(wanted[..k])
      invariant Needed(wanted[k..]) <= |rest| && FreshFor(rest, tree.folders)
      invariant tree.clean ==> Answers(wanted, given, tree.paths)
    {
      assert wanted[k..][1..] == wanted[k + 1..];
      OneMoreFree(wanted, k);
      ghost var was := tree.paths;
      var id := tree.Ensure(wanted[k], rest);
      rest := rest[|wanted[k]|..];
      if tree.clean { OneMoreAnswer(wanted, given, was, tree.paths, id); }
      given := given + [id];
    }
    assert wanted[..|wanted|] == wanted;
    folders := tree.folders;
    if tree.clean { AnswersReadBack(wanted, given, tree.ids, folders, tree.paths); }
  }

  lemma NothingYet(wanted: seq<Path>)
    ensures AllFree(wanted[..0]) && forall paths :: Answers(wanted, [], paths)
  {
  }

  lemma OneMoreAnswer(wanted: seq<Path>, given: seq<Id>, was: map<Id, Path>, paths: map<Id, Path>, id: Id)
    requires Answers(wanted, given, was) && |given| < |wanted|
    requires forall x :: x in was ==> x in paths && paths[x] == was[x]
    requires if wanted[|given|] == [] then id == "" else id in paths && paths[id] == wanted[|given|]
    ensures Answers(wanted, given + [id], paths)
  {
  }

  lemma OneMoreFree(wanted: seq<Path>, k: nat)
    requires k < |wanted|
    ensures AllFree(wanted[..k + 1]) <==> AllFree(wanted[..k]) && FreeOf(wanted[k], NUL)
  {
    hide FreeOf;
    var more := wanted[..k + 1];
    assert wanted[..k] == more[..k];
    if AllFree(more) {
      forall j | 0 <= j < k ensures FreeOf(wanted[..k][j], NUL) { assert wanted[..k][j] == more[j]; }
      assert more[k] == wanted[k];
    }
  }

  /**
   Any two paths asked for, whatever was asked for before: they are given one folder if and only if their
   names, each split at the NULs in it, are the same one after the other.
   */
  method SharesExactly(tree: FolderTree, a: Path, b: Path, supply: seq<Id>) returns (first: Id, second: Id)
    requires tree.Valid() && a != [] && b != [] && FreshFor(supply, tree.folders) && |supply| >= |a| + |b|
    modifies tree
    ensures tree.Valid()
    ensures first == second <==> Flat(a, NUL) == Flat(b, NUL)
  {
    hide Flat, FreshFor, Built, InBundle;
    first := tree.Ensure(a, supply);
    second := tree.Ensure(b, supply[|a|..]);
    JoinSameExactly(a, b, NUL);
  }

  /** Without NULs that means the same path. */
  lemma FlatPlain(a: Path)
    requires FreeOf(a, NUL)
    ensures Flat(a, NUL) == a
  {
    if a != [] {
      SplitFlat(a, NUL);
      SplitJoin(a, NUL);
    }
  }

  /** A name that holds a NUL is given the folder of a longer path. */
  method NulSharesFolder(tree: FolderTree, supply: seq<Id>) returns (longer: Id, shorter: Id)
    requires tree.Valid() && FreshFor(supply, tree.folders) && |supply| >= 3
    modifies tree
    ensures longer == shorter
  {
    hide Flat;
    longer, shorter := SharesExactly(tree, ["a", "b"], [['a', NUL, 'b']], supply);
    SameName();
    JoinSameExactly(["a", "b"], [['a', NUL, 'b']], NUL);
  }

  lemma SameName()
    ensures PathName([['a', NUL, 'b']]) == PathName(["a", "b"])
  {
    assert Join(["b"], NUL) == "b";
    assert ["a", "b"][1..] == ["b"];
  }
}
