/** Exporting an account and importing the bundle into an empty one gives the account back. */
module ImportCopy {
  import opened Text
  import ParentOrder
  import FolderForest
  import opened Import
  import opened ImportFacts
  import opened ImportChains

  // Tables that grow by one record at a time.

  ghost predicate NoTwice(s: seq<string>) { forall i, j :: 0 <= i < j < |s| ==> s[i] != s[j] }

  /** The old identifiers, in order, against the new ones. */
  ghost predicate IdsAre(ids: map<Id, Id>, olds: seq<Id>, mint: seq<Id>) {
    && |olds| <= |mint| && (forall id :: id in ids <==> id in olds)
    && forall k :: 0 <= k < |olds| ==> olds[k] in ids && ids[olds[k]] == mint[k]
  }

  ghost predicate RowsAre<T>(rows: map<Id, T>, made: seq<T>, mint: seq<Id>) {
    && |made| <= |mint| && (forall id :: id in rows <==> id in mint[..|made|])
    && forall k :: 0 <= k < |made| ==> mint[k] in rows && rows[mint[k]] == made[k]
  }

  ghost predicate TakenAre(taken: set<string>, names: seq<string>) { forall key :: key in taken <==> key in names }

  lemma IdsMore(ids: map<Id, Id>, olds: seq<Id>, mint: seq<Id>, id: Id)
    requires IdsAre(ids, olds, mint) && |olds| < |mint| && id !in olds
    ensures IdsAre(ids[id := mint[|olds|]], olds + [id], mint)
  {
  }

  lemma RowsMore<T>(rows: map<Id, T>, made: seq<T>, mint: seq<Id>, row: T)
    requires RowsAre(rows, made, mint) && |made| < |mint| && Minted(mint, {})
    ensures mint[|made|] !in rows && RowsAre(rows[mint[|made|] := row], made + [row], mint)
  {
    var n := |made|;
    assert mint[n] !in mint[..n];
    assert mint[..n + 1] == mint[..n] + [mint[n]];
  }

  lemma IdsOneToOne(ids: map<Id, Id>, olds: seq<Id>, mint: seq<Id>)
    requires IdsAre(ids, olds, mint) && Minted(mint, {})
    ensures OneToOne(ids)
  {
    forall a, b | a in ids && b in ids && ids[a] == ids[b] ensures a == b {
      var i :| 0 <= i < |olds| && olds[i] == a;
      var j :| 0 <= j < |olds| && olds[j] == b;
      assert mint[i] == mint[j];
    }
  }

  lemma IdsMinted(ids: map<Id, Id>, olds: seq<Id>, mint: seq<Id>, id: Id)
    requires IdsAre(ids, olds, mint) && Minted(mint, {}) && id in ids
    ensures ids[id] != "" && '/' !in ids[id]
  {
    var i :| 0 <= i < |olds| && olds[i] == id;
  }

  /** Where a reference goes; the empty one stays empty. */
  function Image(ids: map<Id, Id>, id: Id): Id { if id in ids then ids[id] else "" }

  // Credentials.

  ghost function CredOlds(items: seq<Item<Cred>>): seq<Id> { seq(|items|, i requires 0 <= i < |items| => items[i].id) }
  ghost function CredRows(items: seq<Item<Cred>>): seq<Cred>
  { seq(|items|, i requires 0 <= i < |items| => items[i].row) }
  ghost function CredKeys(items: seq<Item<Cred>>): seq<string>
  { seq(|items|, i requires 0 <= i < |items| => Lower(items[i].row.name)) }

  /** As stored: trimmed, named, of a known kind. */
  ghost predicate StoredCred(c: Cred)
  { Trim(c.name) == c.name != "" && KnownKind(c.kind) && Trim(c.username) == c.username }

  ghost predicate GoodCreds(items: seq<Item<Cred>>) {
    NoTwice(CredOlds(items)) && NoTwice(CredKeys(items)) && forall k :: 0 <= k < |items| ==> StoredCred(items[k].row)
  }

  ghost predicate CredsMade(t: State, items: seq<Item<Cred>>, mint: seq<Id>) {
    IdsAre(t.credIds, CredOlds(items), mint) && RowsAre(t.acc.creds, CredRows(items), mint)
        && TakenAre(t.takenCreds.Keys, CredKeys(items))
  }

  lemma CredParts(items: seq<Item<Cred>>)
    requires items != []
    ensures var n := |items| - 1;
            && CredOlds(items) == CredOlds(items[..n]) + [items[n].id]
                && CredRows(items) == CredRows(items[..n]) + [items[n].row]
            && CredKeys(items) == CredKeys(items[..n]) + [Lower(items[n].row.name)]
  {
    hide Lower;
  }

  lemma LastNew(s: seq<string>, x: string)
    requires NoTwice(s + [x])
    ensures NoTwice(s) && x !in s
  {
    var t := s + [x];
    forall i, j | 0 <= i < j < |s| ensures s[i] != s[j] { assert t[i] == s[i] && t[j] == s[j]; }
    forall i | 0 <= i < |s| ensures s[i] != x { assert t[i] == s[i] && t[|s|] == x; }
  }

  lemma {:induction false} CredsCopied(s: State, items: seq<Item<Cred>>, policy: Policy, mint: seq<Id>)
    requires GoodCreds(items) && |items| <= |mint| && Minted(mint, {}) && CredsMade(s, [], mint)
    ensures var r := Creds(s, items, policy, mint);
            r.Done? && CredsMade(r.state, items, mint) && r.state.skipped == s.skipped
  {
    hide CredsMade, Minted, CredStep, Lower, Trim;
    if items != [] {
      var n := |items| - 1;
      CredParts(items);
      LastNew(CredOlds(items[..n]), items[n].id);
      LastNew(CredKeys(items[..n]), Lower(items[n].row.name));
      CredsCopied(s, items[..n], policy, mint);
      CredCopied(Creds(s, items[..n], policy, mint).state, items, policy, mint);
    } else {
      assert items == [];
    }
  }

  lemma CredCopied(b: State, items: seq<Item<Cred>>, policy: Policy, mint: seq<Id>)
    requires items != [] && |items| <= |mint| && Minted(mint, {}) && StoredCred(items[|items| - 1].row)
    requires var n := |items| - 1;
             CredsMade(b, items[..n], mint) && items[n].id !in CredOlds(items[..n])
                 && Lower(items[n].row.name) !in CredKeys(items[..n])
    ensures var r := CredStep(b, items[|items| - 1], policy, mint[|items| - 1]);
            r.Done? && CredsMade(r.state, items, mint) && r.state.skipped == b.skipped
  {
    hide Lower, Trim, CredOlds, CredRows, CredKeys, Minted, IdsAre, RowsAre;
    var n := |items| - 1;
    CredParts(items);
    assert |CredOlds(items[..n])| == n && |CredRows(items[..n])| == n by { CredLengths(items[..n]); }
    IdsMore(b.credIds, CredOlds(items[..n]), mint, items[n].id);
    RowsMore(b.acc.creds, CredRows(items[..n]), mint, items[n].row);
  }

  lemma CredLengths(items: seq<Item<Cred>>)
    ensures |CredOlds(items)| == |CredRows(items)| == |CredKeys(items)| == |items|
  {
  }

  // Folders.

  ghost function FolderOlds(fs: seq<ParentOrder.Folder>): seq<Id> { seq(|fs|, i requires 0 <= i < |fs| => fs[i].id) }
  ghost function FolderKeys(fs: seq<ParentOrder.Folder>): seq<string>
  { seq(|fs|, i requires 0 <= i < |fs| => Lower(fs[i].name)) }

  /** The new row of each folder, under the parent's new identifier. */
  ghost function NewFolders(ids: map<Id, Id>, fs: seq<ParentOrder.Folder>): seq<FolderRow> {
    seq(|fs|, i requires 0 <= i < |fs| => FolderRow(Image(ids, fs[i].parent), fs[i].name, fs[i].defaults))
  }

  /** Every parent is the top level or earlier in the list. */
  ghost predicate ParentsBefore(fs: seq<ParentOrder.Folder>) {
    forall k :: 0 <= k < |fs| ==> fs[k].parent == "" || fs[k].parent in FolderOlds(fs[..k])
  }

  ghost predicate GoodFolders(fs: seq<ParentOrder.Folder>, parents: FolderForest.Folders) {
    && NoTwice(FolderOlds(fs)) && NoTwice(FolderKeys(fs)) && ParentsBefore(fs) && "" !in FolderOlds(fs)
    && forall k :: 0 <= k < |fs| ==>
         && Trim(fs[k].name) == fs[k].name != "" && fs[k].defaults.readable
         && fs[k].id in parents && parents[fs[k].id] == fs[k].parent
         && LevelWithin(parents, fs[k].parent, FolderForest.MaxDepth - 2)
  }

  ghost predicate FoldersMade(t: State, fs: seq<ParentOrder.Folder>, mint: seq<Id>) {
    && IdsAre(t.folderIds, FolderOlds(fs), mint) && RowsAre(t.acc.folders, NewFolders(t.folderIds, fs), mint)
    && TakenAre(t.takenFolders.Keys, FolderKeys(fs))
  }

  lemma FolderParts(fs: seq<ParentOrder.Folder>)
    requires fs != []
    ensures var n := |fs| - 1;
            && FolderOlds(fs) == FolderOlds(fs[..n]) + [fs[n].id]
                && FolderKeys(fs) == FolderKeys(fs[..n]) + [Lower(fs[n].name)]
            && |FolderOlds(fs[..n])| == n
    ensures forall ids ::
              NewFolders(ids, fs)
              == NewFolders(ids, fs[..|fs| - 1])
                 + [FolderRow(Image(ids, fs[|fs| - 1].parent), fs[|fs| - 1].name, fs[|fs| - 1].defaults)]
  {
    hide Lower;
    forall ids
      ensures NewFolders(ids, fs)
              == NewFolders(ids, fs[..|fs| - 1])
                 + [FolderRow(Image(ids, fs[|fs| - 1].parent), fs[|fs| - 1].name, fs[|fs| - 1].defaults)]
    {
    }
  }

  lemma GoodFewer(fs: seq<ParentOrder.Folder>, parents: FolderForest.Folders)
    requires fs != [] && GoodFolders(fs, parents)
    ensures var n := |fs| - 1;
            GoodFolders(fs[..n], parents) && fs[n].id !in FolderOlds(fs[..n])
                && Lower(fs[n].name) !in FolderKeys(fs[..n])
  {
    hide Lower, Trim, LevelWithin;
    var n := |fs| - 1;
    FolderParts(fs);
    LastNew(FolderOlds(fs[..n]), fs[n].id);
    LastNew(FolderKeys(fs[..n]), Lower(fs[n].name));
    forall k | 0 <= k < n ensures fs[..n][k].parent == "" || fs[..n][k].parent in FolderOlds(fs[..n][..k]) {
      assert fs[..n][..k] == fs[..k];
    }
  }

  /** Making one more folder leaves where the earlier parents went. */
  lemma NewFoldersKeep(ids: map<Id, Id>, fs: seq<ParentOrder.Folder>, id: Id, new': Id)
    requires ParentsBefore(fs) && id !in FolderOlds(fs) && id != "" && "" !in FolderOlds(fs)
    requires forall x :: x in FolderOlds(fs) ==> x in ids
    ensures NewFolders(ids[id := new'], fs) == NewFolders(ids, fs)
  {
    forall k | 0 <= k < |fs| ensures Image(ids[id := new'], fs[k].parent) == Image(ids, fs[k].parent) {
      if fs[k].parent != "" {
        var j :| 0 <= j < k && FolderOlds(fs[..k])[j] == fs[k].parent;
        assert FolderOlds(fs)[j] == fs[k].parent;
      }
    }
  }

  /** A folder is as deep in the copy as it was. */
  lemma {:induction false} LevelCarries(t: State, fs: seq<ParentOrder.Folder>, mint: seq<Id>,
      parents: FolderForest.Folders, id: Id, limit: nat)
    requires FoldersMade(t, fs, mint) && GoodFolders(fs, parents) && (id == "" || id in FolderOlds(fs))
      && LevelWithin(parents, id, limit)
    ensures LevelWithin(Parents(t.acc.folders), Image(t.folderIds, id), limit)
    decreases limit
  {
    hide FoldersMade, GoodFolders;
    if id == "" {
      FoldersKnown(t, fs, mint, parents);
    } else {
      CopyAt(t, fs, mint, parents, id);
      LevelCarries(t, fs, mint, parents, parents[id], limit - 1);
    }
  }

  lemma CopyAt(t: State, fs: seq<ParentOrder.Folder>, mint: seq<Id>, parents: FolderForest.Folders, id: Id)
    requires FoldersMade(t, fs, mint) && GoodFolders(fs, parents) && id in FolderOlds(fs)
    ensures id in parents && id in t.folderIds && t.folderIds[id] in t.acc.folders
    ensures t.acc.folders[t.folderIds[id]].parent == Image(t.folderIds, parents[id])
    ensures parents[id] == "" || parents[id] in FolderOlds(fs)
  {
    hide Lower, Trim, LevelWithin, TakenAre, NoTwice;
    var k :| 0 <= k < |fs| && FolderOlds(fs)[k] == id;
    assert parents[id] == fs[k].parent && t.folderIds[id] == mint[k];
    assert t.acc.folders[mint[k]] == NewFolders(t.folderIds, fs)[k];
    if fs[k].parent != "" {
      var j :| 0 <= j < k && FolderOlds(fs[..k])[j] == fs[k].parent;
      assert FolderOlds(fs)[j] == fs[k].parent;
    }
  }

  lemma {:induction false} FoldersCopied(s: State, fs: seq<ParentOrder.Folder>, parents: FolderForest.Folders,
      policy: Policy, mint: seq<Id>)
    requires GoodFolders(fs, parents) && |fs| <= |mint| && Minted(mint, {}) && FoldersMade(s, [], mint)
    ensures var r := Folders(s, fs, policy, "", mint);
            r.Done? && FoldersMade(r.state, fs, mint) && r.state.skipped == s.skipped
  {
    hide FoldersMade, Minted, FolderStep, GoodFolders, FolderOlds, FolderKeys, Lower;
    if fs != [] {
      var n := |fs| - 1;
      GoodFewer(fs, parents);
      FoldersCopied(s, fs[..n], parents, policy, mint);
      FolderCopied(Folders(s, fs[..n], policy, "", mint).state, fs, parents, policy, mint);
    } else {
      assert fs == [];
    }
  }

  lemma LastParent(fs: seq<ParentOrder.Folder>, parents: FolderForest.Folders)
    requires fs != [] && GoodFolders(fs, parents)
    ensures var f := fs[|fs| - 1];
            && (f.parent == "" || f.parent in FolderOlds(fs[..|fs| - 1]))
                && LevelWithin(parents, f.parent, FolderForest.MaxDepth - 2)
            && Trim(f.name) == f.name != "" && f.id != "" && f.defaults.readable
  {
    hide Lower, Trim, LevelWithin;
    assert fs[|fs| - 1].id == FolderOlds(fs)[|fs| - 1];
  }

  lemma FolderCopied(b: State, fs: seq<ParentOrder.Folder>, parents: FolderForest.Folders, policy: Policy,
      mint: seq<Id>)
    requires fs != [] && |fs| <= |mint| && Minted(mint, {}) && GoodFolders(fs, parents)
    requires FoldersMade(b, fs[..|fs| - 1], mint)
    ensures var r := FolderStep(b, fs[|fs| - 1], policy, "", mint[|fs| - 1]);
            r.Done? && FoldersMade(r.state, fs, mint) && r.state.skipped == b.skipped
  {
    hide Lower, Trim, FolderOlds, FolderKeys, NewFolders, Minted, IdsAre, RowsAre, GoodFolders, LevelWithin;
    var n := |fs| - 1;
    var f := fs[n];
    GoodFewer(fs, parents);
    LastParent(fs, parents);
    FolderParts(fs);
    LevelCarries(b, fs[..n], mint, parents, f.parent, FolderForest.MaxDepth - 2);
    FoldersKnown(b, fs[..n], mint, parents);
    var ids := b.folderIds[f.id := mint[n]];
    IdsMore(b.folderIds, FolderOlds(fs[..n]), mint, f.id);
    GoodBefore(fs[..n], parents);
    NewFoldersKeep(b.folderIds, fs[..n], f.id, mint[n]);
    NewLength(b.folderIds, fs[..n]);
    var row := FolderRow(Image(ids, f.parent), f.name, f.defaults);
    RowsMore(b.acc.folders, NewFolders(ids, fs[..n]), mint, row);
    assert Image(ids, f.parent) == Image(b.folderIds, f.parent);
  }

  lemma NewLength(ids: map<Id, Id>, fs: seq<ParentOrder.Folder>)
    ensures |NewFolders(ids, fs)| == |FolderOlds(fs)| == |FolderKeys(fs)| == |fs|
  {
  }

  lemma GoodBefore(fs: seq<ParentOrder.Folder>, parents: FolderForest.Folders)
    requires GoodFolders(fs, parents)
    ensures ParentsBefore(fs) && "" !in FolderOlds(fs)
  {
  }

  lemma FoldersKnown(t: State, fs: seq<ParentOrder.Folder>, mint: seq<Id>, parents: FolderForest.Folders)
    requires FoldersMade(t, fs, mint) && GoodFolders(fs, parents)
    ensures (forall id :: id in t.folderIds <==> id in FolderOlds(fs)) && "" !in t.folderIds
  {
  }

  /**
   Why names must differ across the whole bundle: where conflicts are not renamed and the account has
   no folders yet, a folder is skipped exactly when an earlier one was called the same, wherever in the
   tree they are. With names that differ none is skipped, failure or not; and where none was skipped in
   the end, they differ.
   */
  lemma {:induction false} AllMadeExactly(s: State, fs: seq<ParentOrder.Folder>, policy: Policy, into: Id,
      mint: seq<Id>)
    requires policy != Rename && s.takenFolders == map[] && |fs| <= |mint|
    ensures var r := Folders(s, fs, policy, into, mint);
            && r.state.skipped >= s.skipped && (NoTwice(FolderKeys(fs)) ==> r.state.skipped == s.skipped)
            && (r.Done? ==> TakenAre(r.state.takenFolders.Keys, FolderKeys(fs)))
            && (r.Done? ==> (r.state.skipped == s.skipped <==> NoTwice(FolderKeys(fs))))
  {
    hide Lower, Trim, LevelWithin, NoTwice;
    if fs == [] {
      assert FolderKeys(fs) == [] && NoTwice([]) by { NoneTwice(); }
    } else {
      var n := |fs| - 1;
      AllMadeExactly(s, fs[..n], policy, into, mint);
      FolderParts(fs);
      TwiceOrNot(FolderKeys(fs[..n]), Lower(fs[n].name));
    }
  }

  lemma NoneTwice()
    ensures NoTwice([])
  {
  }

  lemma TwiceOrNot(s: seq<string>, x: string)
    ensures NoTwice(s + [x]) <==> NoTwice(s) && x !in s
  {
    if NoTwice(s + [x]) { LastNew(s, x); }
  }

  /** A folder "a", and in it one called "A": the inner one is skipped. */
  lemma InnerSkipped(ids: seq<Id>)
    requires |ids| >= 2
    ensures var fs :=
      [ParentOrder.Folder("1", "", "a", ParentOrder.NoSettings),
      ParentOrder.Folder("2", "1", "A", ParentOrder.NoSettings)];
            var r := Folders(Begin(Account(map[], map[], map[]), Listing([], [])), fs, Skip, "", ids);
            r.Done? && r.state.folders == 1 && r.state.skipped == 1
  {
    var a, b := ParentOrder.Folder("1", "", "a", ParentOrder.NoSettings),
        ParentOrder.Folder("2", "1", "A", ParentOrder.NoSettings);
    var fs, s := [a, b], Begin(Account(map[], map[], map[]), Listing([], []));
    assert Lower("a") == "a" && Lower("A") == "a" && Trim("a") == "a";
    assert fs[..1] == [a] && [a][..0] == [];
    assert Folders(s, [], Skip, "", ids) == Done(s);
    var one := FolderStep(s, a, Skip, "", ids[0]);
    assert one.Done? && one.state.folders == 1 && "a" in one.state.takenFolders && one.state.skipped == 0;
    assert Folders(s, [a], Skip, "", ids) == one;
  }

  // Connections.

  /** In one folder and called the same, ignoring case. */
  ghost predicate SameSlot(a: Conn, b: Conn) { a.folder == b.folder && Lower(a.name) == Lower(b.name) }

  ghost function ConnOlds(items: seq<Item<Conn>>): seq<Id> { seq(|items|, i requires 0 <= i < |items| => items[i].id) }

  ghost function ConnSlots(folderIds: map<Id, Id>, items: seq<Item<Conn>>): seq<string> {
    seq(|items|, i requires 0 <= i < |items| => Slot(Image(folderIds, items[i].row.folder), items[i].row.name))
  }

  function Moved(folderIds: map<Id, Id>, credIds: map<Id, Id>, c: Conn, chain: seq<Id>): Conn {
    c.(folder := Image(folderIds, c.folder), credential := Image(credIds, c.credential), chain := chain)
  }

  ghost function NewConns(folderIds: map<Id, Id>, credIds: map<Id, Id>, items: seq<Item<Conn>>): seq<Conn> {
    seq(|items|, i requires 0 <= i < |items| => Moved(folderIds, credIds, items[i].row, []))
  }

  /** As stored: trimmed, named, of a known protocol, with a host unless serial, on a port in range. */
  ghost predicate StoredRow(c: Conn) {
    && Trim(c.name) == c.name != "" && KnownProtocol(c.protocol) && Trim(c.hostname) == c.hostname
        && Trim(c.username) == c.username
    && (c.hostname == "" ==> c.protocol == "serial") && (c.port == 0 || 1 <= c.port <= 65535) && c.settings.readable
  }

  ghost predicate GoodConns(s: State, items: seq<Item<Conn>>) {
    && NoTwice(ConnOlds(items)) && NoTwice(ConnSlots(s.folderIds, items))
    && forall k :: 0 <= k < |items| ==>
         StoredRow(items[k].row)
             && (Image(s.folderIds, items[k].row.folder) == ""
             || Image(s.folderIds, items[k].row.folder) in s.acc.folders)
  }

  ghost predicate ConnsMade(s: State, t: State, items: seq<Item<Conn>>, mint: seq<Id>) {
    && t == s.(acc := s.acc.(conns := t.acc.conns), connIds := t.connIds, takenConns := t.takenConns, conns := t.conns)
    && IdsAre(t.connIds, ConnOlds(items), mint) && RowsAre(t.acc.conns, NewConns(s.folderIds, s.credIds, items), mint)
    && TakenAre(t.takenConns, ConnSlots(s.folderIds, items))
  }

  lemma ConnParts(s: State, items: seq<Item<Conn>>)
    requires items != []
    ensures var n := |items| - 1;
            && ConnOlds(items) == ConnOlds(items[..n]) + [items[n].id]
                && |ConnOlds(items[..n])| == n == |NewConns(s.folderIds, s.credIds, items[..n])|
            && ConnSlots(s.folderIds, items)
                == ConnSlots(s.folderIds,
                items[..n]) + [Slot(Image(s.folderIds, items[n].row.folder), items[n].row.name)]
            && NewConns(s.folderIds, s.credIds, items)
                == NewConns(s.folderIds, s.credIds, items[..n]) + [Moved(s.folderIds, s.credIds, items[n].row, [])]
  {
    hide Slot, Moved, Image;
  }

  lemma {:induction false} ConnsCopied(s: State, items: seq<Item<Conn>>, policy: Policy, mint: seq<Id>)
    requires GoodConns(s, items) && |items| <= |mint| && Minted(mint, {}) && ConnsMade(s, s, [], mint)
    ensures var r := Conns(s, items, policy, "", mint);
            r.Done? && ConnsMade(s, r.state, items, mint)
  {
    hide ConnsMade, Minted, ConnStep, Slot, ConnOlds, ConnSlots, Trim, NoTwice;
    if items != [] {
      var n := |items| - 1;
      ConnParts(s, items);
      LastNew(ConnOlds(items[..n]), items[n].id);
      LastNew(ConnSlots(s.folderIds, items[..n]), Slot(Image(s.folderIds, items[n].row.folder), items[n].row.name));
      ConnsCopied(s, items[..n], policy, mint);
      ConnCopied(s, Conns(s, items[..n], policy, "", mint).state, items, policy, mint);
    } else {
      assert items == [];
    }
  }

  lemma ConnAccepted(b: State, item: Item<Conn>, policy: Policy, mint: Id)
    requires StoredRow(item.row)
      && (Image(b.folderIds, item.row.folder) == "" || Image(b.folderIds, item.row.folder) in b.acc.folders)
    requires Slot(Image(b.folderIds, item.row.folder), item.row.name) !in b.takenConns
    ensures ConnStep(b, item, policy, "", mint)
            == Done(b.(acc := b.acc.(conns := b.acc.conns[mint := Moved(b.folderIds, b.credIds, item.row, [])]),
                connIds := b.connIds[item.id := mint],
                       takenConns := b.takenConns + {Slot(Image(b.folderIds, item.row.folder), item.row.name)},
                           conns := b.conns + 1))
  {
    hide Slot, Trim;
    assert Destination(b, "", item.row.folder) == Image(b.folderIds, item.row.folder);
  }

  lemma ConnCopied(s: State, b: State, items: seq<Item<Conn>>, policy: Policy, mint: seq<Id>)
    requires items != [] && |items| <= |mint| && Minted(mint, {}) && GoodConns(s, items)
    requires var n := |items| - 1;
             && ConnsMade(s, b, items[..n], mint) && items[n].id !in ConnOlds(items[..n])
             && Slot(Image(s.folderIds, items[n].row.folder), items[n].row.name) !in ConnSlots(s.folderIds, items[..n])
    ensures var r := ConnStep(b, items[|items| - 1], policy, "", mint[|items| - 1]);
            r.Done? && ConnsMade(s, r.state, items, mint)
  {
    hide Slot, ConnOlds, NewConns, ConnSlots, Minted, IdsAre, RowsAre, StoredRow, Image, Moved, ConnStep, NoTwice;
    var n := |items| - 1;
    ConnParts(s, items);
    ConnAccepted(b, items[n], policy, mint[n]);
    IdsMore(b.connIds, ConnOlds(items[..n]), mint, items[n].id);
    RowsMore(b.acc.conns, NewConns(s.folderIds, s.credIds, items[..n]), mint,
        Moved(s.folderIds, s.credIds, items[n].row, []));
  }
}
