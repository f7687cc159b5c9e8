/** An account exported and imported into an empty one is the same account under new identifiers. */
module ImportRoundTrip {
  import opened Text
  import ParentOrder
  import JumpGraph
  import FolderForest
  import opened Import
  import opened ImportFacts
  import opened ImportAgain
  import opened ImportChains
  import opened ImportCopy

  const Nothing := Account(map[], map[], map[])

  /** In what order an account lists everything it has. */
  datatype Order = Order(creds: seq<Id>, folders: seq<Id>, conns: seq<Id>)

  ghost predicate Enumerates(s: seq<Id>, keys: set<Id>) { NoTwice(s) && forall id :: id in s <==> id in keys }

  ghost predicate ListsAll(order: Order, acc: Account) {
    Enumerates(order.creds, acc.creds.Keys) && Enumerates(order.folders, acc.folders.Keys)
        && Enumerates(order.conns, acc.conns.Keys)
  }

  predicate Gatherable(acc: Account, order: Order) {
    forall i :: 0 <= i < |order.conns| && order.conns[i] in acc.conns ==>
      Resolves(Parents(acc.folders), acc.conns[order.conns[i]].folder, FolderForest.MaxDepth + 1)
  }

  function CredItems(acc: Account, ids: seq<Id>): seq<Item<Cred>>
    requires forall i :: 0 <= i < |ids| ==> ids[i] in acc.creds
  {
    seq(|ids|, i requires 0 <= i < |ids| => Item(ids[i], acc.creds[ids[i]]))
  }

  function FolderItems(acc: Account, ids: seq<Id>): seq<ParentOrder.Folder>
    requires forall i :: 0 <= i < |ids| ==> ids[i] in acc.folders
  {
    seq(|ids|, i requires 0 <= i < |ids| => ParentOrder.Folder(ids[i], acc.folders[ids[i]].parent,
        acc.folders[ids[i]].name, acc.folders[ids[i]].defaults))
  }

  function ConnItems(acc: Account, ids: seq<Id>): seq<Item<Conn>>
    requires forall i :: 0 <= i < |ids| ==> ids[i] in acc.conns
  {
    seq(|ids|, i requires 0 <= i < |ids| => Item(ids[i], acc.conns[ids[i]]))
  }

  /** Everything the account has, unless some connection does not resolve. */
  function GatherAll(acc: Account, order: Order): JumpGraph.Option<Payload>
    requires forall i :: 0 <= i < |order.creds| ==> order.creds[i] in acc.creds
    requires forall i :: 0 <= i < |order.folders| ==> order.folders[i] in acc.folders
    requires forall i :: 0 <= i < |order.conns| ==> order.conns[i] in acc.conns
  {
    if !Gatherable(acc, order) then JumpGraph.None
    else JumpGraph.Some(Payload(CredItems(acc, order.creds), FolderItems(acc, order.folders),
        ConnItems(acc, order.conns)))
  }

  /** The account as it is exported: with its secrets, or with none. */
  function Redacted(acc: Account, secrets: bool): Account {
    if secrets then acc else acc.(creds := map id | id in acc.creds :: acc.creds[id].(secret := ""))
  }

  /** Gather. */
  function Gather(acc: Account, order: Order, secrets: bool): JumpGraph.Option<Payload>
    requires forall i :: 0 <= i < |order.creds| ==> order.creds[i] in acc.creds
    requires forall i :: 0 <= i < |order.folders| ==> order.folders[i] in acc.folders
    requires forall i :: 0 <= i < |order.conns| ==> order.conns[i] in acc.conns
  {
    GatherAll(Redacted(acc, secrets), order)
  }

  /**
   A bundle holds every record as it is, under its own identifier and in the order listed, but no secret unless
   secrets were asked for. There is one unless some connection is in a folder that cannot be resolved.
   */
  lemma GatherIs(acc: Account, order: Order, secrets: bool)
    requires ListsAll(order, acc)
    ensures Gather(acc, order, secrets).Some? <==>
      forall id :: id in acc.conns ==> Resolves(Parents(acc.folders), acc.conns[id].folder, 33)
    ensures Gather(acc, order, secrets).Some? ==>
              var p := Gather(acc, order, secrets).value;
              && |p.creds| == |order.creds| && |p.folders| == |order.folders| && |p.conns| == |order.conns|
              && (forall k :: 0 <= k < |p.creds| ==>
                    var c := acc.creds[order.creds[k]];
                    p.creds[k] == Item(order.creds[k],
                        Cred(c.name, c.kind, c.username, if secrets then c.secret else "")))
              && (forall k :: 0 <= k < |p.folders| ==>
                    var f := acc.folders[order.folders[k]];
                    p.folders[k] == ParentOrder.Folder(order.folders[k], f.parent, f.name, f.defaults))
              && (forall k :: 0 <= k < |p.conns| ==> p.conns[k] == Item(order.conns[k], acc.conns[order.conns[k]]))
  {
    hide Resolves;
    assert Redacted(acc, secrets).folders == acc.folders && Redacted(acc, secrets).conns == acc.conns;
    if Gather(acc, order, secrets).Some? {
      forall id | id in acc.conns ensures Resolves(Parents(acc.folders), acc.conns[id].folder, 33) {
        var i :| 0 <= i < |order.conns| && order.conns[i] == id;
      }
    }
  }

  // Accounts that survive the journey.

  ghost predicate TidyCreds(acc: Account) {
    UniqueNames(CredNames(acc)) && forall id :: id in acc.creds ==> StoredCred(acc.creds[id])
  }

  ghost predicate TidyFolders(acc: Account) {
    && "" !in acc.folders && UniqueNames(FolderNames(acc))
    && forall id :: id in acc.folders ==>
         Trim(acc.folders[id].name) == acc.folders[id].name != "" && acc.folders[id].defaults.readable
             && LevelWithin(Parents(acc.folders), id, FolderForest.MaxDepth - 1)
  }

  ghost predicate TidyConns(acc: Account) {
    && "" !in acc.conns
    && (forall a, b :: a in acc.conns && b in acc.conns && SameSlot(acc.conns[a], acc.conns[b]) ==> a == b)
    && (forall id :: id in acc.conns ==>
          && StoredRow(acc.conns[id]) && (acc.conns[id].folder == "" || acc.conns[id].folder in acc.folders)
          && (acc.conns[id].credential == "" || acc.conns[id].credential in acc.creds))
    && "" !in acc.creds
  }

  /** Names differ ignoring case, folders are within the depth limit, references lead somewhere, routes are sound. */
  ghost predicate Tidy(acc: Account) {
    TidyCreds(acc) && TidyFolders(acc) && TidyConns(acc) && forall id :: id in acc.conns ==> Routed(Graph(acc), id)
  }

  /** The same account under other identifiers. */
  ghost predicate SameUnder(acc: Account, copy: Account, f: map<Id, Id>, c: map<Id, Id>, s: map<Id, Id>) {
    && OneToOne(f) && OneToOne(c) && OneToOne(s)
    && f.Keys == acc.folders.Keys && c.Keys == acc.creds.Keys && s.Keys == acc.conns.Keys
    && f.Values == copy.folders.Keys && c.Values == copy.creds.Keys && s.Values == copy.conns.Keys
    && (forall id :: id in acc.creds ==> copy.creds[c[id]] == acc.creds[id])
    && (forall id :: id in acc.folders ==>
          copy.folders[f[id]]
          == FolderRow(Image(f, acc.folders[id].parent), acc.folders[id].name, acc.folders[id].defaults))
    && (forall id :: id in acc.conns ==>
          Within(acc.conns[id].chain, s) && copy.conns[s[id]]
              == Moved(f, c, acc.conns[id], Renamed(s, acc.conns[id].chain)))
  }

  // Credentials.

  lemma TidyGoodCreds(acc: Account, ids: seq<Id>)
    requires TidyCreds(acc) && Enumerates(ids, acc.creds.Keys)
    ensures GoodCreds(CredItems(acc, ids)) && CredOlds(CredItems(acc, ids)) == ids
  {
    hide Lower, StoredCred;
    var items := CredItems(acc, ids);
    assert CredOlds(items) == ids;
    forall i, j | 0 <= i < j < |items| ensures CredKeys(items)[i] != CredKeys(items)[j] {
      assert ids[i] in CredNames(acc) && ids[j] in CredNames(acc) && ids[i] != ids[j];
    }
  }

  // Folders.

  lemma {:induction false} LevelEscapes(acc: Account, ids: seq<Id>, i: nat, limit: nat)
    requires "" !in acc.folders && Enumerates(ids, acc.folders.Keys) && i < |ids|
      && LevelWithin(Parents(acc.folders), ids[i], limit)
    ensures ParentOrder.Escapes(FolderItems(acc, ids), i, limit)
    decreases limit
  {
    var fs := FolderItems(acc, ids);
    if fs[i].parent != "" {
      assert fs[i].parent in acc.folders;
      var j: nat :| j < |ids| && ids[j] == fs[i].parent;
      LevelEscapes(acc, ids, j, limit - 1);
      assert fs[j].id == fs[i].parent;
    }
  }

  /** No folder of the bundle hangs from a loop, so that none loses its parent on the way. */
  lemma NoneTrapped(acc: Account, ids: seq<Id>, i: nat)
    requires TidyFolders(acc) && Enumerates(ids, acc.folders.Keys) && i < |ids|
    ensures ParentOrder.Placed(FolderItems(acc, ids), i) == FolderItems(acc, ids)[i]
  {
    hide Lower, Trim, LevelWithin;
    assert ids[i] in acc.folders;
    LevelEscapes(acc, ids, i, FolderForest.MaxDepth - 1);
  }

  /** What came out of the ordering is the account's folders again. */
  lemma OrderedRow(acc: Account, ids: seq<Id>, ordered: seq<ParentOrder.Folder>, k: nat)
    requires TidyFolders(acc) && Enumerates(ids, acc.folders.Keys) && Ordered(FolderItems(acc, ids), ordered)
      && k < |ordered|
    ensures var f := ordered[k]; f.id in acc.folders && acc.folders[f.id] == FolderRow(f.parent, f.name, f.defaults)
  {
    hide ParentOrder.ParentsFirst, ParentOrder.Placed, TidyFolders;
    var fs := FolderItems(acc, ids);
    var from :| ParentOrder.Arranged(fs, ordered, from);
    NoneTrapped(acc, ids, from[k]);
    assert ordered[k] == fs[from[k]];
  }

  lemma OrderedBefore(acc: Account, ids: seq<Id>, ordered: seq<ParentOrder.Folder>)
    requires TidyFolders(acc) && Enumerates(ids, acc.folders.Keys) && Ordered(FolderItems(acc, ids), ordered)
    ensures ParentsBefore(ordered)
  {
    hide Lower, Trim, UniqueNames, ParentOrder.Arranged;
    var fs := FolderItems(acc, ids);
    forall k | 0 <= k < |ordered| ensures ordered[k].parent == "" || ordered[k].parent in FolderOlds(ordered[..k]) {
      var f := ordered[k];
      OrderedRow(acc, ids, ordered, k);
      if f.parent != "" {
        LevelUp(Parents(acc.folders), f.id, FolderForest.MaxDepth - 1);
        assert f.parent in acc.folders;
        var i :| 0 <= i < |ids| && ids[i] == f.parent;
        assert fs[i].id == f.parent;
        assert ParentOrder.InBundle(fs, f.parent);
        var j :| 0 <= j < k && ordered[j].id == f.parent;
        assert FolderOlds(ordered[..k])[j] == f.parent;
      }
    }
  }

  lemma DistinctItemsIds(acc: Account, ids: seq<Id>)
    requires Enumerates(ids, acc.folders.Keys)
    ensures ParentOrder.DistinctIds(FolderItems(acc, ids))
  {
    var fs := FolderItems(acc, ids);
    forall i, j | 0 <= i < j < |fs| ensures fs[i].id != fs[j].id { assert ids[i] != ids[j]; }
  }

  lemma TidyGoodFolders(acc: Account, ids: seq<Id>, ordered: seq<ParentOrder.Folder>)
    requires TidyFolders(acc) && Enumerates(ids, acc.folders.Keys) && Ordered(FolderItems(acc, ids), ordered)
    ensures GoodFolders(ordered, Parents(acc.folders))
    ensures forall id :: id in FolderOlds(ordered) <==> id in acc.folders
  {
    hide Lower, Trim, Ordered, LevelWithin, ParentsBefore;
    DistinctItemsIds(acc, ids);
    OrderedSame(FolderItems(acc, ids), ordered);
    OrderedBefore(acc, ids, ordered);
    forall k | 0 <= k < |ordered|
      ensures var f := ordered[k];
              && f.id in acc.folders && acc.folders[f.id] == FolderRow(f.parent, f.name, f.defaults)
                  && f.id in Parents(acc.folders)
              && Trim(f.name) == f.name != "" && f.defaults.readable
                  && LevelWithin(Parents(acc.folders), f.parent, FolderForest.MaxDepth - 2)
    {
      OrderedRow(acc, ids, ordered, k);
      LevelUp(Parents(acc.folders), ordered[k].id, FolderForest.MaxDepth - 1);
    }
    forall i, j | 0 <= i < j < |ordered| ensures FolderOlds(ordered)[i] != FolderOlds(ordered)[j]
        && FolderKeys(ordered)[i] != FolderKeys(ordered)[j] {
      assert ordered[i].id != ordered[j].id;
      assert ordered[i].id in FolderNames(acc) && ordered[j].id in FolderNames(acc);
    }
    forall id | id in acc.folders ensures id in FolderOlds(ordered) {
      var i :| 0 <= i < |ids| && ids[i] == id;
      assert Present(ordered, FolderItems(acc, ids)[i]);
      var k :| 0 <= k < |ordered| && ordered[k].id == id;
      assert FolderOlds(ordered)[k] == id;
    }
    assert "" !in FolderOlds(ordered);
  }

  lemma LevelUp(parents: FolderForest.Folders, id: Id, limit: nat)
    requires LevelWithin(parents, id, limit) && id != ""
    ensures id in parents && limit > 0 && LevelWithin(parents, parents[id], limit - 1)
  {
  }

  lemma {:induction false} LevelResolves(parents: FolderForest.Folders, id: Id, limit: nat, steps: nat)
    requires LevelWithin(parents, id, limit) && limit <= steps
    ensures Resolves(parents, id, steps)
    decreases limit
  {
    if id != "" { LevelResolves(parents, parents[id], limit - 1, steps - 1); }
  }

  // Connections.

  /** A slot tells the folder and the name. */
  lemma SlotTells(f: Id, n: string, g: Id, m: string)
    requires '/' !in f && '/' !in g && Slot(f, n) == Slot(g, m)
    ensures f == g && Lower(n) == Lower(m)
  {
    FindPrefix(f, '/', Lower(n));
    FindPrefix(g, '/', Lower(m));
    assert Slot(f, n) == f + ['/'] + Lower(n) && Slot(g, m) == g + ['/'] + Lower(m);
    assert Slot(f, n)[..|f|] == f && Slot(g, m)[..|g|] == g;
    assert Slot(f, n)[|f| + 1..] == Lower(n) && Slot(g, m)[|g| + 1..] == Lower(m);
  }

  lemma ImageTells(ids: map<Id, Id>, olds: seq<Id>, mint: seq<Id>, a: Id, b: Id)
    requires IdsAre(ids, olds, mint) && Minted(mint, {})
    requires (a == "" || a in ids) && (b == "" || b in ids) && "" !in ids
    ensures Image(ids, a) == Image(ids, b) ==> a == b
    ensures '/' !in Image(ids, a)
    ensures a != "" ==> Image(ids, a) != ""
  {
    hide IdsAre, Minted;
    IdsOneToOne(ids, olds, mint);
    if a in ids { IdsMinted(ids, olds, mint, a); }
    if b in ids { IdsMinted(ids, olds, mint, b); }
  }

  lemma TidySlots(acc: Account, ids: seq<Id>, s: State, ordered: seq<ParentOrder.Folder>, mint: seq<Id>)
    requires TidyConns(acc) && Enumerates(ids, acc.conns.Keys) && FoldersMade(s, ordered, mint) && Minted(mint, {})
    requires (forall id :: id in FolderOlds(ordered) <==> id in acc.folders) && "" !in acc.folders
    ensures NoTwice(ConnSlots(s.folderIds, ConnItems(acc, ids)))
  {
    hide Slot, StoredRow, Minted, RowsAre, TakenAre, Image;
    var items := ConnItems(acc, ids);
    forall i, j | 0 <= i < j < |items| ensures ConnSlots(s.folderIds, items)[i] != ConnSlots(s.folderIds, items)[j] {
      var a, b := items[i].row, items[j].row;
      assert acc.conns[ids[i]] == a && acc.conns[ids[j]] == b && ids[i] != ids[j];
      assert ids[i] in acc.conns && ids[j] in acc.conns;
      assert !SameSlot(a, b);
      ImageTells(s.folderIds, FolderOlds(ordered), mint, a.folder, b.folder);
      ImageTells(s.folderIds, FolderOlds(ordered), mint, b.folder, a.folder);
      if Slot(Image(s.folderIds, a.folder), a.name) == Slot(Image(s.folderIds, b.folder), b.name) {
        SlotTells(Image(s.folderIds, a.folder), a.name, Image(s.folderIds, b.folder), b.name);
      }
    }
  }

  lemma FolderIsThere(s: State, ordered: seq<ParentOrder.Folder>, mint: seq<Id>, id: Id)
    requires FoldersMade(s, ordered, mint) && id in s.folderIds
    ensures s.folderIds[id] in s.acc.folders
  {
    hide TakenAre;
    var k :| 0 <= k < |FolderOlds(ordered)| && FolderOlds(ordered)[k] == id;
    assert mint[k] == mint[..|ordered|][k];
  }

  lemma TidyGoodConns(acc: Account, ids: seq<Id>, s: State, ordered: seq<ParentOrder.Folder>, mint: seq<Id>)
    requires TidyConns(acc) && Enumerates(ids, acc.conns.Keys) && FoldersMade(s, ordered, mint) && Minted(mint, {})
    requires (forall id :: id in FolderOlds(ordered) <==> id in acc.folders) && "" !in acc.folders
    ensures GoodConns(s, ConnItems(acc, ids)) && ConnOlds(ConnItems(acc, ids)) == ids
  {
    hide Slot, StoredRow, Minted, FoldersMade, TakenAre, RowsAre, SameSlot, ConnSlots;
    var items := ConnItems(acc, ids);
    assert ConnOlds(items) == ids;
    TidySlots(acc, ids, s, ordered, mint);
    forall k | 0 <= k < |items|
      ensures StoredRow(items[k].row)
        && (Image(s.folderIds, items[k].row.folder) == "" || Image(s.folderIds, items[k].row.folder) in s.acc.folders)
    {
      assert ids[k] in acc.conns;
      if items[k].row.folder in s.folderIds { FolderIsThere(s, ordered, mint, items[k].row.folder); }
    }
  }

  // Jump chains.

  lemma TidyResolves(acc: Account, id: Id)
    requires TidyFolders(acc) && TidyConns(acc) && id in acc.conns
    ensures LevelWithin(Parents(acc.folders), acc.conns[id].folder, FolderForest.MaxDepth - 1)
    ensures Resolves(Parents(acc.folders), acc.conns[id].folder, FolderForest.MaxDepth + 1)
  {
    hide Lower, Trim, StoredRow, UniqueNames, SameSlot, Resolves;
    LevelResolves(Parents(acc.folders), acc.conns[id].folder, FolderForest.MaxDepth - 1, FolderForest.MaxDepth + 1);
  }

  /** The bundle's graph is the account's. */
  lemma SameGraph(acc: Account, ids: seq<Id>)
    requires TidyFolders(acc) && TidyConns(acc) && Enumerates(ids, acc.conns.Keys)
    ensures BundleGraph(ConnItems(acc, ids)) == Graph(acc) && DistinctItems(ConnItems(acc, ids))
  {
    hide TidyFolders, TidyConns, Resolves, BundleGraph;
    var items, g := ConnItems(acc, ids), Graph(acc);
    var b := BundleGraph(items);
    assert DistinctItems(items) by {
      forall i, j | 0 <= i < j < |items| ensures items[i].id != items[j].id { assert ids[i] != ids[j]; }
    }
    forall id ensures id in b <==> id in g {
      if id in b { var k := BundleGraphOnly(items, id); assert ids[k] == id; }
      if id in g { var k :| 0 <= k < |ids| && ids[k] == id; BundleGraphAt(items, k); }
    }
    forall id | id in b ensures b[id] == g[id] {
      var k := BundleGraphOnly(items, id);
      BundleGraphAt(items, k);
      assert ids[k] == id;
      TidyResolves(acc, id);
      TidyFolderOf(acc, id);
    }
  }

  lemma TidyRouted(acc: Account, ids: seq<Id>)
    requires Tidy(acc) && Enumerates(ids, acc.conns.Keys)
    ensures DistinctItems(ConnItems(acc, ids)) && AllRouted(ConnItems(acc, ids))
  {
    hide TidyCreds, TidyFolders, TidyConns, Routed, BundleGraph, Graph;
    SameGraph(acc, ids);
    forall k | 0 <= k < |ids| ensures Routed(BundleGraph(ConnItems(acc, ids)), ConnItems(acc, ids)[k].id) {
      assert ids[k] in acc.conns;
    }
  }

  lemma RowAt(s: State, c: State, items: seq<Item<Conn>>, mint: seq<Id>, k: nat)
    requires ConnsMade(s, c, items, mint) && Minted(mint, {}) && k < |items|
    ensures items[k].id in c.connIds && c.connIds[items[k].id] == mint[k] && mint[k] in c.acc.conns
    ensures c.acc.conns[mint[k]] == Moved(s.folderIds, s.credIds, items[k].row, [])
    ensures c.acc.folders == s.acc.folders && c.folderIds == s.folderIds && c.credIds == s.credIds
  {
    hide TakenAre, Moved;
    assert ConnOlds(items)[k] == items[k].id;
    assert NewConns(s.folderIds, s.credIds, items)[k] == Moved(s.folderIds, s.credIds, items[k].row, []);
  }

  lemma BlankIsFree<T>(rows: map<Id, T>, made: seq<T>, mint: seq<Id>)
    requires RowsAre(rows, made, mint) && Minted(mint, {})
    ensures "" !in rows
  {
  }

  lemma AllImported(acc: Account, ids: seq<Id>, s: State, c: State, ordered: seq<ParentOrder.Folder>, fmint: seq<Id>,
      mint: seq<Id>)
    requires TidyFolders(acc) && TidyConns(acc) && Enumerates(ids, acc.conns.Keys)
    requires FoldersMade(s, ordered, fmint) && GoodFolders(ordered, Parents(acc.folders))
      && (forall id :: id in FolderOlds(ordered) <==> id in acc.folders)
    requires ConnsMade(s, c, ConnItems(acc, ids), mint) && Minted(mint, {})
    ensures Imported(c, ConnItems(acc, ids))
  {
    hide TidyFolders, TidyConns, FoldersMade, GoodFolders, Minted, Resolves, LevelWithin, FolderOlds;
    var items := ConnItems(acc, ids);
    assert OneToOne(c.connIds) && "" !in c.acc.conns by {
      IdsOneToOne(c.connIds, ConnOlds(items), mint);
      BlankIsFree(c.acc.conns, NewConns(s.folderIds, s.credIds, items), mint);
    }
    hide OneToOne, ConnsMade;
    forall k | 0 <= k < |items| ensures
      && items[k].id in c.connIds && c.connIds[items[k].id] in c.acc.conns
      && c.acc.conns[c.connIds[items[k].id]].chain == []
      && (c.acc.conns[c.connIds[items[k].id]].protocol == Ssh <==> IsSsh(items[k].row))
      && Resolves(Parents(c.acc.folders), c.acc.conns[c.connIds[items[k].id]].folder, FolderForest.MaxDepth + 1)
    {
      RowAt(s, c, items, mint, k);
      assert ids[k] in acc.conns;
      TidyResolves(acc, ids[k]);
      TidyFolderOf(acc, ids[k]);
      LevelCarries(s, ordered, fmint, Parents(acc.folders), items[k].row.folder, FolderForest.MaxDepth - 1);
      LevelResolves(Parents(s.acc.folders), Image(s.folderIds, items[k].row.folder), FolderForest.MaxDepth - 1,
          FolderForest.MaxDepth + 1);
    }
  }

  lemma TidyFolderOf(acc: Account, id: Id)
    requires TidyConns(acc) && id in acc.conns
    ensures acc.conns[id].folder == "" || acc.conns[id].folder in acc.folders
    ensures acc.conns[id].protocol != ""
  {
  }

  // Putting it together.

  lemma {:induction false} NothingTaken(listing: seq<Id>)
    ensures Taken(map[], listing) == map[]
  {
    if listing != [] { NothingTaken(listing[..|listing| - 1]); }
  }

  lemma BeginEmpty(listing: Listing, ids: Supply)
    ensures var s := Begin(Nothing, listing);
            && CredsMade(s, [], ids.creds) && s.takenFolders == map[] && s.takenConns == {} && s.skipped == 0
            && s.folderIds == map[] && s.connIds == map[] && s.acc == Nothing
  {
    hide Taken;
    NothingTaken(listing.creds);
    NothingTaken(listing.folders);
    assert CredNames(Nothing) == map[] && FolderNames(Nothing) == map[] && TakenSlots(Nothing) == {};
  }

  lemma FoldersEmpty(s: State, mint: seq<Id>)
    requires s.folderIds == map[] && s.takenFolders == map[] && s.acc.folders == map[]
    ensures FoldersMade(s, [], mint)
  {
  }

  lemma ConnsEmpty(s: State, mint: seq<Id>)
    requires s.connIds == map[] && s.takenConns == {} && s.acc.conns == map[]
    ensures ConnsMade(s, s, [], mint)
  {
  }

  /** New identifiers and new rows belong together. */
  lemma IdsAndRows<T>(ids: map<Id, Id>, olds: seq<Id>, rows: map<Id, T>, made: seq<T>, mint: seq<Id>)
    requires IdsAre(ids, olds, mint) && RowsAre(rows, made, mint) && |olds| == |made| && Minted(mint, {})
    ensures ids.Values == rows.Keys && OneToOne(ids) && forall id :: id in ids <==> id in olds
  {
    IdsOneToOne(ids, olds, mint);
    hide Minted;
    forall id | id in ids ensures ids[id] in rows { var k := RowOf(ids, olds, rows, made, mint, id); }
    forall x | x in rows ensures x in ids.Values {
      var k :| 0 <= k < |made| && mint[..|made|][k] == x;
      assert ids[olds[k]] == x;
    }
  }

  lemma RowOf<T>(ids: map<Id, Id>, olds: seq<Id>, rows: map<Id, T>, made: seq<T>, mint: seq<Id>, id: Id)
      returns (k: nat)
    requires IdsAre(ids, olds, mint) && RowsAre(rows, made, mint) && |olds| == |made| && id in ids
    ensures k < |olds| && olds[k] == id && ids[id] == mint[k] && ids[id] in rows && rows[ids[id]] == made[k]
  {
    k :| k < |olds| && olds[k] == id;
  }

  lemma CredsSame(acc: Account, order: seq<Id>, t: State, mint: seq<Id>)
    requires Enumerates(order, acc.creds.Keys) && CredsMade(t, CredItems(acc, order), mint) && Minted(mint, {})
    ensures var c := t.credIds;
            && OneToOne(c) && c.Keys == acc.creds.Keys && c.Values == t.acc.creds.Keys
            && forall id :: id in acc.creds ==> t.acc.creds[c[id]] == acc.creds[id]
  {
    hide TakenAre, IdsAre, RowsAre, Minted;
    var items := CredItems(acc, order);
    assert CredOlds(items) == order;
    IdsAndRows(t.credIds, order, t.acc.creds, CredRows(items), mint);
    forall id | id in acc.creds ensures t.acc.creds[t.credIds[id]] == acc.creds[id] {
      var k := RowOf(t.credIds, order, t.acc.creds, CredRows(items), mint, id);
    }
  }

  lemma FoldersSame(acc: Account, ordered: seq<ParentOrder.Folder>, t: State, mint: seq<Id>)
    requires FoldersMade(t, ordered, mint) && Minted(mint, {})
      && (forall id :: id in FolderOlds(ordered) <==> id in acc.folders)
    requires forall k :: 0 <= k < |ordered| ==>
      ordered[k].id in acc.folders && acc.folders[ordered[k].id]
      == FolderRow(ordered[k].parent, ordered[k].name, ordered[k].defaults)
    ensures var f := t.folderIds;
            && OneToOne(f) && f.Keys == acc.folders.Keys && f.Values == t.acc.folders.Keys
            && forall id :: id in acc.folders ==>
                t.acc.folders[f[id]]
                == FolderRow(Image(f, acc.folders[id].parent), acc.folders[id].name, acc.folders[id].defaults)
  {
    hide TakenAre, IdsAre, RowsAre, Minted;
    var f := t.folderIds;
    IdsAndRows(f, FolderOlds(ordered), t.acc.folders, NewFolders(f, ordered), mint);
    forall id | id in acc.folders ensures t.acc.folders[f[id]]
        == FolderRow(Image(f, acc.folders[id].parent), acc.folders[id].name, acc.folders[id].defaults) {
      var k := RowOf(f, FolderOlds(ordered), t.acc.folders, NewFolders(f, ordered), mint, id);
      assert ordered[k].id == id;
    }
  }

  lemma ConnsSame(acc: Account, order: seq<Id>, s: State, c: State, t: State, mint: seq<Id>)
    requires Enumerates(order, acc.conns.Keys) && ConnsMade(s, c, ConnItems(acc, order), mint) && Minted(mint, {})
    requires Imported(c, ConnItems(acc, order)) && DistinctItems(ConnItems(acc, order))
      && AllRouted(ConnItems(acc, order))
    requires ChainsSet(c, t, ConnItems(acc, order), |order|)
    ensures var ids := t.connIds;
            && OneToOne(ids) && ids.Keys == acc.conns.Keys && ids.Values == t.acc.conns.Keys
            && forall id :: id in acc.conns ==>
                 Within(acc.conns[id].chain, ids)
                     && t.acc.conns[ids[id]]
                     == Moved(s.folderIds, s.credIds, acc.conns[id], Renamed(ids, acc.conns[id].chain))
  {
    hide ConnsMade, Minted, Imported, AllRouted, DistinctItems, ChainsSet, NewChain, Renamed;
    var items := ConnItems(acc, order);
    var ids := c.connIds;
    ConnIdsSame(acc, order, s, c, mint);
    FoldersAlone(c, t, items, |order|);
    KeysAlone(c, t, items, |order|);
    forall id | id in acc.conns
      ensures Within(acc.conns[id].chain, ids)
        && t.acc.conns[ids[id]] == Moved(s.folderIds, s.credIds, acc.conns[id], Renamed(ids, acc.conns[id].chain))
    {
      var k :| 0 <= k < |order| && order[k] == id;
      RowAt(s, c, items, mint, k);
      SetAt(c, t, items, |order|, k);
      ChainsWithin(c, items, k);
      assert NewChain(ids, items[k]) == Renamed(ids, acc.conns[id].chain) by { NewChainIs(ids, items[k]); }
    }
  }

  lemma NewChainIs(ids: map<Id, Id>, item: Item<Conn>)
    requires Within(item.row.chain, ids)
    ensures NewChain(ids, item) == Renamed(ids, item.row.chain)
  {
  }

  lemma ConnIdsSame(acc: Account, order: seq<Id>, s: State, c: State, mint: seq<Id>)
    requires Enumerates(order, acc.conns.Keys) && ConnsMade(s, c, ConnItems(acc, order), mint) && Minted(mint, {})
    ensures OneToOne(c.connIds) && c.connIds.Keys == acc.conns.Keys && c.connIds.Values == c.acc.conns.Keys
  {
    hide TakenAre, IdsAre, RowsAre, Minted;
    var items := ConnItems(acc, order);
    assert ConnOlds(items) == order;
    IdsAndRows(c.connIds, order, c.acc.conns, NewConns(s.folderIds, s.credIds, items), mint);
  }

  lemma KeysAlone(c: State, t: State, items: seq<Item<Conn>>, n: nat)
    requires ChainsSet(c, t, items, n)
    ensures t.acc.conns.Keys == c.acc.conns.Keys && t.acc.creds == c.acc.creds && t.folderIds == c.folderIds
      && t.credIds == c.credIds && t.skipped == c.skipped
  {
  }

  lemma RestAlone(s: State, c: State, items: seq<Item<Conn>>, mint: seq<Id>)
    requires ConnsMade(s, c, items, mint)
    ensures c.acc.creds == s.acc.creds && c.acc.folders == s.acc.folders && c.folderIds == s.folderIds
      && c.credIds == s.credIds && c.skipped == s.skipped
  {
  }

  lemma OrderedRows(acc: Account, ids: seq<Id>, ordered: seq<ParentOrder.Folder>)
    requires TidyFolders(acc) && Enumerates(ids, acc.folders.Keys) && Ordered(FolderItems(acc, ids), ordered)
    ensures forall k :: 0 <= k < |ordered| ==>
      ordered[k].id in acc.folders && acc.folders[ordered[k].id]
      == FolderRow(ordered[k].parent, ordered[k].name, ordered[k].defaults)
  {
    hide TidyFolders, Ordered;
    forall k | 0 <= k < |ordered| ensures ordered[k].id in acc.folders
        && acc.folders[ordered[k].id] == FolderRow(ordered[k].parent, ordered[k].name, ordered[k].defaults) {
      OrderedRow(acc, ids, ordered, k);
    }
  }

  lemma TidyGathers(acc: Account, order: Order)
    requires Tidy(acc) && ListsAll(order, acc)
    ensures GatherAll(acc, order).Some?
  {
    hide TidyCreds, TidyFolders, TidyConns, Routed, Resolves, Graph;
    forall i | 0 <= i < |order.conns| && order.conns[i] in acc.conns
      ensures Resolves(Parents(acc.folders), acc.conns[order.conns[i]].folder, FolderForest.MaxDepth + 1)
    {
      TidyResolves(acc, order.conns[i]);
    }
  }

  /** Connections and their chains, once the folders are there. */
  lemma ConnsJourney(acc: Account, order: seq<Id>, b: State, ordered: seq<ParentOrder.Folder>, policy: Policy,
      ids: Supply)
    requires Tidy(acc) && Enumerates(order, acc.conns.Keys) && |order| <= |ids.conns| && Minted(ids.conns, {})
      && Minted(ids.folders, {})
    requires FoldersMade(b, ordered, ids.folders) && GoodFolders(ordered, Parents(acc.folders))
      && (forall id :: id in FolderOlds(ordered) <==> id in acc.folders)
    requires b.connIds == map[] && b.takenConns == {} && b.acc.conns == map[]
    ensures var items := ConnItems(acc, order);
            var c := Conns(b, items, policy, "", ids.conns);
            c.Done? &&
            var r := Chains(c.state, items);
            && r.Done? && r.state.acc.creds == b.acc.creds && r.state.acc.folders == b.acc.folders
            && r.state.folderIds == b.folderIds && r.state.credIds == b.credIds && r.state.skipped == b.skipped
            && var s := r.state.connIds;
               && OneToOne(s) && s.Keys == acc.conns.Keys && s.Values == r.state.acc.conns.Keys
               && forall id :: id in acc.conns ==>
                    Within(acc.conns[id].chain, s)
                        && r.state.acc.conns[s[id]]
                        == Moved(b.folderIds, b.credIds, acc.conns[id], Renamed(s, acc.conns[id].chain))
  {
    hide TidyCreds, TidyConns, Routed, Graph, FoldersMade, GoodFolders, GoodConns, ConnsMade, Minted, FolderOlds,
         Imported, DistinctItems, AllRouted,
         ChainsSet, Conns, Chains, OneToOne, ConnOlds, Trim, Lower, UniqueNames, LevelWithin;
    var items := ConnItems(acc, order);
    assert |items| == |order|;
    ConnsEmpty(b, ids.conns);
    TidyGoodConns(acc, order, b, ordered, ids.folders);
    ConnsCopied(b, items, policy, ids.conns);
    var c := Conns(b, items, policy, "", ids.conns).state;
    AllImported(acc, order, b, c, ordered, ids.folders, ids.conns);
    TidyRouted(acc, order);
    assert items[..|items|] == items;
    PassKeepsAll(c, items, |items|);
    var t := Chains(c, items).state;
    ConnsSame(acc, order, b, c, t, ids.conns);
    KeysAlone(c, t, items, |items|);
    FoldersAlone(c, t, items, |items|);
    RestAlone(b, c, items, ids.conns);
  }

  lemma ItemsLength(acc: Account, order: Order)
    requires ListsAll(order, acc)
    ensures |CredItems(acc, order.creds)| == |order.creds| && |ConnItems(acc, order.conns)| == |order.conns|
  {
  }

  /** Credentials and folders. */
  lemma FirstJourney(acc: Account, order: Order, listing: Listing, ordered: seq<ParentOrder.Folder>, policy: Policy,
      ids: Supply)
    requires TidyCreds(acc) && TidyFolders(acc) && Enumerates(order.creds, acc.creds.Keys)
      && Enumerates(order.folders, acc.folders.Keys)
    requires Minted(ids.creds, {}) && Minted(ids.folders, {}) && |order.creds| <= |ids.creds|
      && |ordered| <= |ids.folders|
    requires Ordered(FolderItems(acc, order.folders), ordered)
    ensures var items := CredItems(acc, order.creds);
            var a := Creds(Begin(Nothing, listing), items, policy, ids.creds);
            a.Done? &&
            var b := Folders(a.state, ordered, policy, "", ids.folders);
            && b.Done? && b.state.skipped == 0 && CredsMade(b.state, items, ids.creds)
                && FoldersMade(b.state, ordered, ids.folders)
            && b.state.connIds == map[] && b.state.takenConns == {} && b.state.acc.conns == map[]
  {
    hide TidyCreds, TidyFolders, Minted, GoodCreds, GoodFolders, FolderOlds, Creds, Folders, Begin, Ordered,
        FolderItems, NoTwice, FoldersMade;
    var items := CredItems(acc, order.creds);
    BeginEmpty(listing, ids);
    var s := Begin(Nothing, listing);
    TidyGoodCreds(acc, order.creds);
    CredsCopied(s, items, policy, ids.creds);
    assert Nothing.creds.Keys == {};
    CredsLeave(s, items, policy, ids.creds);
    var a := Creds(s, items, policy, ids.creds).state;
    FoldersEmpty(a, ids.folders);
    TidyGoodFolders(acc, order.folders, ordered);
    FoldersCopied(a, ordered, Parents(acc.folders), policy, ids.folders);
    assert Nothing.folders.Keys == {};
    FoldersLeave(a, ordered, policy, "", ids.folders);
  }

  /** With its secrets, or once they are gone. */
  lemma RoundTripAll(acc: Account, order: Order, listing: Listing, ordered: seq<ParentOrder.Folder>, policy: Policy,
      ids: Supply)
    requires Tidy(acc) && ListsAll(order, acc) && AllMinted(Nothing, ids)
    requires GatherAll(acc, order).Some? ==>
               var p := GatherAll(acc, order).value; Ordered(p.folders, ordered) && Enough(p, ordered, ids)
    ensures GatherAll(acc, order).Some?
    ensures var r := ImportAll(Nothing, listing, GatherAll(acc, order).value, ordered, policy, "", ids);
            && r.Done? && r.state.skipped == 0
            && SameUnder(acc, r.state.acc, r.state.folderIds, r.state.credIds, r.state.connIds)
  {
    hide TidyCreds, TidyFolders, TidyConns, Routed, Graph, Minted, CredsMade, FoldersMade, GoodFolders, FolderOlds,
         Creds, Folders, Conns, Chains,
         Begin, OneToOne, Ordered, Gatherable, ConnItems, CredItems, FolderItems, NoTwice, Image, Moved, Renamed,
             Within;
    TidyGathers(acc, order);
    EmptyMinted(ids);
    TidyParts(acc);
    ItemsLength(acc, order);
    FirstJourney(acc, order, listing, ordered, policy, ids);
    var a := Creds(Begin(Nothing, listing), CredItems(acc, order.creds), policy, ids.creds).state;
    var b := Folders(a, ordered, policy, "", ids.folders).state;
    TidyGoodFolders(acc, order.folders, ordered);
    ConnsJourney(acc, order.conns, b, ordered, policy, ids);
    CredsSame(acc, order.creds, b, ids.creds);
    OrderedRows(acc, order.folders, ordered);
    FoldersSame(acc, ordered, b, ids.folders);
  }

  lemma EmptyMinted(ids: Supply)
    requires AllMinted(Nothing, ids)
    ensures Minted(ids.creds, {}) && Minted(ids.folders, {}) && Minted(ids.conns, {})
  {
    hide Minted;
    assert Nothing.creds.Keys == {} && Nothing.folders.Keys == {} && Nothing.conns.Keys == {};
  }

  lemma TidyParts(acc: Account)
    requires Tidy(acc)
    ensures TidyCreds(acc) && TidyFolders(acc) && TidyConns(acc)
  {
  }

  lemma BareCreds(acc: Account)
    requires TidyCreds(acc)
    ensures TidyCreds(Redacted(acc, false)) && Redacted(acc, false).creds.Keys == acc.creds.Keys
  {
    hide Lower, Trim;
    assert CredNames(Redacted(acc, false)) == CredNames(acc);
  }

  lemma BareRest(acc: Account, bare: Account)
    requires TidyFolders(acc) && TidyConns(acc)
    requires bare.folders == acc.folders && bare.conns == acc.conns && bare.creds.Keys == acc.creds.Keys
    ensures TidyFolders(bare) && TidyConns(bare) && Graph(bare) == Graph(acc)
  {
    hide Lower, Trim, StoredRow, SameSlot, LevelWithin, UniqueNames, Resolves;
    assert FolderNames(bare) == FolderNames(acc);
    assert forall id :: id in bare.creds <==> id in bare.creds.Keys;
    assert forall id :: id in acc.creds <==> id in acc.creds.Keys;
  }

  lemma RedactedTidy(acc: Account, secrets: bool)
    requires Tidy(acc)
    ensures Tidy(Redacted(acc, secrets)) && Redacted(acc, secrets).creds.Keys == acc.creds.Keys
  {
    hide TidyCreds, TidyFolders, TidyConns, Routed, Graph;
    if !secrets {
      BareCreds(acc);
      BareRest(acc, Redacted(acc, false));
    }
  }

  /**
   The round trip. A tidy account can be gathered, the bundle is imported into an empty account
   without a failure and without skipping anything, and the copy is the account under new
   identifiers: every credential, every folder under its parent, every connection in its folder,
   with its credential, its settings and its jump chain. Secrets come along if they were asked for. The
   listing orders and the policy do not matter.
   */
  lemma RoundTrip(acc: Account, order: Order, secrets: bool, listing: Listing, ordered: seq<ParentOrder.Folder>,
      policy: Policy, ids: Supply)
    requires Tidy(acc) && ListsAll(order, acc) && AllMinted(Nothing, ids)
    requires Gather(acc, order, secrets).Some? ==>
               var p := Gather(acc, order, secrets).value; Ordered(p.folders, ordered) && Enough(p, ordered, ids)
    ensures Gather(acc, order, secrets).Some?
    ensures var r := ImportAll(Nothing, listing, Gather(acc, order, secrets).value, ordered, policy, "", ids);
            && r.Done? && r.state.skipped == 0
            && SameUnder(Redacted(acc, secrets), r.state.acc, r.state.folderIds, r.state.credIds, r.state.connIds)
  {
    hide Tidy, AllMinted, Ordered, ImportAll, SameUnder, GatherAll, NoTwice;
    RedactedTidy(acc, secrets);
    RoundTripAll(Redacted(acc, secrets), order, listing, ordered, policy, ids);
  }
}
