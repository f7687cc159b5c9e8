/** Importing the same bundle twice, and what the policies amount to. */
module ImportAgain {
  import opened Text
  import ParentOrder
  import opened Import
  import opened ImportFacts

  // "Replace" replaces nothing: it is "skip" by another name.

  lemma {:induction false} CredsReplace(s: State, items: seq<Item<Cred>>, mint: seq<Id>)
    requires |items| <= |mint|
    ensures Creds(s, items, Replace, mint) == Creds(s, items, Skip, mint)
  {
    hide UniqueName, Trim, Lower;
    if items != [] { CredsReplace(s, items[..|items| - 1], mint); }
  }

  lemma {:induction false} FoldersReplace(s: State, fs: seq<ParentOrder.Folder>, into: Id, mint: seq<Id>)
    requires |fs| <= |mint|
    ensures Folders(s, fs, Replace, into, mint) == Folders(s, fs, Skip, into, mint)
  {
    hide UniqueName, Trim, Lower, LevelWithin;
    if fs != [] { FoldersReplace(s, fs[..|fs| - 1], into, mint); }
  }

  lemma {:induction false} ConnsReplace(s: State, items: seq<Item<Conn>>, into: Id, mint: seq<Id>)
    requires |items| <= |mint|
    ensures Conns(s, items, Replace, into, mint) == Conns(s, items, Skip, into, mint)
  {
    hide UniqueName, Slot, AcceptedConn, StoredConn;
    if items != [] { ConnsReplace(s, items[..|items| - 1], into, mint); }
  }

  lemma ReplaceIsSkip(acc: Account, listing: Listing, p: Payload, ordered: seq<ParentOrder.Folder>, into: Id,
      ids: Supply)
    requires Enough(p, ordered, ids)
    ensures ImportAll(acc, listing, p, ordered, Replace, into, ids)
      == ImportAll(acc, listing, p, ordered, Skip, into, ids)
  {
    hide Creds, Folders, Conns, Chains, Begin;
    CredsReplace(Begin(acc, listing), p.creds, ids.creds);
    var a := Creds(Begin(acc, listing), p.creds, Skip, ids.creds);
    if a.Done? {
      FoldersReplace(a.state, ordered, into, ids.folders);
      var b := Folders(a.state, ordered, Skip, into, ids.folders);
      if b.Done? { ConnsReplace(b.state, p.conns, into, ids.conns); }
    }
  }

  // A new name is free unless every candidate is taken.

  lemma {:induction false} UniqueExactly(base: string, prefix: string, taken: set<string>, i: nat)
    ensures prefix + Lower(UniqueFrom(base, prefix, taken, i)) !in taken
            <==> (prefix + Lower(base + " (imported)") !in taken || exists k: nat ::
                i <= k < 1000 && prefix + Lower(Numbered(base, k)) !in taken)
    decreases 1000 - i
  {
    hide Lower, Numbered;
    if i < 1000 && prefix + Lower(Numbered(base, i)) in taken {
      UniqueExactly(base, prefix, taken, i + 1);
    }
  }

  /** With every candidate taken, the name it settles on is taken too. */
  lemma AllTaken(base: string, prefix: string, taken: set<string>)
    requires prefix + Lower(base + " (imported)") in taken && forall k: nat ::
      2 <= k < 1000 ==> prefix + Lower(Numbered(base, k)) in taken
    ensures prefix + Lower(UniqueName(base, prefix, taken)) in taken
  {
    hide Lower, Numbered;
    UniqueExactly(base, prefix, taken, 2);
  }

  function Candidates(base: string, prefix: string, n: nat): set<string> {
    if n == 0 then {} else Candidates(base, prefix, n - 1) + {prefix + Lower(Numbered(base, n - 1))}
  }

  lemma {:induction false} CandidatesIn(base: string, prefix: string, n: nat, k: nat)
    requires k < n
    ensures prefix + Lower(Numbered(base, k)) in Candidates(base, prefix, n)
  {
    hide Lower, Numbered;
    if k < n - 1 { CandidatesIn(base, prefix, n - 1, k); }
  }

  /** Which can happen for every name. */
  lemma TakenAnyway(base: string, prefix: string)
    ensures var taken := Candidates(base, prefix, 1000) + {prefix + Lower(base + " (imported)")};
            prefix + Lower(UniqueName(base, prefix, taken)) in taken
  {
    hide Lower, Numbered, Candidates, UniqueName;
    var taken := Candidates(base, prefix, 1000) + {prefix + Lower(base + " (imported)")};
    forall k: nat | 2 <= k < 1000 ensures prefix + Lower(Numbered(base, k)) in taken
    { CandidatesIn(base, prefix, 1000, k); }
    AllTaken(base, prefix, taken);
  }

  // Names in use.

  /** The table of names in use says what the rows say. */
  ghost predicate Tracks(names: map<Id, string>, taken: map<string, Id>) {
    && (forall key :: key in taken ==> taken[key] in names && Lower(names[taken[key]]) == key)
    && (forall id :: id in names ==> Lower(names[id]) in taken)
  }

  ghost predicate UniqueNames(names: map<Id, string>) {
    forall a, b :: a in names && b in names && Lower(names[a]) == Lower(names[b]) ==> a == b
  }

  lemma TracksOnce(names: map<Id, string>, t: map<string, Id>, u: map<string, Id>)
    requires Tracks(names, t) && Tracks(names, u) && UniqueNames(names)
    ensures t == u
  {
    hide Lower;
    assert forall key :: key in t <==> key in u;
  }

  ghost predicate NamesRow(names: map<Id, string>, taken: map<string, Id>, key: string) {
    key in taken && taken[key] in names && Lower(names[taken[key]]) == key
  }

  lemma {:induction false} TakenTracks(names: map<Id, string>, listing: seq<Id>)
    ensures forall key :: key in Taken(names, listing) ==> NamesRow(names, Taken(names, listing), key)
    ensures forall id :: id in names && id in listing ==> Lower(names[id]) in Taken(names, listing)
  {
    hide Lower;
    if listing != [] {
      var n := |listing| - 1;
      TakenTracks(names, listing[..n]);
      var before, t := Taken(names, listing[..n]), Taken(names, listing);
      assert forall id :: id in listing ==> id in listing[..n] || id == listing[n];
      if listing[n] in names {
        var newest := Lower(names[listing[n]]);
        assert t == before[newest := listing[n]];
        forall key | key in t ensures NamesRow(names, t, key) {
          if key != newest { assert NamesRow(names, before, key); }
        }
      }
    }
  }

  lemma TakenAll(names: map<Id, string>, listing: seq<Id>)
    requires forall id :: id in names ==> id in listing
    ensures Tracks(names, Taken(names, listing))
  {
    hide Taken, Lower;
    TakenTracks(names, listing);
    assert forall key :: key in Taken(names, listing) ==> NamesRow(names, Taken(names, listing), key);
  }

  lemma TracksMore(names: map<Id, string>, taken: map<string, Id>, id: Id, name: string)
    requires Tracks(names, taken) && id !in names && Lower(name) !in taken
    ensures Tracks(names[id := name], taken[Lower(name) := id])
    ensures UniqueNames(names) ==> UniqueNames(names[id := name])
  {
    hide Lower;
  }

  ghost predicate Trimmed(p: Payload) {
    && (forall k :: 0 <= k < |p.creds| ==> Trim(p.creds[k].row.name) == p.creds[k].row.name)
    && (forall k :: 0 <= k < |p.folders| ==> Trim(p.folders[k].name) == p.folders[k].name)
    && (forall k :: 0 <= k < |p.conns| ==> Trim(p.conns[k].row.name) == p.conns[k].row.name)
  }

  // The first time: every name of the bundle is in use afterwards.

  ghost predicate CredsIn(s: State, items: seq<Item<Cred>>) {
    Tracks(CredNames(s.acc), s.takenCreds) && forall k :: 0 <= k < |items| ==> Lower(items[k].row.name) in s.takenCreds
  }

  lemma CredFresh(s: State, items: seq<Item<Cred>>, policy: Policy, mint: seq<Id>)
    requires 0 < |items| <= |mint| && Minted(mint, s.acc.creds.Keys)
    ensures mint[|items| - 1] !in Creds(s, items[..|items| - 1], policy, mint).state.acc.creds
  {
    hide Grew, Minted, Creds;
    var n := |items| - 1;
    CredsCounted(s, items[..n], policy, mint);
    var t := Creds(s, items[..n], policy, mint).state;
    NotMadeYet(s.acc.creds, t.acc.creds, mint, n, t.creds - s.creds);
  }

  lemma {:induction false} CredsFirst(s: State, items: seq<Item<Cred>>, policy: Policy, mint: seq<Id>)
    requires |items| <= |mint| && Minted(mint, s.acc.creds.Keys) && Tracks(CredNames(s.acc), s.takenCreds)
      && policy != Rename
    requires forall k :: 0 <= k < |items| ==> Trim(items[k].row.name) == items[k].row.name
    requires Creds(s, items, policy, mint).Done?
    ensures CredsIn(Creds(s, items, policy, mint).state, items)
  {
    hide Lower, Trim, Tracks, Minted, CredNames, CredStep;
    if items != [] {
      var n := |items| - 1;
      CredsFirst(s, items[..n], policy, mint);
      CredFresh(s, items, policy, mint);
      var b := Creds(s, items[..n], policy, mint);
      CredFirst(b.state, items[n], policy, mint[n]);
    }
  }

  lemma NotMadeYet<T>(was: map<Id, T>, rows: map<Id, T>, mint: seq<Id>, n: nat, made: nat)
    requires Minted(mint, was.Keys) && n < |mint| && Grew(was, rows, mint, n, made)
    ensures mint[n] !in rows
  {
    assert mint[n] !in mint[..n];
  }

  lemma CredFirst(b: State, item: Item<Cred>, policy: Policy, mint: Id)
    requires Tracks(CredNames(b.acc), b.takenCreds) && policy != Rename && Trim(item.row.name) == item.row.name
      && mint !in b.acc.creds
    requires CredStep(b, item, policy, mint).Done?
    ensures var t := CredStep(b, item, policy, mint).state;
            Tracks(CredNames(t.acc), t.takenCreds) && b.takenCreds.Keys <= t.takenCreds.Keys
                && Lower(item.row.name) in t.takenCreds
  {
    hide Lower, Trim, Tracks;
    var t := CredStep(b, item, policy, mint).state;
    if Lower(item.row.name) !in b.takenCreds {
      TracksMore(CredNames(b.acc), b.takenCreds, mint, item.row.name);
      assert CredNames(t.acc) == CredNames(b.acc)[mint := item.row.name];
    } else {
      assert t.acc == b.acc;
    }
  }

  /** Each folder of the bundle stands for the folder of that name. */
  ghost predicate FoldersIn(s: State, fs: seq<ParentOrder.Folder>) {
    && Tracks(FolderNames(s.acc), s.takenFolders) && UniqueNames(FolderNames(s.acc))
    && (forall id :: id in s.folderIds <==> ParentOrder.InBundle(fs, id))
    && (forall k :: 0 <= k < |fs| ==>
          && Lower(fs[k].name) in s.takenFolders && fs[k].id in s.folderIds
          && s.folderIds[fs[k].id] == s.takenFolders[Lower(fs[k].name)])
  }

  lemma FolderFresh(s: State, fs: seq<ParentOrder.Folder>, policy: Policy, into: Id, mint: seq<Id>)
    requires 0 < |fs| <= |mint| && Minted(mint, s.acc.folders.Keys)
    ensures mint[|fs| - 1] !in Folders(s, fs[..|fs| - 1], policy, into, mint).state.acc.folders
  {
    hide Grew, Minted, Folders;
    var n := |fs| - 1;
    FoldersCounted(s, fs[..n], policy, into, mint);
    var t := Folders(s, fs[..n], policy, into, mint).state;
    NotMadeYet(s.acc.folders, t.acc.folders, mint, n, t.folders - s.folders);
  }

  lemma {:induction false} FoldersFirst(s: State, fs: seq<ParentOrder.Folder>, policy: Policy, into: Id, mint: seq<Id>)
    requires |fs| <= |mint| && Minted(mint, s.acc.folders.Keys) && FoldersIn(s, []) && policy != Rename
    requires forall k :: 0 <= k < |fs| ==> Trim(fs[k].name) == fs[k].name
    requires ParentOrder.DistinctIds(fs) && Folders(s, fs, policy, into, mint).Done?
    ensures FoldersIn(Folders(s, fs, policy, into, mint).state, fs)
  {
    hide Trim, Minted, FolderNames, FolderStep, FoldersIn;
    if fs != [] {
      var n := |fs| - 1;
      FoldersFirst(s, fs[..n], policy, into, mint);
      FolderFresh(s, fs, policy, into, mint);
      var b := Folders(s, fs[..n], policy, into, mint);
      FolderFirst(b.state, fs[..n], fs[n], policy, into, mint[n]);
      assert fs == fs[..n] + [fs[n]];
    } else {
      assert fs == [];
    }
  }

  lemma FolderFirst(b: State, fs: seq<ParentOrder.Folder>, f: ParentOrder.Folder, policy: Policy, into: Id, mint: Id)
    requires FoldersIn(b, fs) && policy != Rename && Trim(f.name) == f.name && mint !in b.acc.folders
    requires forall k :: 0 <= k < |fs| ==> fs[k].id != f.id
    requires FolderStep(b, f, policy, into, mint).Done?
    ensures FoldersIn(FolderStep(b, f, policy, into, mint).state, fs + [f])
  {
    hide Lower, Trim, Tracks, UniqueNames, LevelWithin;
    var t := FolderStep(b, f, policy, into, mint).state;
    FolderNamed(b, f, policy, into, mint);
    hide FolderNames, FolderStep;
    assert forall id :: ParentOrder.InBundle(fs + [f], id) <==> ParentOrder.InBundle(fs, id) || id == f.id by {
      forall id ensures ParentOrder.InBundle(fs + [f], id) <==> ParentOrder.InBundle(fs, id) || id == f.id
      { ParentOrder.BundleMore(fs, f, id); }
    }
  }

  lemma FolderNamed(b: State, f: ParentOrder.Folder, policy: Policy, into: Id, mint: Id)
    requires Tracks(FolderNames(b.acc), b.takenFolders) && UniqueNames(FolderNames(b.acc)) && policy != Rename
      && Trim(f.name) == f.name
    requires mint !in b.acc.folders && FolderStep(b, f, policy, into, mint).Done?
    ensures var t := FolderStep(b, f, policy, into, mint).state;
            && Tracks(FolderNames(t.acc), t.takenFolders) && UniqueNames(FolderNames(t.acc))
            && Lower(f.name) in t.takenFolders && t.folderIds == b.folderIds[f.id := t.takenFolders[Lower(f.name)]]
            && forall key ::
                key in b.takenFolders ==> key in t.takenFolders && t.takenFolders[key] == b.takenFolders[key]
  {
    hide Lower, Trim, Tracks, UniqueNames, LevelWithin;
    var t := FolderStep(b, f, policy, into, mint).state;
    if Lower(f.name) !in b.takenFolders {
      TracksMore(FolderNames(b.acc), b.takenFolders, mint, f.name);
      assert FolderNames(t.acc) == FolderNames(b.acc)[mint := f.name];
    } else {
      assert t.acc == b.acc;
    }
  }

  ghost predicate ConnsIn(s: State, items: seq<Item<Conn>>, into: Id) {
    s.takenConns == TakenSlots(s.acc) && forall k ::
        0 <= k < |items| ==> Slot(Destination(s, into, items[k].row.folder), items[k].row.name) in s.takenConns
  }

  lemma ConnFresh(s: State, items: seq<Item<Conn>>, policy: Policy, into: Id, mint: seq<Id>)
    requires 0 < |items| <= |mint| && Minted(mint, s.acc.conns.Keys) && s.connIds == map[]
    ensures mint[|items| - 1] !in Conns(s, items[..|items| - 1], policy, into, mint).state.acc.conns
  {
    hide Grew, Minted, Conns;
    var n := |items| - 1;
    ConnsCounted(s, items[..n], policy, into, mint);
    var t := Conns(s, items[..n], policy, into, mint).state;
    NotMadeYet(s.acc.conns, t.acc.conns, mint, n, t.conns - s.conns);
  }

  lemma {:induction false} ConnsFirst(s: State, items: seq<Item<Conn>>, policy: Policy, into: Id, mint: seq<Id>)
    requires |items| <= |mint| && Minted(mint, s.acc.conns.Keys) && s.connIds == map[]
      && s.takenConns == TakenSlots(s.acc) && policy != Rename
    requires forall k :: 0 <= k < |items| ==> Trim(items[k].row.name) == items[k].row.name
    requires Conns(s, items, policy, into, mint).Done?
    ensures ConnsIn(Conns(s, items, policy, into, mint).state, items, into)
  {
    hide Trim, Minted, TakenSlots, ConnStep, Slot, Destination;
    if items != [] {
      var n := |items| - 1;
      ConnsFirst(s, items[..n], policy, into, mint);
      ConnFresh(s, items, policy, into, mint);
      var b := Conns(s, items[..n], policy, into, mint);
      ConnFirst(b.state, items[n], policy, into, mint[n]);
    }
  }

  lemma ConnFirst(b: State, item: Item<Conn>, policy: Policy, into: Id, mint: Id)
    requires b.takenConns == TakenSlots(b.acc) && policy != Rename && Trim(item.row.name) == item.row.name
      && mint !in b.acc.conns
    requires ConnStep(b, item, policy, into, mint).Done?
    ensures var t := ConnStep(b, item, policy, into, mint).state;
            && t.takenConns == TakenSlots(t.acc) && b.takenConns <= t.takenConns
                && (forall id :: Destination(t, into, id) == Destination(b, into, id))
            && Slot(Destination(b, into, item.row.folder), item.row.name) in t.takenConns
  {
    hide Slot, Trim, AcceptedConn;
    var t := ConnStep(b, item, policy, into, mint).state;
    if Slot(Destination(b, into, item.row.folder), item.row.name) !in b.takenConns {
      var row := t.acc.conns[mint];
      assert t.acc.conns == b.acc.conns[mint := row];
      SlotsMore(b.acc, t.acc, mint, row);
    } else {
      assert t.acc == b.acc;
    }
  }

  lemma SlotsMore(was: Account, acc: Account, id: Id, row: Conn)
    requires id !in was.conns && acc.conns == was.conns[id := row]
    ensures TakenSlots(acc) == TakenSlots(was) + {Slot(row.folder, row.name)}
  {
    hide Slot;
    forall x | x in TakenSlots(was) ensures x in TakenSlots(acc) {
      var k :| k in was.conns && Slot(was.conns[k].folder, was.conns[k].name) == x;
      assert acc.conns[k] == was.conns[k];
    }
    assert acc.conns[id] == row;
  }

  // The second time: everything is skipped.

  lemma {:induction false} CredsSkipped(s: State, items: seq<Item<Cred>>, policy: Policy, mint: seq<Id>)
    requires |items| <= |mint| && policy != Rename && forall k ::
      0 <= k < |items| ==> Lower(items[k].row.name) in s.takenCreds
    ensures var r := Creds(s, items, policy, mint);
            r == Done(s.(credIds := r.state.credIds, skipped := s.skipped + |items|))
  {
    hide Lower;
    if items != [] {
      var n := |items| - 1;
      CredsSkipped(s, items[..n], policy, mint);
    }
  }

  lemma {:induction false} FoldersSkipped(s: State, fs: seq<ParentOrder.Folder>, policy: Policy, into: Id,
      mint: seq<Id>)
    requires |fs| <= |mint| && policy != Rename && (forall k :: 0 <= k < |fs| ==> Lower(fs[k].name) in s.takenFolders)
    ensures var r := Folders(s, fs, policy, into, mint);
            r == Done(s.(folderIds := r.state.folderIds, skipped := s.skipped + |fs|))
  {
    hide Lower;
    if fs != [] {
      var n := |fs| - 1;
      FoldersSkipped(s, fs[..n], policy, into, mint);
    }
  }

  lemma {:induction false} ConnsSkipped(s: State, items: seq<Item<Conn>>, policy: Policy, into: Id, mint: seq<Id>)
    requires |items| <= |mint| && policy != Rename
    requires forall k ::
      0 <= k < |items| ==> Slot(Destination(s, into, items[k].row.folder), items[k].row.name) in s.takenConns
    ensures Conns(s, items, policy, into, mint) == Done(s.(skipped := s.skipped + |items|))
  {
    hide Slot;
    if items != [] {
      var n := |items| - 1;
      ConnsSkipped(s, items[..n], policy, into, mint);
    }
  }

  lemma {:induction false} ChainsSkipped(s: State, items: seq<Item<Conn>>)
    requires s.connIds == map[]
    ensures Chains(s, items) == Done(s)
  {
    hide MapChain;
    if items != [] { ChainsSkipped(s, items[..|items| - 1]); }
  }

  // Both together.

  /** The listings name every row. */
  ghost predicate Lists(acc: Account, listing: Listing) {
    (forall id :: id in acc.creds ==> id in listing.creds) && (forall id :: id in acc.folders ==> id in listing.folders)
  }

  lemma BeginTracks(acc: Account, listing: Listing)
    requires Lists(acc, listing)
    ensures var s := Begin(acc, listing);
            && Tracks(CredNames(acc), s.takenCreds) && Tracks(FolderNames(acc), s.takenFolders)
                && s.takenConns == TakenSlots(acc)
  {
    hide Taken, Tracks, TakenSlots;
    TakenAll(CredNames(acc), listing.creds);
    TakenAll(FolderNames(acc), listing.folders);
  }

  /** A folder of the same ID and name is there. */
  ghost predicate Present(fs: seq<ParentOrder.Folder>, f: ParentOrder.Folder) {
    exists i :: 0 <= i < |fs| && fs[i].id == f.id && fs[i].name == f.name
  }

  /** Whatever order the folders came in, the same ones came. */
  lemma OrderedSame(fs: seq<ParentOrder.Folder>, ordered: seq<ParentOrder.Folder>)
    requires Ordered(fs, ordered)
    ensures forall k :: 0 <= k < |ordered| ==> Present(fs, ordered[k])
    ensures forall i :: 0 <= i < |fs| ==> Present(ordered, fs[i])
    ensures ParentOrder.DistinctIds(fs) ==> ParentOrder.DistinctIds(ordered)
  {
    hide ParentOrder.Trapped, ParentOrder.ParentsFirst;
    var from :| ParentOrder.Arranged(fs, ordered, from);
    forall k | 0 <= k < |ordered| ensures Present(fs, ordered[k]) {
      assert ordered[k] == ParentOrder.Placed(fs, from[k]);
    }
    forall i | 0 <= i < |fs| ensures Present(ordered, fs[i]) {
      var k := PlaceOf(fs, ordered, from, i);
      assert ordered[k] == ParentOrder.Placed(fs, from[k]);
    }
    if ParentOrder.DistinctIds(fs) {
      forall k, l | 0 <= k < l < |ordered| ensures ordered[k].id != ordered[l].id {
        assert ordered[k] == ParentOrder.Placed(fs, from[k]) && ordered[l] == ParentOrder.Placed(fs, from[l]);
        assert from[k] != from[l];
      }
    }
  }

  lemma PlaceOf(fs: seq<ParentOrder.Folder>, ordered: seq<ParentOrder.Folder>, from: seq<nat>, i: nat) returns (k: nat)
    requires ParentOrder.Arranged(fs, ordered, from) && |ordered| == |fs| && i < |fs|
    ensures k < |from| && from[k] == i
  {
    hide ParentOrder.Placed;
    if i !in from {
      ParentOrder.Pigeon(from, ParentOrder.Indices(|fs|) - {i});
      assert false;
    }
    k :| k < |from| && from[k] == i;
  }

  /** Everything the bundle names is there. */
  ghost predicate AllIn(t: State, p: Payload, ordered: seq<ParentOrder.Folder>, into: Id) {
    CredsIn(t, p.creds) && FoldersIn(t, ordered) && ConnsIn(t, p.conns, into)
  }

  lemma TrimmedOrdered(p: Payload, ordered: seq<ParentOrder.Folder>)
    requires Trimmed(p) && Ordered(p.folders, ordered)
    ensures forall k :: 0 <= k < |ordered| ==> Trim(ordered[k].name) == ordered[k].name
  {
    hide Trim, Ordered;
    OrderedSame(p.folders, ordered);
    forall k | 0 <= k < |ordered| ensures Trim(ordered[k].name) == ordered[k].name {
      assert Present(p.folders, ordered[k]);
    }
  }

  lemma NoFolders(s: State)
    requires s.folderIds == map[] && Tracks(FolderNames(s.acc), s.takenFolders) && UniqueNames(FolderNames(s.acc))
    ensures FoldersIn(s, [])
  {
  }

  /** Which rows were touched since decides which tables still hold. */
  lemma SameNames(a: Account, b: Account)
    ensures a.creds == b.creds ==> CredNames(a) == CredNames(b)
    ensures a.folders == b.folders ==> FolderNames(a) == FolderNames(b)
    ensures a.conns == b.conns ==> TakenSlots(a) == TakenSlots(b)
  {
  }

  lemma SameSlots(a: Account, b: Account, given: set<Id>)
    requires ChainsOnly(a.conns, b.conns, given)
    ensures TakenSlots(a) == TakenSlots(b)
  {
    hide Slot;
    forall x ensures x in TakenSlots(a) <==> x in TakenSlots(b) {
      if x in TakenSlots(a) {
        var id :| id in a.conns && Slot(a.conns[id].folder, a.conns[id].name) == x;
        assert id in b.conns;
      }
      if x in TakenSlots(b) {
        var id :| id in b.conns && Slot(b.conns[id].folder, b.conns[id].name) == x;
        assert id in a.conns;
      }
    }
  }

  lemma CredsLeave(s: State, items: seq<Item<Cred>>, policy: Policy, mint: seq<Id>)
    requires |items| <= |mint| && Minted(mint, s.acc.creds.Keys)
    ensures var t := Creds(s, items, policy, mint).state;
            && t.acc.folders == s.acc.folders && t.acc.conns == s.acc.conns && t.takenFolders == s.takenFolders
            && t.takenConns == s.takenConns && t.folderIds == s.folderIds && t.connIds == s.connIds
  {
    hide Creds, Grew, Minted;
    CredsCounted(s, items, policy, mint);
  }

  lemma FoldersLeave(s: State, fs: seq<ParentOrder.Folder>, policy: Policy, into: Id, mint: seq<Id>)
    requires |fs| <= |mint| && Minted(mint, s.acc.folders.Keys)
    ensures var t := Folders(s, fs, policy, into, mint).state;
            && t.acc.creds == s.acc.creds && t.acc.conns == s.acc.conns && t.takenCreds == s.takenCreds
            && t.takenConns == s.takenConns && t.connIds == s.connIds && t.credIds == s.credIds
  {
    hide Folders, Grew, Minted;
    FoldersCounted(s, fs, policy, into, mint);
  }

  lemma ConnsLeave(s: State, items: seq<Item<Conn>>, policy: Policy, into: Id, mint: seq<Id>)
    requires |items| <= |mint| && Minted(mint, s.acc.conns.Keys) && s.connIds == map[]
    ensures var t := Conns(s, items, policy, into, mint).state;
            && t.acc.creds == s.acc.creds && t.acc.folders == s.acc.folders && t.takenCreds == s.takenCreds
            && t.takenFolders == s.takenFolders && t.folderIds == s.folderIds
  {
    hide Conns, Grew, Minted;
    ConnsCounted(s, items, policy, into, mint);
  }

  lemma FirstTime(acc: Account, listing: Listing, p: Payload, ordered: seq<ParentOrder.Folder>, policy: Policy,
      into: Id, ids: Supply)
    requires Enough(p, ordered, ids) && AllMinted(acc, ids) && Lists(acc, listing) && policy != Rename
    requires ParentOrder.DistinctIds(p.folders) && Ordered(p.folders, ordered) && Trimmed(p)
      && UniqueNames(FolderNames(acc))
    requires ImportAll(acc, listing, p, ordered, policy, into, ids).Done?
    ensures AllIn(ImportAll(acc, listing, p, ordered, policy, into, ids).state, p, ordered, into)
  {
    hide Creds, Folders, Conns, Chains, Tracks, UniqueNames, CredNames, FolderNames, TakenSlots, Taken, Lower,
         Trim, Slot,
         Ordered, Minted, Grew, Lists, ParentOrder.DistinctIds, ParentOrder.InBundle;
    var s := Begin(acc, listing);
    BeginTracks(acc, listing);
    OrderedSame(p.folders, ordered);
    TrimmedOrdered(p, ordered);
    CredsFirst(s, p.creds, policy, ids.creds);
    CredsLeave(s, p.creds, policy, ids.creds);
    var a := Creds(s, p.creds, policy, ids.creds).state;
    SameNames(acc, a.acc);
    NoFolders(a);
    FoldersFirst(a, ordered, policy, into, ids.folders);
    FoldersLeave(a, ordered, policy, into, ids.folders);
    var b := Folders(a, ordered, policy, into, ids.folders).state;
    SameNames(acc, b.acc);
    ConnsFirst(b, p.conns, policy, into, ids.conns);
    ConnsLeave(b, p.conns, policy, into, ids.conns);
    var c := Conns(b, p.conns, policy, into, ids.conns).state;
    ChainsAlone(c, p.conns);
    var t := Chains(c, p.conns).state;
    SameSlots(c.acc, t.acc, c.connIds.Values);
    SameNames(a.acc, t.acc);
    SameNames(b.acc, t.acc);
  }

  /** The names in use when the second import begins are those the first one left. */
  lemma BeginAgain(t: State, p: Payload, ordered: seq<ParentOrder.Folder>, into: Id, listing: Listing)
    requires AllIn(t, p, ordered, into) && Lists(t.acc, listing)
    ensures var s := Begin(t.acc, listing);
            && s.takenFolders == t.takenFolders && s.takenConns == t.takenConns
            && forall k :: 0 <= k < |p.creds| ==> Lower(p.creds[k].row.name) in s.takenCreds
  {
    hide Lower, Lists, Taken, CredNames, FolderNames, TakenSlots, UniqueNames, Slot, ParentOrder.InBundle;
    BeginTracks(t.acc, listing);
    var s := Begin(t.acc, listing);
    TracksOnce(FolderNames(t.acc), s.takenFolders, t.takenFolders);
    forall k | 0 <= k < |p.creds| ensures Lower(p.creds[k].row.name) in s.takenCreds {
      var key := Lower(p.creds[k].row.name);
      assert key in t.takenCreds;
      var id := t.takenCreds[key];
      assert id in CredNames(t.acc) && Lower(CredNames(t.acc)[id]) == key;
    }
  }

  lemma TablesHold(t: State, fs: seq<ParentOrder.Folder>)
    requires FoldersIn(t, fs)
    ensures Tracks(FolderNames(t.acc), t.takenFolders) && UniqueNames(FolderNames(t.acc))
  {
  }

  lemma FolderAt(t: State, fs: seq<ParentOrder.Folder>, k: nat)
    requires FoldersIn(t, fs) && k < |fs|
    ensures Lower(fs[k].name) in t.takenFolders && fs[k].id in t.folderIds
      && t.folderIds[fs[k].id] == t.takenFolders[Lower(fs[k].name)]
  {
  }

  lemma FolderKnown(t: State, fs: seq<ParentOrder.Folder>, id: Id)
    requires FoldersIn(t, fs)
    ensures id in t.folderIds <==> ParentOrder.InBundle(fs, id)
  {
  }

  /** With the same names in use, the same folders are found for the same IDs. */
  lemma SameDestinations(t: State, u: State, fs: seq<ParentOrder.Folder>, one: seq<ParentOrder.Folder>,
      two: seq<ParentOrder.Folder>, into: Id, id: Id)
    requires Ordered(fs, one) && Ordered(fs, two) && ParentOrder.DistinctIds(fs)
    requires FoldersIn(t, one) && FoldersIn(u, two) && t.takenFolders == u.takenFolders
    ensures Destination(t, into, id) == Destination(u, into, id)
  {
    hide Ordered, FoldersIn, Lower, ParentOrder.DistinctIds, ParentOrder.InBundle, Present;
    OrderedSame(fs, one);
    OrderedSame(fs, two);
    SameThere(fs, one, two, id);
    SameThere(fs, two, one, id);
    if ParentOrder.InBundle(one, id) {
      var _, k, l := Found(fs, one, two, id);
      FolderAt(t, one, k);
      FolderAt(u, two, l);
    }
    FolderKnown(t, one, id);
    FolderKnown(u, two, id);
  }

  lemma SameThere(fs: seq<ParentOrder.Folder>, one: seq<ParentOrder.Folder>, two: seq<ParentOrder.Folder>, id: Id)
    requires (forall k :: 0 <= k < |one| ==> Present(fs, one[k])) && (forall i :: 0 <= i < |fs| ==> Present(two, fs[i]))
    ensures ParentOrder.InBundle(one, id) ==> ParentOrder.InBundle(two, id)
  {
    if ParentOrder.InBundle(one, id) {
      var k :| 0 <= k < |one| && one[k].id == id;
      assert Present(fs, one[k]);
      var i :| 0 <= i < |fs| && fs[i].id == id;
      assert Present(two, fs[i]);
    }
  }

  lemma Found(fs: seq<ParentOrder.Folder>, one: seq<ParentOrder.Folder>, two: seq<ParentOrder.Folder>, id: Id)
      returns (name: string, k: nat, l: nat)
    requires (forall k :: 0 <= k < |one| ==> Present(fs, one[k])) && (forall k ::
      0 <= k < |two| ==> Present(fs, two[k]))
    requires ParentOrder.DistinctIds(fs) && ParentOrder.InBundle(one, id) && ParentOrder.InBundle(two, id)
    ensures k < |one| && l < |two| && one[k].id == id && two[l].id == id && one[k].name == name && two[l].name == name
  {
    k :| k < |one| && one[k].id == id;
    l :| l < |two| && two[l].id == id;
    assert Present(fs, one[k]) && Present(fs, two[l]);
    var i :| 0 <= i < |fs| && fs[i].id == id && fs[i].name == one[k].name;
    var j :| 0 <= j < |fs| && fs[j].id == id && fs[j].name == two[l].name;
    assert i == j;
    name := one[k].name;
  }

  /**
   Importing a bundle a second time makes nothing and changes nothing, whichever way the account is
   listed and the folders are ordered, provided conflicts are skipped, names carry no blanks at
   their ends, and no two folders were called the same to begin with.
   */
  lemma SecondTime(acc: Account, listing: Listing, again: Listing, p: Payload, ordered: seq<ParentOrder.Folder>,
                   reordered: seq<ParentOrder.Folder>, policy: Policy, into: Id, ids: Supply, more: Supply)
    requires Enough(p, ordered, ids) && AllMinted(acc, ids) && Lists(acc, listing) && policy != Rename
    requires ParentOrder.DistinctIds(p.folders) && Ordered(p.folders, ordered) && Trimmed(p)
      && UniqueNames(FolderNames(acc))
    requires ImportAll(acc, listing, p, ordered, policy, into, ids).Done?
    requires var t := ImportAll(acc, listing, p, ordered, policy, into, ids).state;
             Enough(p, reordered, more) && Lists(t.acc, again) && Ordered(p.folders, reordered)
    ensures var t := ImportAll(acc, listing, p, ordered, policy, into, ids).state;
            var r := ImportAll(t.acc, again, p, reordered, policy, into, more);
            && r.Done? && r.state.acc == t.acc && r.state.creds == r.state.folders == r.state.conns == 0
            && r.state.skipped == |p.creds| + |p.folders| + |p.conns|
  {
    hide Creds, Folders, Conns, Chains, Lower, Ordered, Trimmed, AllMinted, Lists, FoldersIn, CredsIn, ConnsIn,
         Slot, UniqueNames,
         ParentOrder.DistinctIds, Begin, Destination, FolderNames;
    var t := ImportAll(acc, listing, p, ordered, policy, into, ids).state;
    FirstTime(acc, listing, p, ordered, policy, into, ids);
    Again(t, again, p, ordered, reordered, policy, into, more);
  }

  lemma Again(t: State, again: Listing, p: Payload, ordered: seq<ParentOrder.Folder>,
      reordered: seq<ParentOrder.Folder>, policy: Policy, into: Id, more: Supply)
    requires AllIn(t, p, ordered, into) && policy != Rename && ParentOrder.DistinctIds(p.folders)
      && Ordered(p.folders, ordered)
    requires Enough(p, reordered, more) && Lists(t.acc, again) && Ordered(p.folders, reordered)
    ensures var r := ImportAll(t.acc, again, p, reordered, policy, into, more);
            && r.Done? && r.state.acc == t.acc && r.state.creds == r.state.folders == r.state.conns == 0
            && r.state.skipped == |p.creds| + |p.folders| + |p.conns|
  {
    hide Creds, Folders, Conns, Chains, Lower, Lists, FoldersIn, Slot, TakenSlots, Taken, CredNames,
         FolderNames, CredsIn,
         ParentOrder.DistinctIds, Destination, ParentOrder.ParentsFirst, ParentOrder.Arranged, Present, Tracks,
             UniqueNames;
    BeginAgain(t, p, ordered, into, again);
    var s := Begin(t.acc, again);
    CredsSkipped(s, p.creds, policy, more.creds);
    var a := Creds(s, p.creds, policy, more.creds).state;
    NamesThere(t, p, ordered, reordered, into);
    FoldersSkipped(a, reordered, policy, into, more.folders);
    var b := Folders(a, reordered, policy, into, more.folders).state;
    TablesHold(t, ordered);
    OrderedSame(p.folders, reordered);
    SecondFolders(a, reordered, policy, into, more.folders);
    forall k | 0 <= k < |p.conns|
      ensures Slot(Destination(b, into, p.conns[k].row.folder), p.conns[k].row.name) in b.takenConns {
      SameDestinations(t, b, p.folders, ordered, reordered, into, p.conns[k].row.folder);
    }
    ConnsSkipped(b, p.conns, policy, into, more.conns);
    ChainsSkipped(Conns(b, p.conns, policy, into, more.conns).state, p.conns);
  }

  lemma NamesThere(t: State, p: Payload, ordered: seq<ParentOrder.Folder>, reordered: seq<ParentOrder.Folder>, into: Id)
    requires FoldersIn(t, ordered) && Ordered(p.folders, ordered) && Ordered(p.folders, reordered)
    ensures forall k :: 0 <= k < |reordered| ==> Lower(reordered[k].name) in t.takenFolders
  {
    hide Lower, Ordered, Tracks, UniqueNames, FolderNames, ParentOrder.InBundle;
    OrderedSame(p.folders, ordered);
    OrderedSame(p.folders, reordered);
    forall k | 0 <= k < |reordered| ensures Lower(reordered[k].name) in t.takenFolders {
      assert Present(p.folders, reordered[k]);
      var i :| 0 <= i < |p.folders| && p.folders[i].id == reordered[k].id && p.folders[i].name == reordered[k].name;
      assert Present(ordered, p.folders[i]);
    }
  }

  lemma {:induction false} SecondFolders(a: State, fs: seq<ParentOrder.Folder>, policy: Policy, into: Id, mint: seq<Id>)
    requires |fs| <= |mint| && policy != Rename && (forall k :: 0 <= k < |fs| ==> Lower(fs[k].name) in a.takenFolders)
    requires a.folderIds == map[] && ParentOrder.DistinctIds(fs)
    requires Tracks(FolderNames(a.acc), a.takenFolders) && UniqueNames(FolderNames(a.acc))
    ensures FoldersIn(Folders(a, fs, policy, into, mint).state, fs)
  {
    hide Lower, Tracks, UniqueNames, FolderNames, FoldersIn;
    if fs == [] {
      NoFolders(a);
      assert fs == [];
    } else {
      var n := |fs| - 1;
      SecondFolders(a, fs[..n], policy, into, mint);
      FoldersSkipped(a, fs[..n], policy, into, mint);
      var b := Folders(a, fs[..n], policy, into, mint).state;
      SkippedIn(b, fs[..n], fs[n], policy, into, mint[n]);
      assert fs == fs[..n] + [fs[n]];
    }
  }

  lemma SkippedIn(b: State, fs: seq<ParentOrder.Folder>, f: ParentOrder.Folder, policy: Policy, into: Id, mint: Id)
    requires FoldersIn(b, fs) && policy != Rename && Lower(f.name) in b.takenFolders && forall k ::
      0 <= k < |fs| ==> fs[k].id != f.id
    ensures FoldersIn(FolderStep(b, f, policy, into, mint).state, fs + [f])
  {
    hide Lower, Tracks, UniqueNames;
    forall id ensures ParentOrder.InBundle(fs + [f], id) <==> ParentOrder.InBundle(fs, id) || id == f.id
    { ParentOrder.BundleMore(fs, f, id); }
  }
}
