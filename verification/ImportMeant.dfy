/** What the records of a bundle stand for in the account, when names already in use are skipped. */
module ImportMeant {
  import opened Text
  import ParentOrder
  import opened Import
  import opened ImportFacts
  import opened ImportCopy
  import opened ImportAgain
  import JumpStore

  // Records of one kind, each with a key that says when two are alike.

  /** The j-th is the first that is like the k-th. */
  ghost predicate First(keys: seq<string>, j: nat, k: nat) {
    j <= k < |keys| && keys[j] == keys[k] && forall i :: 0 <= i < j ==> keys[i] != keys[k]
  }

  /** Nothing like the k-th was in use, and nothing before it is like it. */
  ghost predicate IsNew(taken: set<string>, keys: seq<string>, k: nat) {
    k < |keys| && keys[k] !in taken && First(keys, k, k)
  }

  /** What the k-th stands for: what had its name at the start, or else what was made for the first that is like it. */
  ghost predicate Stands(taken: map<string, Id>, keys: seq<string>, mint: seq<Id>, k: nat, id: Id) {
    && k < |keys| <= |mint|
    && if keys[k] in taken then id == taken[keys[k]] else exists j: nat :: First(keys, j, k) && id == mint[j]
  }

  /** No later record has the same identifier. */
  ghost predicate LastWith(olds: seq<Id>, k: nat) { k < |olds| && forall l :: k < l < |olds| ==> olds[l] != olds[k] }

  /** Every identifier of the bundle, and no other, has been given a meaning: that of the last record that has it. */
  ghost predicate IdsStand(taken: map<string, Id>, keys: seq<string>, olds: seq<Id>, mint: seq<Id>, ids: map<Id, Id>) {
    && |olds| == |keys| && (forall id :: id in ids <==> id in olds)
    && forall k: nat :: LastWith(olds, k) ==> olds[k] in ids && Stands(taken, keys, mint, k, ids[olds[k]])
  }

  /** The names in use afterwards. */
  ghost predicate TableStands(taken: map<string, Id>, keys: seq<string>, mint: seq<Id>, now: map<string, Id>) {
    && (forall key :: key in now <==> key in taken || key in keys)
    && (forall key :: key in taken ==> key in now && now[key] == taken[key])
    && forall k: nat :: k < |keys| ==> keys[k] in now && Stands(taken, keys, mint, k, now[keys[k]])
  }

  lemma StandsStill(taken: map<string, Id>, keys: seq<string>, mint: seq<Id>, k: nat, id: Id, key: string)
    requires Stands(taken, keys, mint, k, id) && |keys| < |mint|
    ensures Stands(taken, keys + [key], mint, k, id)
  {
    var more := keys + [key];
    if keys[k] !in taken {
      var j: nat :| First(keys, j, k) && id == mint[j];
      assert First(more, j, k);
    }
  }

  lemma NewStill(taken: set<string>, keys: seq<string>, k: nat, key: string)
    requires k < |keys|
    ensures IsNew(taken, keys + [key], k) <==> IsNew(taken, keys, k)
  {
    var more := keys + [key];
    if IsNew(taken, more, k) {
      forall i | 0 <= i < k ensures keys[i] != keys[k] { assert more[i] != more[k]; }
    }
  }

  /** The last record, in terms of the names in use when its turn comes. */
  lemma LastStands(taken: map<string, Id>, keys: seq<string>, mint: seq<Id>, now: map<string, Id>, key: string)
    requires TableStands(taken, keys, mint, now) && |keys| < |mint|
    ensures IsNew(taken.Keys, keys + [key], |keys|) <==> key !in now
    ensures Stands(taken, keys + [key], mint, |keys|, if key in now then now[key] else mint[|keys|])
  {
    var more, n := keys + [key], |keys|;
    if key in keys {
      var i: nat :| i < n && keys[i] == key;
      assert more[i] == more[n];
      if key !in taken {
        var j: nat :| First(keys, j, i) && now[key] == mint[j];
        assert First(more, j, n);
      }
    } else {
      assert First(more, n, n);
    }
  }

  lemma TableMore(taken: map<string, Id>, keys: seq<string>, mint: seq<Id>, now: map<string, Id>, key: string)
    requires TableStands(taken, keys, mint, now) && |keys| < |mint|
    ensures TableStands(taken, keys + [key], mint, if key in now then now else now[key := mint[|keys|]])
  {
    hide Stands;
    var more, next := keys + [key], if key in now then now else now[key := mint[|keys|]];
    LastStands(taken, keys, mint, now, key);
    forall k: nat | k < |more| ensures more[k] in next && Stands(taken, more, mint, k, next[more[k]]) {
      if k < |keys| { StandsStill(taken, keys, mint, k, now[keys[k]], key); }
    }
    assert forall x :: x in more <==> x in keys || x == key;
  }

  lemma IdsMeanMore(taken: map<string, Id>, keys: seq<string>, olds: seq<Id>, mint: seq<Id>, ids: map<Id, Id>,
      key: string, was: Id, id: Id)
    requires IdsStand(taken, keys, olds, mint, ids) && |keys| < |mint|
    requires Stands(taken, keys + [key], mint, |keys|, id)
    ensures IdsStand(taken, keys + [key], olds + [was], mint, ids[was := id])
  {
    hide Stands;
    var more := olds + [was];
    forall k: nat | LastWith(more, k)
      ensures more[k] in ids[was := id] && Stands(taken, keys + [key], mint, k, ids[was := id][more[k]])
    {
      if k < |olds| {
        assert more[|olds|] != more[k];
        forall l | k < l < |olds| ensures olds[l] != olds[k] { assert more[l] != more[k]; }
        assert LastWith(olds, k);
        StandsStill(taken, keys, mint, k, ids[olds[k]], key);
      }
    }
  }

  /** The rows afterwards: those that were there, as they were, and one for each new record. */
  ghost predicate RowsMade<T>(was: map<Id, T>, rows: map<Id, T>, taken: set<string>, keys: seq<string>, mint: seq<Id>) {
    && |keys| <= |mint| && Kept(was, rows)
    && (forall id :: id in rows ==> id in was || Minting(taken, keys, mint, id))
    && (forall k: nat :: k < |keys| && IsNew(taken, keys, k) ==> mint[k] in rows)
  }

  ghost predicate Minting(taken: set<string>, keys: seq<string>, mint: seq<Id>, id: Id)
    requires |keys| <= |mint|
  {
    exists k: nat :: IsNew(taken, keys, k) && mint[k] == id
  }

  lemma MintingStill(taken: set<string>, keys: seq<string>, mint: seq<Id>, key: string, id: Id)
    requires |keys| < |mint| && Minting(taken, keys, mint, id)
    ensures Minting(taken, keys + [key], mint, id)
  {
    var k: nat :| IsNew(taken, keys, k) && mint[k] == id;
    NewStill(taken, keys, k, key);
  }

  lemma RowsMadeSame<T>(was: map<Id, T>, rows: map<Id, T>, taken: set<string>, keys: seq<string>, mint: seq<Id>,
      key: string)
    requires RowsMade(was, rows, taken, keys, mint) && |keys| < |mint| && !IsNew(taken, keys + [key], |keys|)
    ensures RowsMade(was, rows, taken, keys + [key], mint)
  {
    hide IsNew, Kept, Minting;
    forall id | id in rows && id !in was ensures Minting(taken, keys + [key], mint, id)
    { MintingStill(taken, keys, mint, key, id); }
    forall k: nat | k < |keys| + 1 && IsNew(taken, keys + [key], k) ensures mint[k] in rows {
      NewStill(taken, keys, k, key);
    }
  }

  lemma RowsMadeMore<T>(was: map<Id, T>, rows: map<Id, T>, taken: set<string>, keys: seq<string>, mint: seq<Id>,
      key: string, row: T)
    requires RowsMade(was, rows, taken, keys, mint) && |keys| < |mint| && Minted(mint, was.Keys)
    requires IsNew(taken, keys + [key], |keys|)
    ensures mint[|keys|] !in rows && RowsMade(was, rows[mint[|keys|] := row], taken, keys + [key], mint)
  {
    hide IsNew, Minting;
    var n, next := |keys|, rows[mint[|keys|] := row];
    if mint[n] in rows {
      MintsDiffer(taken, keys, mint, n);
    }
    forall id | id in next && id !in was ensures Minting(taken, keys + [key], mint, id) {
      if id == mint[n] { MintingIs(taken, keys + [key], mint, n); } else { MintingStill(taken, keys, mint, key, id); }
    }
    forall k: nat | k <= n && IsNew(taken, keys + [key], k) ensures mint[k] in next {
      if k < n { NewStill(taken, keys, k, key); }
    }
  }

  lemma MintingIs(taken: set<string>, keys: seq<string>, mint: seq<Id>, k: nat)
    requires |keys| <= |mint| && IsNew(taken, keys, k)
    ensures Minting(taken, keys, mint, mint[k])
  {
  }

  lemma MintsDiffer(taken: set<string>, keys: seq<string>, mint: seq<Id>, n: nat)
    requires |keys| <= n < |mint| && forall k, l :: 0 <= k < l < |mint| ==> mint[k] != mint[l]
    ensures !Minting(taken, keys, mint, mint[n])
  {
  }

  // Credentials.

  predicate BadCred(c: Cred) { Trim(c.name) == "" || c.kind !in ["ssh_key", "password", "passphrase", "enable_secret"] }

  /** A credential as it is stored. */
  function CredRow(c: Cred, name: string): Cred { Cred(Trim(name), c.kind, Trim(c.username), c.secret) }

  /** What one of them does, when names in use are skipped. */
  lemma CredDoes(b: State, item: Item<Cred>, policy: Policy, mint: Id)
    requires policy != Rename
    ensures var r, key := CredStep(b, item, policy, mint), Lower(item.row.name);
            && (r.Failed? <==> key !in b.takenCreds && BadCred(item.row))
            && (r.Done? ==>
                  && r.state.credIds == b.credIds[item.id := if key in b.takenCreds then b.takenCreds[key] else mint]
                  && r.state.takenCreds == (if key in b.takenCreds then b.takenCreds else b.takenCreds[key := mint])
                  && r.state.acc.creds
                     == if key in b.takenCreds then b.acc.creds
                        else b.acc.creds[mint := CredRow(item.row, item.row.name)])
  {
    hide Lower, Trim, UniqueName;
  }

  ghost predicate CredsMeant(s: State, t: State, items: seq<Item<Cred>>, mint: seq<Id>) {
    var keys := CredKeys(items);
    && TableStands(s.takenCreds, keys, mint, t.takenCreds)
    && IdsStand(s.takenCreds, keys, CredOlds(items), mint, t.credIds)
    && RowsMade(s.acc.creds, t.acc.creds, s.takenCreds.Keys, keys, mint)
    && forall k: nat :: k < |items| && IsNew(s.takenCreds.Keys, keys, k) ==>
         mint[k] in t.acc.creds && t.acc.creds[mint[k]] == CredRow(items[k].row, items[k].row.name)
  }

  ghost predicate BadAmong(taken: set<string>, items: seq<Item<Cred>>) {
    exists k: nat :: k < |items| && IsNew(taken, CredKeys(items), k) && BadCred(items[k].row)
  }

  lemma BadMore(taken: set<string>, items: seq<Item<Cred>>)
    requires items != []
    ensures var n := |items| - 1;
            BadAmong(taken, items) <==>
              BadAmong(taken, items[..n]) || (IsNew(taken, CredKeys(items), n) && BadCred(items[n].row))
  {
    hide IsNew, BadCred, CredKeys;
    var n := |items| - 1;
    CredParts(items);
    CredLengths(items[..n]);
    var keys, key := CredKeys(items[..n]), Lower(items[n].row.name);
    if BadAmong(taken, items[..n]) {
      var k: nat :| k < n && IsNew(taken, keys, k) && BadCred(items[..n][k].row);
      NewStill(taken, keys, k, key);
      assert IsNew(taken, CredKeys(items), k) && BadCred(items[k].row);
    }
    if BadAmong(taken, items) {
      var k: nat :| k < |items| && IsNew(taken, CredKeys(items), k) && BadCred(items[k].row);
      if k < n {
        NewStill(taken, keys, k, key);
        assert BadCred(items[..n][k].row);
      }
    }
  }

  lemma CredMeant(s: State, b: State, items: seq<Item<Cred>>, policy: Policy, mint: seq<Id>)
    requires 0 < |items| <= |mint| && Minted(mint, s.acc.creds.Keys) && policy != Rename
    requires CredsMeant(s, b, items[..|items| - 1], mint)
    ensures var n := |items| - 1;
            var r := CredStep(b, items[n], policy, mint[n]);
            && (r.Failed? <==> IsNew(s.takenCreds.Keys, CredKeys(items), n) && BadCred(items[n].row))
            && (r.Done? ==> CredsMeant(s, r.state, items, mint))
  {
    hide TableStands, IdsStand, RowsMade, IsNew, Stands, CredKeys, CredOlds, CredStep, CredRow, Lower, BadCred, Minted;
    var n := |items| - 1;
    var key, keys := Lower(items[n].row.name), CredKeys(items[..n]);
    CredDoes(b, items[n], policy, mint[n]);
    CredParts(items);
    CredLengths(items[..n]);
    LastStands(s.takenCreds, keys, mint, b.takenCreds, key);
    TableMore(s.takenCreds, keys, mint, b.takenCreds, key);
    IdsMeanMore(s.takenCreds, keys, CredOlds(items[..n]), mint, b.credIds, key, items[n].id,
                if key in b.takenCreds then b.takenCreds[key] else mint[n]);
    if key in b.takenCreds {
      RowsMadeSame(s.acc.creds, b.acc.creds, s.takenCreds.Keys, keys, mint, key);
    } else {
      RowsMadeMore(s.acc.creds, b.acc.creds, s.takenCreds.Keys, keys, mint, key,
          CredRow(items[n].row, items[n].row.name));
    }
    forall k: nat | k < n && IsNew(s.takenCreds.Keys, CredKeys(items), k)
      ensures mint[k] in b.acc.creds && b.acc.creds[mint[k]] == CredRow(items[k].row, items[k].row.name)
    {
      NewStill(s.takenCreds.Keys, keys, k, key);
      assert items[..n][k] == items[k];
    }
  }

  lemma CredsMeantNone(s: State, mint: seq<Id>)
    requires s.credIds == map[]
    ensures CredsMeant(s, s, [], mint)
  {
  }

  /**
   The credentials of a bundle, when names in use are skipped: each identifier stands for the credential that had its
   name, or else for the one made for the first of that name, and nothing is made but those. It fails
   exactly when one of those has a blank name or an unknown kind.
   */
  lemma {:induction false} CredsStandFor(s: State, items: seq<Item<Cred>>, policy: Policy, mint: seq<Id>)
    requires |items| <= |mint| && Minted(mint, s.acc.creds.Keys) && policy != Rename && s.credIds == map[]
    ensures var r := Creds(s, items, policy, mint);
            && (r.Failed? <==> BadAmong(s.takenCreds.Keys, items))
            && (r.Done? ==> CredsMeant(s, r.state, items, mint))
  {
    hide CredsMeant, CredStep, Minted, BadAmong;
    if items == [] {
      CredsMeantNone(s, mint);
      assert items == [];
      assert !BadAmong(s.takenCreds.Keys, []) by { NoneBad(s.takenCreds.Keys); }
    } else {
      var n := |items| - 1;
      CredsStandFor(s, items[..n], policy, mint);
      BadMore(s.takenCreds.Keys, items);
      var b := Creds(s, items[..n], policy, mint);
      if b.Done? { CredMeant(s, b.state, items, policy, mint); }
    }
  }

  lemma NoneBad(taken: set<string>)
    ensures !BadAmong(taken, [])
  {
  }

  // Folders.

  /** Where a folder whose parent is `parent` goes: under what that stands for, or else where the import goes. */
  function ParentMeant(ids: map<Id, Id>, into: Id, parent: Id): Id {
    if parent != "" && parent in ids then ids[parent] else into
  }

  /** No folder comes after one that names it as its parent. */
  ghost predicate Downward(fs: seq<ParentOrder.Folder>) {
    forall k, n :: 0 <= k <= n < |fs| && fs[k].parent != "" ==> fs[n].id != fs[k].parent
  }

  lemma OrderedDownward(fs: seq<ParentOrder.Folder>, ordered: seq<ParentOrder.Folder>)
    requires ParentOrder.DistinctIds(fs) && Ordered(fs, ordered)
    ensures Downward(ordered)
  {
    hide ParentOrder.Trapped;
    var from :| ParentOrder.Arranged(fs, ordered, from);
    forall a, b | 0 <= a < b < |ordered| ensures ordered[a].id != ordered[b].id {
      assert from[a] != from[b] && ordered[a].id == fs[from[a]].id && ordered[b].id == fs[from[b]].id;
    }
    forall k, n | 0 <= k <= n < |ordered| && ordered[k].parent != "" ensures ordered[n].id != ordered[k].parent {
      assert ordered[n].id == fs[from[n]].id;
    }
  }

  /** A folder that cannot be made: unreadable defaults, no name, or a place that is too deep or not there. */
  predicate BadFolder(b: State, f: ParentOrder.Folder, into: Id) {
    !f.defaults.readable || Trim(f.name) == ""
    || !LevelWithin(Parents(b.acc.folders), ParentMeant(b.folderIds, into, f.parent), 30)
  }

  lemma FolderDoes(b: State, f: ParentOrder.Folder, policy: Policy, into: Id, mint: Id)
    requires policy != Rename
    ensures var r, key := FolderStep(b, f, policy, into, mint), Lower(f.name);
            && (r.Failed? <==> key !in b.takenFolders && BadFolder(b, f, into))
            && (r.Done? ==>
                  && r.state.folderIds
                      == b.folderIds[f.id := if key in b.takenFolders then b.takenFolders[key] else mint]
                  && r.state.takenFolders
                     == (if key in b.takenFolders then b.takenFolders else b.takenFolders[key := mint])
                  && r.state.acc.folders
                     == if key in b.takenFolders then b.acc.folders
                        else b.acc.folders[mint :=
                               FolderRow(ParentMeant(b.folderIds, into, f.parent), Trim(f.name), f.defaults)])
  {
    hide Lower, Trim, UniqueName, LevelWithin, Parents;
  }

  ghost predicate FoldersMeant(s: State, t: State, fs: seq<ParentOrder.Folder>, into: Id, mint: seq<Id>) {
    var keys := FolderKeys(fs);
    && TableStands(s.takenFolders, keys, mint, t.takenFolders)
    && IdsStand(s.takenFolders, keys, FolderOlds(fs), mint, t.folderIds)
    && RowsMade(s.acc.folders, t.acc.folders, s.takenFolders.Keys, keys, mint)
    && forall k: nat :: k < |fs| && IsNew(s.takenFolders.Keys, keys, k) ==>
         mint[k] in t.acc.folders
         && t.acc.folders[mint[k]] == FolderRow(ParentMeant(t.folderIds, into, fs[k].parent), Trim(fs[k].name),
                                                fs[k].defaults)
  }

  lemma FolderMeant(s: State, b: State, fs: seq<ParentOrder.Folder>, policy: Policy, into: Id, mint: seq<Id>)
    requires 0 < |fs| <= |mint| && Minted(mint, s.acc.folders.Keys) && policy != Rename && Downward(fs)
    requires FoldersMeant(s, b, fs[..|fs| - 1], into, mint)
    ensures var n := |fs| - 1;
            var r := FolderStep(b, fs[n], policy, into, mint[n]);
            && (r.Failed? <==> IsNew(s.takenFolders.Keys, FolderKeys(fs), n) && BadFolder(b, fs[n], into))
            && (r.Done? ==> FoldersMeant(s, r.state, fs, into, mint))
  {
    hide TableStands, IdsStand, RowsMade, IsNew, Stands, FolderKeys, FolderOlds, FolderStep, Lower, Trim, BadFolder,
         Minted;
    var n := |fs| - 1;
    var key, keys := Lower(fs[n].name), FolderKeys(fs[..n]);
    FolderDoes(b, fs[n], policy, into, mint[n]);
    FolderKeysOlds(fs);
    LastStands(s.takenFolders, keys, mint, b.takenFolders, key);
    TableMore(s.takenFolders, keys, mint, b.takenFolders, key);
    IdsMeanMore(s.takenFolders, keys, FolderOlds(fs[..n]), mint, b.folderIds, key, fs[n].id,
                if key in b.takenFolders then b.takenFolders[key] else mint[n]);
    if key in b.takenFolders {
      RowsMadeSame(s.acc.folders, b.acc.folders, s.takenFolders.Keys, keys, mint, key);
    } else {
      RowsMadeMore(s.acc.folders, b.acc.folders, s.takenFolders.Keys, keys, mint, key,
                   FolderRow(ParentMeant(b.folderIds, into, fs[n].parent), Trim(fs[n].name), fs[n].defaults));
    }
    forall k: nat | k < n && IsNew(s.takenFolders.Keys, FolderKeys(fs), k)
      ensures mint[k] in b.acc.folders
      ensures b.acc.folders[mint[k]]
        == FolderRow(ParentMeant(b.folderIds, into, fs[k].parent), Trim(fs[k].name), fs[k].defaults)
    {
      NewStill(s.takenFolders.Keys, keys, k, key);
      assert fs[..n][k] == fs[k];
    }
  }

  lemma FolderKeysOlds(fs: seq<ParentOrder.Folder>)
    requires fs != []
    ensures var n := |fs| - 1;
            && FolderKeys(fs) == FolderKeys(fs[..n]) + [Lower(fs[n].name)] && |FolderKeys(fs[..n])| == n
            && FolderOlds(fs) == FolderOlds(fs[..n]) + [fs[n].id] && |FolderOlds(fs[..n])| == n
  {
    hide Lower;
  }

  lemma FoldersMeantNone(s: State, into: Id, mint: seq<Id>)
    requires s.folderIds == map[]
    ensures FoldersMeant(s, s, [], into, mint)
  {
  }

  /** A new folder cannot be made when its turn comes. */
  ghost predicate FolderFails(s: State, fs: seq<ParentOrder.Folder>, policy: Policy, into: Id, mint: seq<Id>, k: nat)
    requires |fs| <= |mint|
  {
    && k < |fs| && IsNew(s.takenFolders.Keys, FolderKeys(fs), k)
    && BadFolder(Folders(s, fs[..k], policy, into, mint).state, fs[k], into)
  }

  ghost predicate SomeFolderFails(s: State, fs: seq<ParentOrder.Folder>, policy: Policy, into: Id, mint: seq<Id>)
    requires |fs| <= |mint|
  {
    exists k: nat :: FolderFails(s, fs, policy, into, mint, k)
  }

  lemma FolderFailsMore(s: State, fs: seq<ParentOrder.Folder>, policy: Policy, into: Id, mint: seq<Id>)
    requires 0 < |fs| <= |mint|
    ensures var n := |fs| - 1;
            SomeFolderFails(s, fs, policy, into, mint) <==>
              SomeFolderFails(s, fs[..n], policy, into, mint) || FolderFails(s, fs, policy, into, mint, n)
  {
    hide IsNew, BadFolder, FolderKeys, Folders;
    var n := |fs| - 1;
    FolderKeysOlds(fs);
    forall k: nat | k < n ensures FolderFails(s, fs, policy, into, mint, k)
                                  <==> FolderFails(s, fs[..n], policy, into, mint, k) {
      NewStill(s.takenFolders.Keys, FolderKeys(fs[..n]), k, Lower(fs[n].name));
      assert fs[..n][..k] == fs[..k] && fs[..n][k] == fs[k];
    }
    if SomeFolderFails(s, fs[..n], policy, into, mint) {
      var k: nat :| FolderFails(s, fs[..n], policy, into, mint, k);
      assert FolderFails(s, fs, policy, into, mint, k);
    }
    if SomeFolderFails(s, fs, policy, into, mint) {
      var k: nat :| FolderFails(s, fs, policy, into, mint, k);
      assert k < n ==> FolderFails(s, fs[..n], policy, into, mint, k);
    }
  }

  /**
   The folders, in their order: each identifier stands for the folder that had its name, or else for
   the one made for the first of that name, and that one is under what its parent stands for. It fails exactly
   when a new one cannot be made.
   */
  lemma {:induction false} FoldersStandFor(s: State, fs: seq<ParentOrder.Folder>, policy: Policy, into: Id,
      mint: seq<Id>)
    requires |fs| <= |mint| && Minted(mint, s.acc.folders.Keys) && policy != Rename && s.folderIds == map[]
    requires Downward(fs)
    ensures var r := Folders(s, fs, policy, into, mint);
            && (r.Failed? <==> SomeFolderFails(s, fs, policy, into, mint))
            && (r.Done? ==> FoldersMeant(s, r.state, fs, into, mint))
  {
    hide FoldersMeant, FolderStep, Minted, SomeFolderFails, BadFolder, IsNew, FolderKeys;
    if fs == [] {
      FoldersMeantNone(s, into, mint);
      assert fs == [];
      NoFolderFails(s, policy, into, mint);
    } else {
      var n := |fs| - 1;
      assert Downward(fs[..n]);
      FoldersStandFor(s, fs[..n], policy, into, mint);
      FolderFailsMore(s, fs, policy, into, mint);
      var b := Folders(s, fs[..n], policy, into, mint);
      if b.Done? { FolderMeant(s, b.state, fs, policy, into, mint); }
    }
  }

  lemma NoFolderFails(s: State, policy: Policy, into: Id, mint: seq<Id>)
    ensures !SomeFolderFails(s, [], policy, into, mint)
  {
  }

  // Connections.

  /** Where a connection goes. */
  function PlaceMeant(ids: map<Id, Id>, into: Id, folder: Id): Id { if folder in ids then ids[folder] else into }

  /** Connections are alike when they go into one folder and are called the same, ignoring case. */
  ghost function ConnKeys(ids: map<Id, Id>, into: Id, items: seq<Item<Conn>>): seq<string> {
    seq(|items|, i requires 0 <= i < |items| =>
      PlaceMeant(ids, into, items[i].row.folder) + "/" + Lower(items[i].row.name))
  }

  /** A connection that cannot be made. */
  predicate BadConn(folders: map<Id, FolderRow>, place: Id, c: Conn) {
    || Trim(c.name) == "" || c.protocol !in ["", "ssh", "telnet", "serial"]
    || (Trim(c.hostname) == "" && c.protocol != "serial")
    || !(c.port == 0 || 1 <= c.port <= 65535) || !(place == "" || place in folders) || !c.settings.readable
  }

  /** A connection as it is stored: what it refers to goes by what that stands for, or by nothing. */
  function ConnRow(credIds: map<Id, Id>, place: Id, c: Conn, name: string): Conn {
    Conn(place, Trim(name), if c.protocol == "" then "ssh" else c.protocol, Trim(c.hostname), c.port, Trim(c.username),
         if c.credential in credIds then credIds[c.credential] else "", [], c.settings)
  }

  /** What a record of the bundle is made into, and when that is accepted. */
  lemma MadeRow(b: State, c: Conn, place: Id, name: string)
    ensures var made := c.(folder := place, name := name, protocol := if c.protocol == "" then Ssh else c.protocol,
                           chain := [], credential := if c.credential in b.credIds then b.credIds[c.credential]
                               else "");
            && StoredConn(made) == ConnRow(b.credIds, place, c, name)
            && (AcceptedConn(b.acc, made) <==> !BadConn(b.acc.folders, place, c.(name := name)))
  {
    hide Trim;
  }

  lemma ConnDoes(b: State, item: Item<Conn>, policy: Policy, into: Id, mint: Id)
    requires policy != Rename
    ensures var r, place := ConnStep(b, item, policy, into, mint), PlaceMeant(b.folderIds, into, item.row.folder);
            var key := place + "/" + Lower(item.row.name);
            && (r.Failed? <==> key !in b.takenConns && BadConn(b.acc.folders, place, item.row))
            && (r.Done? ==>
                  && r.state.takenConns == b.takenConns + {key}
                  && r.state.connIds == (if key in b.takenConns then b.connIds else b.connIds[item.id := mint])
                  && r.state.acc.conns
                     == if key in b.takenConns then b.acc.conns
                        else b.acc.conns[mint := ConnRow(b.credIds, place, item.row, item.row.name)])
  {
    hide Lower, Trim, UniqueName, AcceptedConn, BadConn, StoredConn, ConnRow;
    var c, place := item.row, PlaceMeant(b.folderIds, into, item.row.folder);
    MadeRow(b, c, place, c.name);
    assert c.(name := c.name) == c && Destination(b, into, c.folder) == place
      && Slot(place, c.name) == place + "/" + Lower(c.name);
    hide PlaceMeant, Destination, Slot;
  }

  /** The last of the new ones with its identifier. */
  ghost predicate LastNewWith(taken: set<string>, keys: seq<string>, olds: seq<Id>, k: nat) {
    |olds| == |keys| && IsNew(taken, keys, k)
    && forall l: nat :: k < l < |olds| && IsNew(taken, keys, l) ==> olds[l] != olds[k]
  }

  /** New connections, and no others, have been given identifiers. */
  ghost predicate NewIds(taken: set<string>, keys: seq<string>, olds: seq<Id>, mint: seq<Id>, ids: map<Id, Id>) {
    && |olds| == |keys| <= |mint|
    && (forall id :: id in ids ==> NewIdOf(taken, keys, olds, mint, id, ids[id]))
    && (forall k: nat :: k < |keys| && LastNewWith(taken, keys, olds, k) ==> olds[k] in ids && ids[olds[k]] == mint[k])
  }

  ghost predicate NewIdOf(taken: set<string>, keys: seq<string>, olds: seq<Id>, mint: seq<Id>, id: Id, given: Id)
    requires |olds| == |keys| <= |mint|
  {
    exists k: nat :: IsNew(taken, keys, k) && olds[k] == id && mint[k] == given
  }

  lemma NewIdStill(taken: set<string>, keys: seq<string>, olds: seq<Id>, mint: seq<Id>, id: Id, given: Id, key: string,
      next: Id)
    requires |olds| == |keys| < |mint| && NewIdOf(taken, keys, olds, mint, id, given)
    ensures NewIdOf(taken, keys + [key], olds + [next], mint, id, given)
  {
    var k: nat :| IsNew(taken, keys, k) && olds[k] == id && mint[k] == given;
    NewStill(taken, keys, k, key);
    assert (olds + [next])[k] == id;
  }

  lemma NewIdsMore(taken: set<string>, keys: seq<string>, olds: seq<Id>, mint: seq<Id>, ids: map<Id, Id>, key: string,
      next: Id)
    requires NewIds(taken, keys, olds, mint, ids) && |keys| < |mint|
    ensures NewIds(taken, keys + [key], olds + [next], mint,
                   if IsNew(taken, keys + [key], |keys|) then ids[next := mint[|keys|]] else ids)
  {
    hide IsNew, NewIdOf;
    var n, more, nexts := |keys|, keys + [key], olds + [next];
    var now := if IsNew(taken, more, n) then ids[next := mint[n]] else ids;
    if IsNew(taken, more, n) { NewIdIs(taken, more, nexts, mint, n); }
    forall id | id in now ensures NewIdOf(taken, more, nexts, mint, id, now[id]) {
      if id in ids && now[id] == ids[id] { NewIdStill(taken, keys, olds, mint, id, ids[id], key, next); }
    }
    forall k: nat | k <= n && LastNewWith(taken, more, nexts, k) ensures nexts[k] in now && now[nexts[k]] == mint[k] {
      if k < n {
        NewStill(taken, keys, k, key);
        forall l: nat | k < l < n && IsNew(taken, keys, l) ensures olds[l] != olds[k] {
          NewStill(taken, keys, l, key);
          assert nexts[l] != nexts[k];
        }
        assert LastNewWith(taken, keys, olds, k);
        assert IsNew(taken, more, n) ==> nexts[n] != nexts[k];
      }
    }
  }

  lemma NewIdIs(taken: set<string>, keys: seq<string>, olds: seq<Id>, mint: seq<Id>, k: nat)
    requires |olds| == |keys| <= |mint| && IsNew(taken, keys, k)
    ensures NewIdOf(taken, keys, olds, mint, olds[k], mint[k])
  {
  }

  ghost predicate ConnsMeant(s: State, t: State, items: seq<Item<Conn>>, into: Id, mint: seq<Id>) {
    var keys := ConnKeys(s.folderIds, into, items);
    && t.folderIds == s.folderIds && t.credIds == s.credIds && t.acc.folders == s.acc.folders
    && t.acc.creds == s.acc.creds
    && (forall key :: key in t.takenConns <==> key in s.takenConns || key in keys)
    && NewIds(s.takenConns, keys, ConnOlds(items), mint, t.connIds)
    && RowsMade(s.acc.conns, t.acc.conns, s.takenConns, keys, mint)
    && forall k: nat :: k < |items| && IsNew(s.takenConns, keys, k) ==>
         mint[k] in t.acc.conns
         && var c := items[k].row;
            t.acc.conns[mint[k]] == ConnRow(s.credIds, PlaceMeant(s.folderIds, into, c.folder), c, c.name)
  }

  lemma NewExactly(taken: set<string>, keys: seq<string>, now: set<string>, key: string)
    requires forall x :: x in now <==> x in taken || x in keys
    ensures IsNew(taken, keys + [key], |keys|) <==> key !in now
  {
    var more := keys + [key];
    if key in keys {
      var i: nat :| i < |keys| && keys[i] == key;
      assert more[i] == more[|keys|];
    } else if key !in taken {
      assert First(more, |keys|, |keys|);
    }
  }

  lemma ConnKeysOlds(ids: map<Id, Id>, into: Id, items: seq<Item<Conn>>)
    requires items != []
    ensures var n := |items| - 1;
            && ConnKeys(ids, into, items) == ConnKeys(ids, into, items[..n])
               + [PlaceMeant(ids, into, items[n].row.folder) + "/" + Lower(items[n].row.name)]
            && |ConnKeys(ids, into, items[..n])| == n
            && ConnOlds(items) == ConnOlds(items[..n]) + [items[n].id] && |ConnOlds(items[..n])| == n
  {
    hide Lower, PlaceMeant;
  }

  lemma ConnMeant(s: State, b: State, items: seq<Item<Conn>>, policy: Policy, into: Id, mint: seq<Id>)
    requires 0 < |items| <= |mint| && Minted(mint, s.acc.conns.Keys) && policy != Rename
    requires ConnsMeant(s, b, items[..|items| - 1], into, mint)
    ensures var n := |items| - 1;
            var r := ConnStep(b, items[n], policy, into, mint[n]);
            && (r.Failed? <==> IsNew(s.takenConns, ConnKeys(s.folderIds, into, items), n)
                               && BadConn(s.acc.folders, PlaceMeant(s.folderIds, into, items[n].row.folder),
                                          items[n].row))
            && (r.Done? ==> ConnsMeant(s, r.state, items, into, mint))
  {
    hide NewIds, RowsMade, IsNew, ConnKeys, ConnOlds, ConnStep, Lower, Trim, BadConn, ConnRow, PlaceMeant, Minted;
    var n := |items| - 1;
    var place := PlaceMeant(s.folderIds, into, items[n].row.folder);
    var key, keys := place + "/" + Lower(items[n].row.name), ConnKeys(s.folderIds, into, items[..n]);
    ConnDoes(b, items[n], policy, into, mint[n]);
    ConnShape(b, items[n], policy, into, mint[n]);
    ConnKeysOlds(s.folderIds, into, items);
    NewExactly(s.takenConns, keys, b.takenConns, key);
    NewIdsMore(s.takenConns, keys, ConnOlds(items[..n]), mint, b.connIds, key, items[n].id);
    if key in b.takenConns {
      RowsMadeSame(s.acc.conns, b.acc.conns, s.takenConns, keys, mint, key);
    } else {
      RowsMadeMore(s.acc.conns, b.acc.conns, s.takenConns, keys, mint, key,
                   ConnRow(s.credIds, place, items[n].row, items[n].row.name));
    }
    assert forall x :: x in keys + [key] <==> x in keys || x == key;
    forall k: nat | k < n && IsNew(s.takenConns, ConnKeys(s.folderIds, into, items), k)
      ensures mint[k] in b.acc.conns
      ensures var c := items[k].row;
              b.acc.conns[mint[k]] == ConnRow(s.credIds, PlaceMeant(s.folderIds, into, c.folder), c, c.name)
    {
      NewStill(s.takenConns, keys, k, key);
      assert items[..n][k] == items[k];
    }
  }

  ghost predicate BadConnAmong(s: State, into: Id, items: seq<Item<Conn>>) {
    exists k: nat :: k < |items| && IsNew(s.takenConns, ConnKeys(s.folderIds, into, items), k)
      && BadConn(s.acc.folders, PlaceMeant(s.folderIds, into, items[k].row.folder), items[k].row)
  }

  lemma BadConnMore(s: State, into: Id, items: seq<Item<Conn>>)
    requires items != []
    ensures var n := |items| - 1;
            BadConnAmong(s, into, items) <==>
              BadConnAmong(s, into, items[..n])
              || (IsNew(s.takenConns, ConnKeys(s.folderIds, into, items), n)
                  && BadConn(s.acc.folders, PlaceMeant(s.folderIds, into, items[n].row.folder), items[n].row))
  {
    hide IsNew, BadConn, ConnKeys, PlaceMeant;
    var n := |items| - 1;
    ConnKeysOlds(s.folderIds, into, items);
    var keys := ConnKeys(s.folderIds, into, items[..n]);
    var key := PlaceMeant(s.folderIds, into, items[n].row.folder) + "/" + Lower(items[n].row.name);
    if BadConnAmong(s, into, items[..n]) {
      var k: nat :| k < n && IsNew(s.takenConns, keys, k)
        && BadConn(s.acc.folders, PlaceMeant(s.folderIds, into, items[..n][k].row.folder), items[..n][k].row);
      NewStill(s.takenConns, keys, k, key);
      assert BadConn(s.acc.folders, PlaceMeant(s.folderIds, into, items[k].row.folder), items[k].row);
    }
    if BadConnAmong(s, into, items) {
      var k: nat :| k < |items| && IsNew(s.takenConns, ConnKeys(s.folderIds, into, items), k)
        && BadConn(s.acc.folders, PlaceMeant(s.folderIds, into, items[k].row.folder), items[k].row);
      if k < n {
        NewStill(s.takenConns, keys, k, key);
        assert BadConn(s.acc.folders, PlaceMeant(s.folderIds, into, items[..n][k].row.folder), items[..n][k].row);
      }
    }
  }

  lemma ConnsMeantNone(s: State, into: Id, mint: seq<Id>)
    requires s.connIds == map[]
    ensures ConnsMeant(s, s, [], into, mint) && !BadConnAmong(s, into, [])
  {
  }

  /**
   The connections: one is made for the first of each name in each folder that nobody there had, as it is in the bundle
   but for what it refers to, and none for the others. It fails exactly when one of those cannot be made.
   */
  lemma {:induction false} ConnsStandFor(s: State, items: seq<Item<Conn>>, policy: Policy, into: Id, mint: seq<Id>)
    requires |items| <= |mint| && Minted(mint, s.acc.conns.Keys) && policy != Rename && s.connIds == map[]
    ensures var r := Conns(s, items, policy, into, mint);
            && (r.Failed? <==> BadConnAmong(s, into, items))
            && (r.Done? ==> ConnsMeant(s, r.state, items, into, mint))
  {
    hide ConnsMeant, ConnStep, Minted, BadConnAmong;
    if items == [] {
      ConnsMeantNone(s, into, mint);
      assert items == [];
    } else {
      var n := |items| - 1;
      ConnsStandFor(s, items[..n], policy, into, mint);
      BadConnMore(s, into, items);
      var b := Conns(s, items[..n], policy, into, mint);
      if b.Done? { ConnMeant(s, b.state, items, policy, into, mint); }
    }
  }

  // Jump chains.

  /** Mapping a chain keeps the order, and drops the hops that were not imported and no others. */
  lemma {:induction false} MapChainExactly(ids: map<Id, Id>, a: seq<Id>, h: Id, b: seq<Id>)
    ensures MapChain(ids, []) == []
    ensures MapChain(ids, a + [h] + b) == MapChain(ids, a) + (if h in ids then [ids[h]] else []) + MapChain(ids, b)
  {
    if b == [] {
      assert a + [h] + b == a + [h] && (a + [h])[..|a|] == a;
    } else {
      var n := |b| - 1;
      MapChainExactly(ids, a, h, b[..n]);
      assert (a + [h] + b)[..|a + [h] + b| - 1] == a + [h] + b[..n];
    }
  }

  /** Without a chain, or with that of a record of the bundle under its new identifiers. */
  ghost predicate ChainFrom(ids: map<Id, Id>, items: seq<Item<Conn>>, id: Id, chain: seq<Id>) {
    chain == [] || exists k: nat :: k < |items| && items[k].id in ids && ids[items[k].id] == id
                                    && chain == MapChain(ids, items[k].row.chain)
  }

  /** One step of the second pass sets the mapped chain of its record, or nothing. */
  lemma ChainDoes(b: State, item: Item<Conn>)
    ensures var t := ChainStep(b, item).state;
            t == b
            || (item.id in b.connIds && b.connIds[item.id] in b.acc.conns
                && var id := b.connIds[item.id];
                   t == b.(acc := b.acc.(conns :=
                     b.acc.conns[id := b.acc.conns[id].(chain := MapChain(b.connIds, item.row.chain))])))
  {
    hide Graph, JumpStore.Validate, MapChain;
  }

  lemma {:induction false} ChainsAreFrom(s: State, items: seq<Item<Conn>>, id: Id)
    requires id in s.acc.conns && s.acc.conns[id].chain == []
    ensures var t := Chains(s, items).state;
            && t == s.(acc := s.acc.(conns := t.acc.conns)) && id in t.acc.conns
            && t.acc.conns[id] == s.acc.conns[id].(chain := t.acc.conns[id].chain)
            && ChainFrom(s.connIds, items, id, t.acc.conns[id].chain)
  {
    hide ChainStep, MapChain;
    if items != [] {
      var n := |items| - 1;
      ChainsAreFrom(s, items[..n], id);
      var b := Chains(s, items[..n]).state;
      FromStill(s.connIds, items, id, b.acc.conns[id].chain);
      ChainDoes(b, items[n]);
      if items[n].id in s.connIds {
        FromThere(s.connIds, items, n);
      }
      hide ChainFrom;
    }
  }

  lemma FromThere(ids: map<Id, Id>, items: seq<Item<Conn>>, k: nat)
    requires k < |items| && items[k].id in ids
    ensures ChainFrom(ids, items, ids[items[k].id], MapChain(ids, items[k].row.chain))
  {
  }

  lemma FromStill(ids: map<Id, Id>, items: seq<Item<Conn>>, id: Id, chain: seq<Id>)
    requires items != [] && ChainFrom(ids, items[..|items| - 1], id, chain)
    ensures ChainFrom(ids, items, id, chain)
  {
    var init := items[..|items| - 1];
    if chain != [] {
      var k: nat :| k < |init| && init[k].id in ids && ids[init[k].id] == id
                    && chain == MapChain(ids, init[k].row.chain);
      assert items[k] == init[k];
    }
  }

  /**
   Whether a chain is kept: when the route it gives is accepted by the account as it is by then. One that is refused is
   left out and the import goes on; it stops only at a folder that cannot be resolved.
   */
  lemma ChainVerdict(s: State, items: seq<Item<Conn>>, k: nat)
    requires k < |items| && Chains(s, items[..k]).Done? && items[k].id in s.connIds
    requires s.connIds[items[k].id] in s.acc.conns && MapChain(s.connIds, items[k].row.chain) != []
    ensures var b, r := Chains(s, items[..k]).state, Chains(s, items[..k + 1]);
            var id, chain := s.connIds[items[k].id], MapChain(s.connIds, items[k].row.chain);
            && id in b.acc.conns
            && var verdict := JumpStore.Validate(Graph(b.acc), id, chain);
               && (r.Failed? <==> verdict.Some? && verdict.value.FolderTooDeep?)
               && (r.Done? ==>
                     r.state.acc.conns
                     == if verdict.None? then b.acc.conns[id := b.acc.conns[id].(chain := chain)] else b.acc.conns)
  {
    hide JumpStore.Validate, Graph, Chains;
    ChainsAlone(s, items[..k]);
    ChainsOne(s, items, k);
    assert MapChain(s.connIds, []) == [];
  }

  // The whole import.

  /** The new connections, whatever has become of their chains. */
  ghost predicate ConnsCarried(s: State, t: State, items: seq<Item<Conn>>, into: Id, mint: seq<Id>) {
    var keys := ConnKeys(t.folderIds, into, items);
    && NewIds(s.takenConns, keys, ConnOlds(items), mint, t.connIds)
    && RowsMade(s.acc.conns, t.acc.conns, s.takenConns, keys, mint)
    && forall k: nat :: k < |items| && IsNew(s.takenConns, keys, k) ==>
         ConnCarried(t, items, into, mint, k)
  }

  /** A connection that was made: as in the bundle, in its folder, with the credential its own one stands for. */
  ghost predicate ConnCarried(t: State, items: seq<Item<Conn>>, into: Id, mint: seq<Id>, k: nat) {
    && k < |items| <= |mint| && mint[k] in t.acc.conns
    && var c, row := items[k].row, t.acc.conns[mint[k]];
       && row == ConnRow(t.credIds, PlaceMeant(t.folderIds, into, c.folder), c, c.name).(chain := row.chain)
       && ChainFrom(t.connIds, items, mint[k], row.chain)
  }

  lemma CarriedOn(b: State, c: State, items: seq<Item<Conn>>, into: Id, mint: seq<Id>)
    requires ConnsMeant(b, c, items, into, mint) && GivenNew(c.connIds, c.acc.conns, b.acc.conns)
    ensures ConnsCarried(b, Chains(c, items).state, items, into, mint)
  {
    hide NewIds, IsNew, ConnKeys, ConnOlds, ConnRow, PlaceMeant, Chains, ChainFrom, Minting;
    var t := Chains(c, items).state;
    var keys := ConnKeys(b.folderIds, into, items);
    ChainsAlone(c, items);
    ChainsKept(b.acc.conns, c.acc.conns, t.acc.conns, c.connIds);
    KeysLength(b.folderIds, into, items);
    assert RowsMade(b.acc.conns, t.acc.conns, b.takenConns, keys, mint);
    hide RowsMade;
    forall k: nat | k < |items| && IsNew(b.takenConns, keys, k) ensures ConnCarried(t, items, into, mint, k) {
      CarriedBare(c, items, into, mint, k);
      ChainsAreFrom(c, items, mint[k]);
    }
  }

  lemma CarriedBare(c: State, items: seq<Item<Conn>>, into: Id, mint: seq<Id>, k: nat)
    requires k < |items| <= |mint| && mint[k] in c.acc.conns
    requires var r := items[k].row;
             c.acc.conns[mint[k]] == ConnRow(c.credIds, PlaceMeant(c.folderIds, into, r.folder), r, r.name)
    ensures c.acc.conns[mint[k]].chain == []
  {
  }

  /**
   Any import that succeeds, with names in use skipped: every identifier of a credential or folder in the bundle stands
   for the record of the account that had its name, or else for the one made for it; every connection made is the one in
   the bundle, in the folder that its own one stands for and with the credential that its own one stands for.
   */
  lemma ImportMeans(acc: Account, listing: Listing, p: Payload, ordered: seq<ParentOrder.Folder>, policy: Policy,
      into: Id, ids: Supply)
    requires Enough(p, ordered, ids) && AllMinted(acc, ids) && policy != Rename
    requires ParentOrder.DistinctIds(p.folders) && Ordered(p.folders, ordered)
    requires ImportAll(acc, listing, p, ordered, policy, into, ids).Done?
    ensures var s, t := Begin(acc, listing), ImportAll(acc, listing, p, ordered, policy, into, ids).state;
            && CredsMeant(s, t, p.creds, ids.creds) && FoldersMeant(s, t, ordered, into, ids.folders)
            && ConnsCarried(s, t, p.conns, into, ids.conns)
  {
    hide Creds, Folders, Conns, Chains, Ordered, Minted, CredsMeant, FoldersMeant, ConnsMeant, ConnsCarried,
         BadAmong, SomeFolderFails, BadConnAmong, Taken, TakenSlots, CredNames, FolderNames, Grew;
    OrderedDownward(p.folders, ordered);
    var s := Begin(acc, listing);
    CredsCounted(s, p.creds, policy, ids.creds);
    CredsStandFor(s, p.creds, policy, ids.creds);
    var a := Creds(s, p.creds, policy, ids.creds).state;
    FoldersCounted(a, ordered, policy, into, ids.folders);
    FoldersStandFor(a, ordered, policy, into, ids.folders);
    var b := Folders(a, ordered, policy, into, ids.folders).state;
    ConnsCounted(b, p.conns, policy, into, ids.conns);
    ConnsStandFor(b, p.conns, policy, into, ids.conns);
    var c := Conns(b, p.conns, policy, into, ids.conns).state;
    CarriedOn(b, c, p.conns, into, ids.conns);
    ChainsAlone(c, p.conns);
    var t := Chains(c, p.conns).state;
    SameCredsMeant(s, a, t, p.creds, ids.creds);
    SameFoldersMeant(a, b, s, t, ordered, into, ids.folders);
    SameConnsCarried(b, s, t, p.conns, into, ids.conns);
  }

  lemma SameCredsMeant(s: State, a: State, t: State, items: seq<Item<Cred>>, mint: seq<Id>)
    requires CredsMeant(s, a, items, mint)
    requires t.takenCreds == a.takenCreds && t.credIds == a.credIds && t.acc.creds == a.acc.creds
    ensures CredsMeant(s, t, items, mint)
  {
    hide TableStands, IdsStand, RowsMade, IsNew, CredKeys, CredRow;
  }

  lemma SameFoldersMeant(a: State, b: State, s: State, t: State, fs: seq<ParentOrder.Folder>, into: Id, mint: seq<Id>)
    requires FoldersMeant(a, b, fs, into, mint)
    requires s.takenFolders == a.takenFolders && s.acc.folders == a.acc.folders
    requires t.takenFolders == b.takenFolders && t.folderIds == b.folderIds && t.acc.folders == b.acc.folders
    ensures FoldersMeant(s, t, fs, into, mint)
  {
    hide TableStands, IdsStand, RowsMade, IsNew, FolderKeys, ParentMeant;
  }

  lemma SameConnsCarried(b: State, s: State, t: State, items: seq<Item<Conn>>, into: Id, mint: seq<Id>)
    requires ConnsCarried(b, t, items, into, mint)
    requires s.takenConns == b.takenConns && s.acc.conns == b.acc.conns
    ensures ConnsCarried(s, t, items, into, mint)
  {
    hide NewIds, RowsMade, IsNew, ConnKeys, ConnCarried;
  }

  // What that says of one connection.

  /** The account had a credential of that name, ignoring case. */
  ghost predicate HadCred(acc: Account, listing: Listing, name: string) {
    exists x :: x in listing.creds && x in acc.creds && Lower(acc.creds[x].name) == Lower(name)
  }

  /**
   What a credential of the bundle stands for is a credential of the account that is called the same: one that was there
   if there was one, and else a new one.
   */
  lemma CredStandsFor(acc: Account, listing: Listing, t: State, items: seq<Item<Cred>>, mint: seq<Id>, m: nat)
    requires CredsMeant(Begin(acc, listing), t, items, mint) && LastWith(CredOlds(items), m)
    requires Minted(mint, acc.creds.Keys)
      && (forall k :: 0 <= k < |items| ==> Trim(items[k].row.name) == items[k].row.name)
    ensures m < |items| && items[m].id in t.credIds
    ensures var id := t.credIds[items[m].id];
            && id in t.acc.creds && Lower(t.acc.creds[id].name) == Lower(items[m].row.name)
            && (id in acc.creds <==> HadCred(acc, listing, items[m].row.name))
  {
    hide TableStands, Taken, Lower, Trim;
    var s, keys := Begin(acc, listing), CredKeys(items);
    assert CredOlds(items)[m] == items[m].id && keys[m] == Lower(items[m].row.name);
    var id := t.credIds[items[m].id];
    TakenTracks(CredNames(acc), listing.creds);
    if keys[m] in s.takenCreds {
      assert NamesRow(CredNames(acc), s.takenCreds, keys[m]);
      TakenListed(CredNames(acc), listing.creds, keys[m]);
    } else {
      var j: nat :| First(keys, j, m) && id == mint[j];
      assert IsNew(s.takenCreds.Keys, keys, j);
    }
  }

  /** A name in use is that of a row listed: of several alike, of the last. */
  lemma {:induction false} TakenListed(names: map<Id, string>, listing: seq<Id>, key: string)
    requires key in Taken(names, listing)
    ensures Taken(names, listing)[key] in listing
    ensures exists i :: 0 <= i < |listing| && listing[i] == Taken(names, listing)[key]
              && forall j :: i < j < |listing| && listing[j] in names ==> Lower(names[listing[j]]) != key
  {
    hide Lower;
    var n := |listing| - 1;
    if !(listing[n] in names && Lower(names[listing[n]]) == key) {
      TakenListed(names, listing[..n], key);
      var i :| 0 <= i < n && listing[..n][i] == Taken(names, listing[..n])[key]
               && forall j :: i < j < n && listing[..n][j] in names ==> Lower(names[listing[..n][j]]) != key;
      forall j | i < j < |listing| && listing[j] in names ensures Lower(names[listing[j]]) != key {
        if j < n { assert listing[..n][j] == listing[j]; }
      }
      assert listing[i] == listing[..n][i];
    }
  }

  /**
   So a connection made keeps its credential: it has the one of that name that was there, or the new one, and it has
   none when the bundle has none for it.
   */
  lemma CredentialKept(acc: Account, listing: Listing, p: Payload, ordered: seq<ParentOrder.Folder>, policy: Policy,
      into: Id, ids: Supply, k: nat)
    requires Enough(p, ordered, ids) && AllMinted(acc, ids) && policy != Rename
    requires ParentOrder.DistinctIds(p.folders) && Ordered(p.folders, ordered)
    requires ImportAll(acc, listing, p, ordered, policy, into, ids).Done?
    requires forall m :: 0 <= m < |p.creds| ==> Trim(p.creds[m].row.name) == p.creds[m].row.name
    requires k < |p.conns| && ids.conns[k] in ImportAll(acc, listing, p, ordered, policy, into, ids).state.acc.conns
    ensures var t := ImportAll(acc, listing, p, ordered, policy, into, ids).state;
            var credential := t.acc.conns[ids.conns[k]].credential;
            if exists m: nat :: LastWith(CredOlds(p.creds), m) && p.creds[m].id == p.conns[k].row.credential then
              exists m: nat :: LastWith(CredOlds(p.creds), m) && p.creds[m].id == p.conns[k].row.credential
                && credential in t.acc.creds && Lower(t.acc.creds[credential].name) == Lower(p.creds[m].row.name)
                && (credential in acc.creds <==> HadCred(acc, listing, p.creds[m].row.name))
            else credential == ""
  {
    hide ImportAll, CredsMeant, FoldersMeant, Ordered, Begin, HadCred, Lower, Trim, NewIds;
    ImportMeans(acc, listing, p, ordered, policy, into, ids);
    var s, t := Begin(acc, listing), ImportAll(acc, listing, p, ordered, policy, into, ids).state;
    MadeHere(s, t, acc, listing, p.conns, into, ids.conns, k);
    if m: nat :| LastWith(CredOlds(p.creds), m) && p.creds[m].id == p.conns[k].row.credential {
      CredStandsFor(acc, listing, t, p.creds, ids.creds, m);
    } else {
      NotThere(s, t, p.creds, ids.creds, p.conns[k].row.credential);
    }
  }

  lemma MadeHere(s: State, t: State, acc: Account, listing: Listing, items: seq<Item<Conn>>, into: Id, mint: seq<Id>,
      k: nat)
    requires s == Begin(acc, listing) && ConnsCarried(s, t, items, into, mint) && Minted(mint, acc.conns.Keys)
    requires k < |items| <= |mint| && mint[k] in t.acc.conns
    ensures t.acc.conns[mint[k]].credential
      == if items[k].row.credential in t.credIds then t.credIds[items[k].row.credential] else ""
  {
    hide NewIds, ChainFrom, ConnKeys, Taken, TakenSlots, RowsMade, IsNew, Minted, ConnRow, PlaceMeant;
    var keys := ConnKeys(t.folderIds, into, items);
    KeysLength(t.folderIds, into, items);
    MadeIsNew(acc.conns, t.acc.conns, s.takenConns, keys, mint, k);
    var c := items[k].row;
    RowCredential(t.credIds, PlaceMeant(t.folderIds, into, c.folder), c, c.name);
  }

  lemma RowCredential(credIds: map<Id, Id>, place: Id, c: Conn, name: string)
    ensures ConnRow(credIds, place, c, name).credential == if c.credential in credIds then credIds[c.credential] else ""
  {
  }

  /** What has been made is new, each under its own identifier. */
  lemma MadeIsNew<T>(was: map<Id, T>, rows: map<Id, T>, taken: set<string>, keys: seq<string>, mint: seq<Id>, k: nat)
    requires RowsMade(was, rows, taken, keys, mint) && Minted(mint, was.Keys) && k < |keys| && mint[k] in rows
    ensures IsNew(taken, keys, k)
  {
    hide First, Kept;
    var l: nat :| l < |keys| && IsNew(taken, keys, l) && mint[l] == mint[k];
  }

  lemma KeysLength(ids: map<Id, Id>, into: Id, items: seq<Item<Conn>>)
    ensures |ConnKeys(ids, into, items)| == |items|
  {
  }

  lemma NotThere(s: State, t: State, items: seq<Item<Cred>>, mint: seq<Id>, id: Id)
    requires CredsMeant(s, t, items, mint)
    requires forall m: nat :: LastWith(CredOlds(items), m) ==> items[m].id != id
    ensures id !in t.credIds
  {
    hide TableStands, RowsMade, Stands;
    assert |CredOlds(items)| == |items| && forall m :: 0 <= m < |items| ==> CredOlds(items)[m] == items[m].id;
    if id in t.credIds { var m := LastPlace(CredOlds(items), id); }
  }

  lemma {:induction false} LastPlace(olds: seq<Id>, id: Id) returns (m: nat)
    requires id in olds
    ensures LastWith(olds, m) && olds[m] == id
  {
    var n := |olds| - 1;
    if olds[n] == id {
      m := n;
    } else {
      assert olds == olds[..n] + [olds[n]];
      m := LastPlace(olds[..n], id);
    }
  }
}
