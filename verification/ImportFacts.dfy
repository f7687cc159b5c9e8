/** What every import does, whatever the bundle and the policy. */
module ImportFacts {
  import opened Text
  import ParentOrder
  import JumpStore
  import opened Import

  // Nothing is lost or counted twice, and nothing that was there changes.

  /** Identifiers as minted: not blank, without a slash, all different, none in use. */
  ghost predicate Minted(mint: seq<Id>, used: set<Id>) {
    && (forall k :: 0 <= k < |mint| ==> mint[k] != "" && '/' !in mint[k] && mint[k] !in used)
    && (forall k, l :: 0 <= k < l < |mint| ==> mint[k] != mint[l])
  }

  /** Every row that was there is there, as it was. */
  ghost predicate Kept<T>(was: map<Id, T>, rows: map<Id, T>) {
    forall id :: id in was ==> id in rows && rows[id] == was[id]
  }

  /** The old rows as they were, and `made` new ones under the first `n` identifiers. */
  ghost predicate Grew<T>(was: map<Id, T>, rows: map<Id, T>, mint: seq<Id>, n: nat, made: nat) {
    && n <= |mint|
    && Kept(was, rows)
    && (forall id :: id in rows ==> id in was || id in mint[..n])
    && |rows| == |was| + made
  }

  lemma GrewSame<T>(was: map<Id, T>, rows: map<Id, T>, mint: seq<Id>, n: nat, made: nat)
    requires Grew(was, rows, mint, n, made) && n < |mint|
    ensures Grew(was, rows, mint, n + 1, made)
  {
    assert mint[..n] <= mint[..n + 1];
    assert forall id :: id in mint[..n] ==> id in mint[..n + 1];
  }

  lemma GrewMore<T>(was: map<Id, T>, rows: map<Id, T>, mint: seq<Id>, n: nat, made: nat, row: T)
    requires Grew(was, rows, mint, n, made) && n < |mint| && Minted(mint, was.Keys)
    ensures Grew(was, rows[mint[n] := row], mint, n + 1, made + 1)
  {
    GrewSame(was, rows, mint, n, made);
    assert mint[n] !in rows by {
      assert mint[n] !in mint[..n];
    }
    assert mint[..n + 1][n] == mint[n];
  }

  lemma GrewNot<T>(was: map<Id, T>, mint: seq<Id>)
    ensures Grew(was, was, mint, 0, 0)
  {
  }

  /** After `n` credentials. */
  ghost predicate CredsSo(s: State, r: Outcome, mint: seq<Id>, n: nat) {
    && r.state == s.(acc := s.acc.(creds := r.state.acc.creds), takenCreds := r.state.takenCreds, credIds :=
        r.state.credIds,
                     creds := r.state.creds, skipped := r.state.skipped)
    && r.state.creds >= s.creds && Grew(s.acc.creds, r.state.acc.creds, mint, n, r.state.creds - s.creds)
    && (r.Done? ==> r.state.creds + r.state.skipped == s.creds + s.skipped + n)
  }

  lemma {:induction false} CredsCounted(s: State, items: seq<Item<Cred>>, policy: Policy, mint: seq<Id>)
    requires |items| <= |mint| && Minted(mint, s.acc.creds.Keys)
    ensures CredsSo(s, Creds(s, items, policy, mint), mint, |items|)
  {
    if items == [] {
      GrewNot(s.acc.creds, mint);
    } else {
      var n := |items| - 1;
      CredsCounted(s, items[..n], policy, mint);
      var b := Creds(s, items[..n], policy, mint);
      CredCounted(s, b, items[n], policy, mint, n);
    }
  }

  /** A record is refused, skipped or made; nothing else of the state changes. */
  lemma CredShape(b: State, item: Item<Cred>, policy: Policy, mint: Id)
    ensures var r := CredStep(b, item, policy, mint);
            var t := r.state;
            && t == b.(acc := b.acc.(creds := t.acc.creds), takenCreds := t.takenCreds, credIds := t.credIds, creds :=
                t.creds, skipped := t.skipped)
            && (r.Failed? ==> t == b)
            && (r.Done? && t.creds != b.creds ==>
                  && t.creds == b.creds + 1 && t.skipped == b.skipped
                  && mint in t.acc.creds && t.acc.creds == b.acc.creds[mint := t.acc.creds[mint]]
                      && t.credIds == b.credIds[item.id := mint])
            && (r.Done? && t.creds == b.creds ==>
                  t.acc.creds == b.acc.creds && t.skipped == b.skipped + 1)
  {
    hide Lower, Trim, UniqueName, Slot, AcceptedConn, StoredConn, LevelWithin, KnownKind, Destination;
  }

  lemma CredCounted(s: State, b: Outcome, item: Item<Cred>, policy: Policy, mint: seq<Id>, n: nat)
    requires n < |mint| && Minted(mint, s.acc.creds.Keys) && CredsSo(s, b, mint, n)
    ensures CredsSo(s, if b.Failed? then b else CredStep(b.state, item, policy, mint[n]), mint, n + 1)
  {
    hide Grew, Minted, CredStep;
    if b.Done? { CredShape(b.state, item, policy, mint[n]); }
    GrewSame(s.acc.creds, b.state.acc.creds, mint, n, b.state.creds - s.creds);
    if b.Done? {
      var t := CredStep(b.state, item, policy, mint[n]).state;
      if t.creds > b.state.creds {
        assert mint[n] in t.acc.creds;
        GrewMore(s.acc.creds, b.state.acc.creds, mint, n, b.state.creds - s.creds, t.acc.creds[mint[n]]);
      }
    }
  }

  ghost predicate FoldersSo(s: State, r: Outcome, mint: seq<Id>, n: nat) {
    && r.state == s.(acc := s.acc.(folders := r.state.acc.folders), takenFolders := r.state.takenFolders, folderIds :=
        r.state.folderIds,
                     folders := r.state.folders, skipped := r.state.skipped)
    && r.state.folders >= s.folders && Grew(s.acc.folders, r.state.acc.folders, mint, n, r.state.folders - s.folders)
    && (r.Done? ==> r.state.folders + r.state.skipped == s.folders + s.skipped + n)
  }

  lemma {:induction false} FoldersCounted(s: State, fs: seq<ParentOrder.Folder>, policy: Policy, into: Id,
      mint: seq<Id>)
    requires |fs| <= |mint| && Minted(mint, s.acc.folders.Keys)
    ensures FoldersSo(s, Folders(s, fs, policy, into, mint), mint, |fs|)
  {
    if fs == [] {
      GrewNot(s.acc.folders, mint);
    } else {
      var n := |fs| - 1;
      FoldersCounted(s, fs[..n], policy, into, mint);
      FolderCounted(s, Folders(s, fs[..n], policy, into, mint), fs[n], policy, into, mint, n);
    }
  }

  /** A record is refused, skipped or made; nothing else of the state changes. */
  lemma FolderShape(b: State, f: ParentOrder.Folder, policy: Policy, into: Id, mint: Id)
    ensures var r := FolderStep(b, f, policy, into, mint);
            var t := r.state;
            && t == b.(acc := b.acc.(folders := t.acc.folders), takenFolders := t.takenFolders, folderIds :=
                t.folderIds, folders := t.folders, skipped := t.skipped)
            && (r.Failed? ==> t == b)
            && (r.Done? && t.folders != b.folders ==>
                  && t.folders == b.folders + 1 && t.skipped == b.skipped
                  && mint in t.acc.folders && t.acc.folders == b.acc.folders[mint := t.acc.folders[mint]]
                      && t.folderIds == b.folderIds[f.id := mint])
            && (r.Done? && t.folders == b.folders ==>
                  t.acc.folders == b.acc.folders && t.skipped == b.skipped + 1)
  {
    hide Lower, Trim, UniqueName, Slot, AcceptedConn, StoredConn, LevelWithin, KnownKind, Destination;
  }

  lemma FolderCounted(s: State, b: Outcome, f: ParentOrder.Folder, policy: Policy, into: Id, mint: seq<Id>, n: nat)
    requires n < |mint| && Minted(mint, s.acc.folders.Keys) && FoldersSo(s, b, mint, n)
    ensures FoldersSo(s, if b.Failed? then b else FolderStep(b.state, f, policy, into, mint[n]), mint, n + 1)
  {
    hide Grew, Minted, FolderStep;
    if b.Done? { FolderShape(b.state, f, policy, into, mint[n]); }
    GrewSame(s.acc.folders, b.state.acc.folders, mint, n, b.state.folders - s.folders);
    if b.Done? {
      var t := FolderStep(b.state, f, policy, into, mint[n]).state;
      if t.folders > b.state.folders {
        assert mint[n] in t.acc.folders;
        GrewMore(s.acc.folders, b.state.acc.folders, mint, n, b.state.folders - s.folders, t.acc.folders[mint[n]]);
      }
    }
  }

  /** The identifiers given to imported connections are new ones. */
  ghost predicate GivenNew(connIds: map<Id, Id>, conns: map<Id, Conn>, was: map<Id, Conn>) {
    forall id :: id in connIds ==> connIds[id] in conns && connIds[id] !in was
  }

  ghost predicate ConnsSo(s: State, r: Outcome, mint: seq<Id>, n: nat) {
    && r.state == s.(acc := s.acc.(conns := r.state.acc.conns), takenConns := r.state.takenConns, connIds :=
        r.state.connIds,
                     conns := r.state.conns, skipped := r.state.skipped)
    && r.state.conns >= s.conns && Grew(s.acc.conns, r.state.acc.conns, mint, n, r.state.conns - s.conns)
    && GivenNew(r.state.connIds, r.state.acc.conns, s.acc.conns)
    && (r.Done? ==> r.state.conns + r.state.skipped == s.conns + s.skipped + n)
  }

  lemma {:induction false} ConnsCounted(s: State, items: seq<Item<Conn>>, policy: Policy, into: Id, mint: seq<Id>)
    requires |items| <= |mint| && Minted(mint, s.acc.conns.Keys) && s.connIds == map[]
    ensures ConnsSo(s, Conns(s, items, policy, into, mint), mint, |items|)
  {
    if items == [] {
      GrewNot(s.acc.conns, mint);
    } else {
      var n := |items| - 1;
      ConnsCounted(s, items[..n], policy, into, mint);
      ConnCounted(s, Conns(s, items[..n], policy, into, mint), items[n], policy, into, mint, n);
    }
  }

  /** A record is refused, skipped or made; nothing else of the state changes. */
  lemma ConnShape(b: State, item: Item<Conn>, policy: Policy, into: Id, mint: Id)
    ensures var r := ConnStep(b, item, policy, into, mint);
            var t := r.state;
            && t == b.(acc := b.acc.(conns := t.acc.conns), takenConns := t.takenConns, connIds := t.connIds, conns :=
                t.conns, skipped := t.skipped)
            && (r.Failed? ==> t == b)
            && (r.Done? && t.conns != b.conns ==>
                  && t.conns == b.conns + 1 && t.skipped == b.skipped
                  && mint in t.acc.conns && t.acc.conns == b.acc.conns[mint := t.acc.conns[mint]]
                      && t.connIds == b.connIds[item.id := mint])
            && (r.Done? && t.conns == b.conns ==>
                  t.acc.conns == b.acc.conns && t.skipped == b.skipped + 1 && t.connIds == b.connIds)
  {
    hide Lower, Trim, UniqueName, Slot, AcceptedConn, StoredConn, LevelWithin, KnownKind, Destination;
  }

  lemma ConnCounted(s: State, b: Outcome, item: Item<Conn>, policy: Policy, into: Id, mint: seq<Id>, n: nat)
    requires n < |mint| && Minted(mint, s.acc.conns.Keys) && ConnsSo(s, b, mint, n)
    ensures ConnsSo(s, if b.Failed? then b else ConnStep(b.state, item, policy, into, mint[n]), mint, n + 1)
  {
    hide Grew, Kept, ConnStep;
    if b.Done? { ConnShape(b.state, item, policy, into, mint[n]); }
    GrewSame(s.acc.conns, b.state.acc.conns, mint, n, b.state.conns - s.conns);
    if b.Done? {
      var t := ConnStep(b.state, item, policy, into, mint[n]).state;
      if t.conns > b.state.conns {
        assert mint[n] in t.acc.conns;
        GrewMore(s.acc.conns, b.state.acc.conns, mint, n, b.state.conns - s.conns, t.acc.conns[mint[n]]);
      }
    }
  }

  /** Only jump chains of imported connections may differ. */
  ghost predicate ChainsOnly(was: map<Id, Conn>, conns: map<Id, Conn>, given: set<Id>) {
    conns.Keys == was.Keys && forall id ::
        id in was ==> conns[id] == was[id].(chain := conns[id].chain) && (id !in given ==> conns[id] == was[id])
  }

  lemma {:induction false} ChainsAlone(s: State, items: seq<Item<Conn>>)
    ensures var r := Chains(s, items).state;
            r == s.(acc := s.acc.(conns := r.acc.conns)) && ChainsOnly(s.acc.conns, r.acc.conns, s.connIds.Values)
  {
    if items != [] {
      var n := |items| - 1;
      ChainsAlone(s, items[..n]);
      ChainAlone(s, Chains(s, items[..n]), items[n]);
    }
  }

  lemma ChainAlone(s: State, b: Outcome, item: Item<Conn>)
    requires b.state == s.(acc := s.acc.(conns := b.state.acc.conns))
      && ChainsOnly(s.acc.conns, b.state.acc.conns, s.connIds.Values)
    ensures var r := (if b.Failed? then b else ChainStep(b.state, item)).state;
            r == s.(acc := s.acc.(conns := r.acc.conns)) && ChainsOnly(s.acc.conns, r.acc.conns, s.connIds.Values)
  {
    hide JumpStore.Validate, Graph, MapChain;
  }

  ghost predicate AllMinted(acc: Account, ids: Supply) {
    Minted(ids.creds, acc.creds.Keys) && Minted(ids.folders, acc.folders.Keys) && Minted(ids.conns, acc.conns.Keys)
  }

  ghost predicate Keeps(was: Account, acc: Account) {
    Kept(was.creds, acc.creds) && Kept(was.folders, acc.folders) && Kept(was.conns, acc.conns)
  }

  lemma GrewKept<T>(was: map<Id, T>, rows: map<Id, T>, mint: seq<Id>, n: nat, made: nat)
    requires Grew(was, rows, mint, n, made)
    ensures Kept(was, rows)
  {
  }

  lemma KeptSame<T>(was: map<Id, T>)
    ensures Kept(was, was)
  {
  }

  lemma ChainsKept(was: map<Id, Conn>, conns: map<Id, Conn>, now: map<Id, Conn>, connIds: map<Id, Id>)
    requires Kept(was, conns) && ChainsOnly(conns, now, connIds.Values) && GivenNew(connIds, conns, was)
    ensures Kept(was, now)
  {
  }

  /** Failed or not, an import changes no record that was there, whatever the policy is called. */
  lemma Untouched(acc: Account, listing: Listing, p: Payload, ordered: seq<ParentOrder.Folder>, policy: Policy,
      into: Id, ids: Supply)
    requires Enough(p, ordered, ids) && AllMinted(acc, ids)
    ensures Keeps(acc, ImportAll(acc, listing, p, ordered, policy, into, ids).state.acc)
  {
    hide Creds, Folders, Conns, Chains, Taken, TakenSlots, CredNames, FolderNames, Minted, Kept, Grew, ChainsOnly,
        GivenNew;
    KeptSame(acc.creds);
    KeptSame(acc.folders);
    KeptSame(acc.conns);
    var s := Begin(acc, listing);
    CredsCounted(s, p.creds, policy, ids.creds);
    var a := Creds(s, p.creds, policy, ids.creds);
    GrewKept(acc.creds, a.state.acc.creds, ids.creds, |p.creds|, a.state.creds);
    if a.Done? {
      FoldersCounted(a.state, ordered, policy, into, ids.folders);
      var b := Folders(a.state, ordered, policy, into, ids.folders);
      GrewKept(acc.folders, b.state.acc.folders, ids.folders, |ordered|, b.state.folders);
      if b.Done? {
        ConnsCounted(b.state, p.conns, policy, into, ids.conns);
        var c := Conns(b.state, p.conns, policy, into, ids.conns);
        GrewKept(acc.conns, c.state.acc.conns, ids.conns, |p.conns|, c.state.conns);
        if c.Done? {
          ChainsAlone(c.state, p.conns);
          ChainsKept(acc.conns, c.state.acc.conns, Chains(c.state, p.conns).state.acc.conns, c.state.connIds);
        }
      }
    }
  }

  /**
   Conservation: a successful import has made or skipped each record of the bundle once, and the
   account has grown by exactly what it says it made.
   */
  lemma Conserves(acc: Account, listing: Listing, p: Payload, ordered: seq<ParentOrder.Folder>, policy: Policy,
      into: Id, ids: Supply)
    requires Enough(p, ordered, ids) && AllMinted(acc, ids) && |ordered| == |p.folders|
    ensures var r := ImportAll(acc, listing, p, ordered, policy, into, ids);
            var t := r.state;
            && |t.acc.creds| == |acc.creds| + t.creds && |t.acc.folders| == |acc.folders| + t.folders
            && |t.acc.conns| == |acc.conns| + t.conns
            && (r.Done? ==> t.creds + t.folders + t.conns + t.skipped == |p.creds| + |p.folders| + |p.conns|)
  {
    hide Creds, Folders, Conns, Chains, Taken, TakenSlots, CredNames, FolderNames, Minted;
    var s := Begin(acc, listing);
    CredsCounted(s, p.creds, policy, ids.creds);
    var a := Creds(s, p.creds, policy, ids.creds);
    if a.Done? {
      FoldersCounted(a.state, ordered, policy, into, ids.folders);
      var b := Folders(a.state, ordered, policy, into, ids.folders);
      if b.Done? {
        ConnsCounted(b.state, p.conns, policy, into, ids.conns);
        var c := Conns(b.state, p.conns, policy, into, ids.conns);
        if c.Done? {
          ChainsAlone(c.state, p.conns);
          SameKeys(c.state.acc.conns, Chains(c.state, p.conns).state.acc.conns);
        }
      }
    }
  }

  lemma SameKeys<T>(a: map<Id, T>, b: map<Id, T>)
    requires a.Keys == b.Keys
    ensures |a| == |b|
  {
    assert |a.Keys| == |a| && |b.Keys| == |b|;
  }
}
