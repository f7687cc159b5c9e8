/**
 Importing a bundle into an account: records get new identifiers, references between them follow,
 and a policy decides what happens to a name that is already there.
 */
module Import {
  import opened Text
  import ParentOrder
  import JumpGraph
  import JumpStore
  import FolderForest

  type Id = string

  // What an account holds.

  datatype Cred = Cred(name: string, kind: string, username: string, secret: string)

  datatype FolderRow = FolderRow(parent: Id, name: string, defaults: ParentOrder.Settings)

  datatype Conn = Conn(folder: Id, name: string, protocol: string, hostname: string, port: int, username: string,
                       credential: Id, chain: seq<Id>, settings: ParentOrder.Settings)

  datatype Account = Account(creds: map<Id, Cred>, folders: map<Id, FolderRow>, conns: map<Id, Conn>)

  function Parents(folders: map<Id, FolderRow>): FolderForest.Folders {
    map id | id in folders :: folders[id].parent
  }

  /** Whether the top level is at most `limit` folders up from here. */
  predicate LevelWithin(parents: FolderForest.Folders, id: Id, limit: nat)
    decreases limit
  {
    id == "" || (id in parents && limit > 0 && LevelWithin(parents, parents[id], limit - 1))
  }

  /** That is what walking up finds. */
  lemma {:induction false} LevelIsDepth(parents: FolderForest.Folders, id: Id, limit: nat)
    requires "" !in parents
    ensures LevelWithin(parents, id, limit) <==> FolderForest.ReachesWithin(parents, id, limit)
    decreases limit
  {
    if id == "" {
      var d: nat := 0;
      assert FolderForest.Reaches(parents, id, d);
    } else if id in parents && limit > 0 {
      LevelIsDepth(parents, parents[id], limit - 1);
      if LevelWithin(parents, id, limit) {
        var d: nat :| FolderForest.Reaches(parents, parents[id], d) && d <= limit - 1;
        assert FolderForest.Reaches(parents, id, d + 1);
      }
      if FolderForest.ReachesWithin(parents, id, limit) {
        var d: nat :| FolderForest.Reaches(parents, id, d) && d <= limit;
        assert FolderForest.Reaches(parents, parents[id], d - 1);
      }
    }
  }

  /** Resolving stops at the top level or at a folder that is gone, but gives up after too many. */
  predicate Resolves(parents: FolderForest.Folders, id: Id, steps: nat)
    decreases steps
  {
    id == "" || (steps > 0 && (id !in parents || Resolves(parents, parents[id], steps - 1)))
  }

  const Ssh := "ssh"

  /** The connections as the jump chains see them. */
  function Graph(acc: Account): JumpGraph.Rows {
    var parents := Parents(acc.folders);
    map id | id in acc.conns ::
      JumpGraph.Session(acc.conns[id].name, acc.conns[id].protocol == Ssh,
                        Resolves(parents, acc.conns[id].folder, FolderForest.MaxDepth + 1), acc.conns[id].chain)
  }

  // What a bundle holds.

  datatype Item<T> = Item(id: Id, row: T)

  datatype Payload = Payload(creds: seq<Item<Cred>>, folders: seq<ParentOrder.Folder>, conns: seq<Item<Conn>>)

  datatype Policy = Skip | Rename | Replace

  /** Identifiers for the records to be made: the k-th of each kind is for the k-th record. */
  datatype Supply = Supply(creds: seq<Id>, folders: seq<Id>, conns: seq<Id>)

  /** In what order the account lists what it has. */
  datatype Listing = Listing(creds: seq<Id>, folders: seq<Id>)

  // While importing.

  datatype State = State(acc: Account,
                         takenCreds: map<string, Id>, takenFolders: map<string, Id>, takenConns: set<string>,
                         credIds: map<Id, Id>, folderIds: map<Id, Id>, connIds: map<Id, Id>,
                         creds: nat, folders: nat, conns: nat, skipped: nat)

  datatype Outcome = Done(state: State) | Failed(state: State)

  /** Names in use, ignoring case; of two alike the later one listed counts. */
  function Taken(names: map<Id, string>, listing: seq<Id>): map<string, Id> {
    if listing == [] then map[]
    else
      var n := |listing| - 1;
      var before := Taken(names, listing[..n]);
      if listing[n] in names then before[Lower(names[listing[n]]) := listing[n]] else before
  }

  function CredNames(acc: Account): map<Id, string> { map id | id in acc.creds :: acc.creds[id].name }

  function FolderNames(acc: Account): map<Id, string> { map id | id in acc.folders :: acc.folders[id].name }

  /** What a connection is known by: its folder, and its name ignoring case. */
  function Slot(folder: Id, name: string): string { folder + "/" + Lower(name) }

  function TakenSlots(acc: Account): set<string> {
    set id | id in acc.conns :: Slot(acc.conns[id].folder, acc.conns[id].name)
  }

  function Begin(acc: Account, listing: Listing): State {
    State(acc, Taken(CredNames(acc), listing.creds), Taken(FolderNames(acc), listing.folders), TakenSlots(acc),
          map[], map[], map[], 0, 0, 0, 0)
  }

  function Numbered(name: string, i: nat): string { name + " (" + Decimal(i) + ")" }

  /** uniqueName, from the `i`-th candidate on. */
  function UniqueFrom(base: string, prefix: string, taken: set<string>, i: nat): string
    decreases 1000 - i
  {
    if i >= 1000 then base + " (imported)"
    else if prefix + Lower(Numbered(base, i)) !in taken then Numbered(base, i)
    else UniqueFrom(base, prefix, taken, i + 1)
  }

  function UniqueName(base: string, prefix: string, taken: set<string>): string { UniqueFrom(base, prefix, taken, 2) }

  method FindUniqueName(base: string, prefix: string, taken: set<string>) returns (r: string)
    ensures r == UniqueName(base, prefix, taken)
  {
    for i := 2 to 1000
      invariant UniqueName(base, prefix, taken) == UniqueFrom(base, prefix, taken, i)
    {
      if prefix + Lower(Numbered(base, i)) !in taken {
        return Numbered(base, i);
      }
    }
    return base + " (imported)";
  }

  // Credentials.

  predicate KnownKind(kind: string) {
    kind == "ssh_key" || kind == "password" || kind == "passphrase" || kind == "enable_secret"
  }

  function CredStep(s: State, item: Item<Cred>, policy: Policy, mint: Id): Outcome {
    var clash := Lower(item.row.name) in s.takenCreds;
    if clash && policy != Rename then
      Done(s.(credIds := s.credIds[item.id := s.takenCreds[Lower(item.row.name)]], skipped := s.skipped + 1))
    else
      var name := if clash then UniqueName(item.row.name, "", s.takenCreds.Keys) else item.row.name;
      if Trim(name) == "" || !KnownKind(item.row.kind) then Failed(s)
      else
        var row := item.row.(name := Trim(name), username := Trim(item.row.username));
        Done(s.(acc := s.acc.(creds := s.acc.creds[mint := row]), credIds := s.credIds[item.id := mint],
                takenCreds := s.takenCreds[Lower(name) := mint], creds := s.creds + 1))
  }

  function Creds(s: State, items: seq<Item<Cred>>, policy: Policy, mint: seq<Id>): Outcome
    requires |items| <= |mint|
  {
    if items == [] then Done(s)
    else
      var n := |items| - 1;
      var before := Creds(s, items[..n], policy, mint);
      if before.Failed? then before else CredStep(before.state, items[n], policy, mint[n])
  }

  // Folders.

  function Destination(s: State, into: Id, id: Id): Id { if id in s.folderIds then s.folderIds[id] else into }

  function FolderStep(s: State, f: ParentOrder.Folder, policy: Policy, into: Id, mint: Id): Outcome {
    var clash := Lower(f.name) in s.takenFolders;
    if clash && policy != Rename then
      Done(s.(folderIds := s.folderIds[f.id := s.takenFolders[Lower(f.name)]], skipped := s.skipped + 1))
    else
      var name := if clash then UniqueName(f.name, "", s.takenFolders.Keys) else f.name;
      var parent := if f.parent != "" then Destination(s, into, f.parent) else into;
      if !f.defaults.readable || Trim(name) == ""
          || !LevelWithin(Parents(s.acc.folders), parent, FolderForest.MaxDepth - 2) then Failed(s)
      else
        Done(s.(acc := s.acc.(folders := s.acc.folders[mint := FolderRow(parent, Trim(name), f.defaults)]),
                folderIds := s.folderIds[f.id := mint], takenFolders := s.takenFolders[Lower(name) := mint],
                folders := s.folders + 1))
  }

  function Folders(s: State, fs: seq<ParentOrder.Folder>, policy: Policy, into: Id, mint: seq<Id>): Outcome
    requires |fs| <= |mint|
  {
    if fs == [] then Done(s)
    else
      var n := |fs| - 1;
      var before := Folders(s, fs[..n], policy, into, mint);
      if before.Failed? then before else FolderStep(before.state, fs[n], policy, into, mint[n])
  }

  // Connections, first without their jump chains.

  predicate KnownProtocol(p: string) { p == Ssh || p == "telnet" || p == "serial" }

  predicate AcceptedConn(acc: Account, c: Conn) {
    && Trim(c.name) != "" && KnownProtocol(c.protocol)
    && (Trim(c.hostname) == "" ==> c.protocol == "serial")
    && (c.port == 0 || 1 <= c.port <= 65535)
    && (c.folder == "" || c.folder in acc.folders) && c.settings.readable
  }

  function StoredConn(c: Conn): Conn {
    c.(name := Trim(c.name), hostname := Trim(c.hostname), username := Trim(c.username))
  }

  function ConnStep(s: State, item: Item<Conn>, policy: Policy, into: Id, mint: Id): Outcome {
    var c := item.row;
    var folder := Destination(s, into, c.folder);
    var clash := Slot(folder, c.name) in s.takenConns;
    if clash && policy != Rename then Done(s.(skipped := s.skipped + 1))
    else
      var name := if clash then UniqueName(c.name, folder + "/", s.takenConns) else c.name;
      var made := c.(folder := folder, name := name, protocol := if c.protocol == "" then Ssh
          else c.protocol, chain := [],
                     credential := if c.credential in s.credIds then s.credIds[c.credential] else "");
      if !AcceptedConn(s.acc, made) then Failed(s)
      else
        Done(s.(acc := s.acc.(conns := s.acc.conns[mint := StoredConn(made)]), connIds := s.connIds[item.id := mint],
                takenConns := s.takenConns + {Slot(folder, name)}, conns := s.conns + 1))
  }

  function Conns(s: State, items: seq<Item<Conn>>, policy: Policy, into: Id, mint: seq<Id>): Outcome
    requires |items| <= |mint|
  {
    if items == [] then Done(s)
    else
      var n := |items| - 1;
      var before := Conns(s, items[..n], policy, into, mint);
      if before.Failed? then before else ConnStep(before.state, items[n], policy, into, mint[n])
  }

  // Jump chains, once every connection has its identifier.

  /** The hops that were imported. */
  function MapChain(ids: map<Id, Id>, chain: seq<Id>): seq<Id> {
    if chain == [] then []
    else
      var n := |chain| - 1;
      if chain[n] in ids then MapChain(ids, chain[..n]) + [ids[chain[n]]] else MapChain(ids, chain[..n])
  }

  /** A refused chain is left out; only a folder that cannot be resolved stops the import. */
  function ChainStep(s: State, item: Item<Conn>): Outcome {
    if item.row.chain == [] || item.id !in s.connIds then Done(s)
    else
      var id, chain := s.connIds[item.id], MapChain(s.connIds, item.row.chain);
      if chain == [] then Done(s)
      else if id !in s.acc.conns then Failed(s)
      else
        match JumpStore.Validate(Graph(s.acc), id, chain)
        case None => Done(s.(acc := s.acc.(conns := s.acc.conns[id := s.acc.conns[id].(chain := chain)])))
        case Some(FolderTooDeep) => Failed(s)
        case Some(_) => Done(s)
  }

  function Chains(s: State, items: seq<Item<Conn>>): Outcome {
    if items == [] then Done(s)
    else
      var n := |items| - 1;
      var before := Chains(s, items[..n]);
      if before.Failed? then before else ChainStep(before.state, items[n])
  }

  // All of it.

  ghost predicate Enough(p: Payload, ordered: seq<ParentOrder.Folder>, ids: Supply) {
    |p.creds| <= |ids.creds| && |ordered| <= |ids.folders| && |p.conns| <= |ids.conns|
  }

  ghost function ImportAll(acc: Account, listing: Listing, p: Payload, ordered: seq<ParentOrder.Folder>, policy: Policy,
                           into: Id, ids: Supply): Outcome
    requires Enough(p, ordered, ids)
  {
    var a := Creds(Begin(acc, listing), p.creds, policy, ids.creds);
    if a.Failed? then a
    else
      var b := Folders(a.state, ordered, policy, into, ids.folders);
      if b.Failed? then b
      else
        var c := Conns(b.state, p.conns, policy, into, ids.conns);
        if c.Failed? then c else Chains(c.state, p.conns)
  }

  /** An order in which the folders of a bundle may be made. */
  ghost predicate Ordered(fs: seq<ParentOrder.Folder>, ordered: seq<ParentOrder.Folder>) {
    && |ordered| == |fs| && ParentOrder.ParentsFirst(fs, ordered)
    && exists from :: ParentOrder.Arranged(fs, ordered, from)
  }

  class Service {
    var acc: Account

    constructor (a: Account)
      ensures acc == a
    {
      acc := a;
    }

    method ImportCreds(s: State, items: seq<Item<Cred>>, policy: Policy, mint: seq<Id>) returns (r: Outcome)
      requires acc == s.acc && |items| <= |mint|
      modifies this
      ensures r == Creds(s, items, policy, mint) && acc == r.state.acc
    {
      hide Creds, CredStep;
      var now := s;
      CredsNone(s, policy, mint);
      assert items[..0] == [];
      for i := 0 to |items|
        invariant acc == now.acc && Creds(s, items[..i], policy, mint) == Done(now)
      {
        CredsOne(s, items, i, policy, mint);
        r := CredStep(now, items[i], policy, mint[i]);
        acc := r.state.acc;
        if r.Failed? {
          CredsStop(s, items, i + 1, policy, mint);
          return;
        }
        now := r.state;
      }
      assert items[..|items|] == items;
      r := Done(now);
    }

    method ImportFolders(s: State, fs: seq<ParentOrder.Folder>, policy: Policy, into: Id, mint: seq<Id>)
        returns (r: Outcome)
      requires acc == s.acc && |fs| <= |mint|
      modifies this
      ensures r == Folders(s, fs, policy, into, mint) && acc == r.state.acc
    {
      hide Folders, FolderStep;
      var now := s;
      FoldersNone(s, policy, into, mint);
      assert fs[..0] == [];
      for i := 0 to |fs|
        invariant acc == now.acc && Folders(s, fs[..i], policy, into, mint) == Done(now)
      {
        FoldersOne(s, fs, i, policy, into, mint);
        r := FolderStep(now, fs[i], policy, into, mint[i]);
        acc := r.state.acc;
        if r.Failed? {
          FoldersStop(s, fs, i + 1, policy, into, mint);
          return;
        }
        now := r.state;
      }
      assert fs[..|fs|] == fs;
      r := Done(now);
    }

    method ImportConns(s: State, items: seq<Item<Conn>>, policy: Policy, into: Id, mint: seq<Id>) returns (r: Outcome)
      requires acc == s.acc && |items| <= |mint|
      modifies this
      ensures r == Conns(s, items, policy, into, mint) && acc == r.state.acc
    {
      hide Conns, ConnStep;
      var now := s;
      ConnsNone(s, policy, into, mint);
      assert items[..0] == [];
      for i := 0 to |items|
        invariant acc == now.acc && Conns(s, items[..i], policy, into, mint) == Done(now)
      {
        ConnsOne(s, items, i, policy, into, mint);
        r := ConnStep(now, items[i], policy, into, mint[i]);
        acc := r.state.acc;
        if r.Failed? {
          ConnsStop(s, items, i + 1, policy, into, mint);
          return;
        }
        now := r.state;
      }
      assert items[..|items|] == items;
      r := Done(now);
    }

    method ImportChains(s: State, items: seq<Item<Conn>>) returns (r: Outcome)
      requires acc == s.acc
      modifies this
      ensures r == Chains(s, items) && acc == r.state.acc
    {
      hide Chains, ChainStep;
      var now := s;
      ChainsNone(s);
      assert items[..0] == [];
      for i := 0 to |items|
        invariant acc == now.acc && Chains(s, items[..i]) == Done(now)
      {
        ChainsOne(s, items, i);
        r := ChainStep(now, items[i]);
        acc := r.state.acc;
        if r.Failed? {
          ChainsStop(s, items, i + 1);
          return;
        }
        now := r.state;
      }
      assert items[..|items|] == items;
      r := Done(now);
    }

    /** Import. What was made before a failure stays. */
    method Import(listing: Listing, p: Payload, policy: Policy, into: Id, ids: Supply)
      returns (r: Outcome, ghost ordered: seq<ParentOrder.Folder>)
      requires ParentOrder.DistinctIds(p.folders)
      requires |p.creds| <= |ids.creds| && |p.folders| <= |ids.folders| && |p.conns| <= |ids.conns|
      modifies this
      ensures Ordered(p.folders, ordered) && r == ImportAll(old(acc), listing, p, ordered, policy, into, ids)
      ensures acc == r.state.acc
    {
      hide Creds, Folders, Conns, Chains, ParentOrder.ParentsFirst, ParentOrder.Arranged;
      var order, from := ParentOrder.InParentOrder(p.folders);
      ordered := order;
      r := ImportCreds(Begin(acc, listing), p.creds, policy, ids.creds);
      if r.Done? {
        r := ImportFolders(r.state, order, policy, into, ids.folders);
        if r.Done? {
          r := ImportConns(r.state, p.conns, policy, into, ids.conns);
          if r.Done? {
            r := ImportChains(r.state, p.conns);
          }
        }
      }
    }
  }

  // One record at a time.

  lemma CredsNone(s: State, policy: Policy, mint: seq<Id>)
    ensures Creds(s, [], policy, mint) == Done(s)
  {
  }

  lemma CredsOne(s: State, items: seq<Item<Cred>>, i: nat, policy: Policy, mint: seq<Id>)
    requires i < |items| <= |mint|
    ensures Creds(s, items[..i + 1], policy, mint) == (var before := Creds(s, items[..i], policy, mint);
      if before.Failed? then before else CredStep(before.state, items[i], policy, mint[i]))
  {
    hide CredStep;
    assert items[..i + 1][..i] == items[..i];
  }

  lemma FoldersNone(s: State, policy: Policy, into: Id, mint: seq<Id>)
    ensures Folders(s, [], policy, into, mint) == Done(s)
  {
  }

  lemma FoldersOne(s: State, fs: seq<ParentOrder.Folder>, i: nat, policy: Policy, into: Id, mint: seq<Id>)
    requires i < |fs| <= |mint|
    ensures Folders(s, fs[..i + 1], policy, into, mint) == (var before := Folders(s, fs[..i], policy, into, mint);
      if before.Failed? then before else FolderStep(before.state, fs[i], policy, into, mint[i]))
  {
    hide FolderStep;
    assert fs[..i + 1][..i] == fs[..i];
  }

  lemma ConnsNone(s: State, policy: Policy, into: Id, mint: seq<Id>)
    ensures Conns(s, [], policy, into, mint) == Done(s)
  {
  }

  lemma ConnsOne(s: State, items: seq<Item<Conn>>, i: nat, policy: Policy, into: Id, mint: seq<Id>)
    requires i < |items| <= |mint|
    ensures Conns(s, items[..i + 1], policy, into, mint) == (var before := Conns(s, items[..i], policy, into, mint);
      if before.Failed? then before else ConnStep(before.state, items[i], policy, into, mint[i]))
  {
    hide ConnStep;
    assert items[..i + 1][..i] == items[..i];
  }

  lemma ChainsNone(s: State)
    ensures Chains(s, []) == Done(s)
  {
  }

  lemma ChainsOne(s: State, items: seq<Item<Conn>>, i: nat)
    requires i < |items|
    ensures Chains(s, items[..i + 1]) == (var before := Chains(s, items[..i]);
      if before.Failed? then before else ChainStep(before.state, items[i]))
  {
    hide ChainStep;
    assert items[..i + 1][..i] == items[..i];
  }

  // A failure ends the loop it happens in.

  lemma {:induction false} CredsStop(s: State, items: seq<Item<Cred>>, i: nat, policy: Policy, mint: seq<Id>)
    requires i <= |items| <= |mint| && Creds(s, items[..i], policy, mint).Failed?
    ensures Creds(s, items, policy, mint) == Creds(s, items[..i], policy, mint)
  {
    hide CredStep;
    if i == |items| {
      assert items[..i] == items;
    } else {
      assert items[..|items| - 1][..i] == items[..i];
      CredsStop(s, items[..|items| - 1], i, policy, mint);
    }
  }

  lemma {:induction false} FoldersStop(s: State, fs: seq<ParentOrder.Folder>, i: nat, policy: Policy, into: Id,
      mint: seq<Id>)
    requires i <= |fs| <= |mint| && Folders(s, fs[..i], policy, into, mint).Failed?
    ensures Folders(s, fs, policy, into, mint) == Folders(s, fs[..i], policy, into, mint)
  {
    hide FolderStep;
    if i == |fs| {
      assert fs[..i] == fs;
    } else {
      assert fs[..|fs| - 1][..i] == fs[..i];
      FoldersStop(s, fs[..|fs| - 1], i, policy, into, mint);
    }
  }

  lemma {:induction false} ConnsStop(s: State, items: seq<Item<Conn>>, i: nat, policy: Policy, into: Id, mint: seq<Id>)
    requires i <= |items| <= |mint| && Conns(s, items[..i], policy, into, mint).Failed?
    ensures Conns(s, items, policy, into, mint) == Conns(s, items[..i], policy, into, mint)
  {
    hide ConnStep;
    if i == |items| {
      assert items[..i] == items;
    } else {
      assert items[..|items| - 1][..i] == items[..i];
      ConnsStop(s, items[..|items| - 1], i, policy, into, mint);
    }
  }

  lemma {:induction false} ChainsStop(s: State, items: seq<Item<Conn>>, i: nat)
    requires i <= |items| && Chains(s, items[..i]).Failed?
    ensures Chains(s, items) == Chains(s, items[..i])
  {
    hide ChainStep;
    if i == |items| {
      assert items[..i] == items;
    } else {
      assert items[..|items| - 1][..i] == items[..i];
      ChainsStop(s, items[..|items| - 1], i);
    }
  }
}
