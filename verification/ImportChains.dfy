/** The second pass of an import: jump chains, once every connection has its new identifier. */
module ImportChains {
  import opened JumpGraph
  import JumpStore
  import FolderForest
  import ParentOrder
  import opened Text
  import opened Import
  import opened ImportFacts

  ghost predicate OneToOne(ids: map<Id, Id>) {
    forall a, b :: a in ids && b in ids && ids[a] == ids[b] ==> a == b
  }

  ghost predicate Within(chain: seq<Id>, ids: map<Id, Id>) {
    forall i :: 0 <= i < |chain| ==> chain[i] in ids
  }

  function Renamed(ids: map<Id, Id>, chain: seq<Id>): seq<Id>
    requires Within(chain, ids)
  {
    seq(|chain|, i requires 0 <= i < |chain| => ids[chain[i]])
  }

  lemma {:induction false} MapChainAll(ids: map<Id, Id>, chain: seq<Id>)
    requires Within(chain, ids)
    ensures MapChain(ids, chain) == Renamed(ids, chain)
  {
    if chain != [] {
      var n := |chain| - 1;
      MapChainAll(ids, chain[..n]);
      assert Renamed(ids, chain) == Renamed(ids, chain[..n]) + [ids[chain[n]]];
    }
  }

  lemma RenamedParts(ids: map<Id, Id>, a: seq<Id>, h: Id, b: seq<Id>)
    requires Within(a, ids) && h in ids && Within(b, ids)
    ensures Within(a + [h] + b, ids) && Renamed(ids, a + [h] + b) == Renamed(ids, a) + [ids[h]] + Renamed(ids, b)
  {
  }

  /** `some` is the graph `all` under new identifiers, with some of the chains still missing. */
  ghost predicate PartOf(all: Rows, some: Rows, ids: map<Id, Id>) {
    forall id :: id in all ==>
      && id in ids && ids[id] in some && Within(all[id].chain, ids)
      && (some[ids[id]].chain == [] || some[ids[id]].chain == Renamed(ids, all[id].chain))
      && some[ids[id]].ssh == all[id].ssh && some[ids[id]].resolves
  }

  lemma FewerVisited(rows: Rows, r: seq<Id>, more: set<Id>, fewer: set<Id>)
    requires Usable(rows, r, more) && fewer <= more
    ensures Usable(rows, r, fewer)
  {
  }

  /** `q` is `r` with some of it left out, the rest in the same order. */
  ghost predicate IsSub(q: seq<Id>, r: seq<Id>)
    decreases |r|
  {
    q == [] || (r != [] && ((q[0] == r[0] && IsSub(q[1..], r[1..])) || IsSub(q, r[1..])))
  }

  lemma {:induction false} SubJoins(a': seq<Id>, a: seq<Id>, h: Id, b': seq<Id>, b: seq<Id>)
    requires IsSub(a', a) && IsSub(b', b)
    ensures IsSub(a' + [h] + b', a + [h] + b)
    decreases |a|
  {
    var q, r := a' + [h] + b', a + [h] + b;
    if a == [] {
      assert q[1..] == b' && r[1..] == b;
    } else {
      assert r[1..] == a[1..] + [h] + b;
      if a' != [] && a'[0] == a[0] && IsSub(a'[1..], a[1..]) {
        assert q[1..] == a'[1..] + [h] + b';
        SubJoins(a'[1..], a[1..], h, b', b);
      } else {
        SubJoins(a', a[1..], h, b', b);
      }
    }
  }

  /** Chains still missing only make the expansion shorter: what is left was in it, in the same order. */
  lemma {:induction false} PartExpands(all: Rows, some: Rows, ids: map<Id, Id>, chain: seq<Id>, n: nat,
      visited: set<Id>) returns (q: seq<Id>)
    requires PartOf(all, some, ids) && Within(chain, ids) && Expand(all, chain, n).Some?
      && Usable(all, Expand(all, chain, n).value, visited)
    ensures Within(q, ids) && Expand(some, Renamed(ids, chain), n) == Some(Renamed(ids, q))
    ensures IsSub(q, Expand(all, chain, n).value)
    ensures Usable(all, q, visited) && Elements(q) <= Elements(Expand(all, chain, n).value)
      && |q| <= |Expand(all, chain, n).value|
    decreases n, |chain|
  {
    hide Expand, Usable, Elements, PartOf, IsSub;
    if chain == [] {
      q := [];
      SubNothing(Expand(all, chain, n).value);
      ExpandNothing(all, n);
      ExpandNothing(some, n);
      assert Renamed(ids, chain) == [] && Renamed(ids, q) == [];
    } else {
      var h := chain[0];
      var a, b := ExpandParts(all, chain, n);
      PartAt(all, some, ids, h);
      UsableParts(all, a, h, b, visited);
      var a' := PartInner(all, some, ids, h, n, a, visited + {h});
      var b' := PartExpands(all, some, ids, chain[1..], n, visited + {h} + Elements(a));
      q := a' + [h] + b';
      SubJoins(a', a, h, b', b);
      FewerVisited(all, b', visited + {h} + Elements(a), visited + {h} + Elements(a'));
      UsableParts(all, a', h, b', visited);
      RenamedParts(ids, a', h, b');
      var renamed := Renamed(ids, chain);
      assert renamed[0] == ids[h] && renamed[1..] == Renamed(ids, chain[1..]);
      ExpandCons(some, renamed, n, Renamed(ids, a'), Renamed(ids, b'));
    }
  }

  lemma SubNothing(r: seq<Id>)
    ensures IsSub([], r)
  {
  }

  lemma PartAt(all: Rows, some: Rows, ids: map<Id, Id>, id: Id)
    requires PartOf(all, some, ids) && id in all
    ensures id in ids && ids[id] in some && Within(all[id].chain, ids)
    ensures some[ids[id]].chain == [] || some[ids[id]].chain == Renamed(ids, all[id].chain)
    ensures some[ids[id]].ssh == all[id].ssh && some[ids[id]].resolves
  {
  }

  lemma PartInner(all: Rows, some: Rows, ids: map<Id, Id>, h: Id, n: nat, a: seq<Id>, visited: set<Id>)
      returns (q: seq<Id>)
    requires PartOf(all, some, ids) && h in all && h in ids && n > 0 && Expand(all, all[h].chain, n - 1) == Some(a)
      && Usable(all, a, visited)
    ensures ids[h] in some && Within(q, ids) && Expand(some, some[ids[h]].chain, n - 1) == Some(Renamed(ids, q))
    ensures IsSub(q, a)
    ensures Usable(all, q, visited) && Elements(q) <= Elements(a) && |q| <= |a|
    decreases n, 0
  {
    hide Expand, Usable, PartOf;
    PartAt(all, some, ids, h);
    if some[ids[h]].chain == [] {
      q := [];
      ExpandNothing(some, n - 1);
      NothingUsable(all, visited);
      assert Renamed(ids, q) == [];
    } else {
      q := PartExpands(all, some, ids, all[h].chain, n - 1, visited);
    }
  }

  lemma UsableRenamed(all: Rows, some: Rows, ids: map<Id, Id>, q: seq<Id>, id: Id)
    requires PartOf(all, some, ids) && OneToOne(ids) && Within(q, ids) && Usable(all, q, {id}) && id in ids
    ensures Usable(some, Renamed(ids, q), {ids[id]})
  {
    var r := Renamed(ids, q);
    forall i | 0 <= i < |r| ensures r[i] !in {ids[id]} && r[i] in some && some[r[i]].ssh && some[r[i]].resolves {
      PartAt(all, some, ids, q[i]);
    }
  }

  /** A connection whose whole route is sound: its chain expands, without itself, to at most eight hops. */
  ghost predicate Routed(all: Rows, id: Id) {
    id in all && exists r :: IsExpansion(all, all[id].chain, r) && Usable(all, r, {id}) && |r| <= MaxJumpChain
  }

  /** So a chain that will be sound when all are set is accepted while others are still missing. */
  lemma PartAccepts(all: Rows, some: Rows, ids: map<Id, Id>, id: Id)
    requires PartOf(all, some, ids) && OneToOne(ids) && "" !in some && Routed(all, id)
    ensures Within(all[id].chain, ids) && id in ids
      && JumpStore.Validate(some, ids[id], Renamed(ids, all[id].chain)) == None
  {
    hide Expand, Usable, JumpStore.Validate, OneToOne;
    PartAt(all, some, ids, id);
    hide PartOf;
    var r :| IsExpansion(all, all[id].chain, r) && Usable(all, r, {id}) && |r| <= MaxJumpChain;
    var n: nat :| Expand(all, all[id].chain, n) == Some(r);
    var q := PartExpands(all, some, ids, all[id].chain, n, {id});
    UsableRenamed(all, some, ids, q, id);
    assert IsExpansion(some, Renamed(ids, all[id].chain), Renamed(ids, q));
    JumpStore.ValidateExactly(some, ids[id], Renamed(ids, all[id].chain));
  }

  // The pass itself.

  ghost predicate DistinctItems(items: seq<Item<Conn>>) {
    forall i, j :: 0 <= i < j < |items| ==> items[i].id != items[j].id
  }

  /** A blank protocol is imported as SSH. */
  predicate IsSsh(c: Conn) { c.protocol == Ssh || c.protocol == "" }

  /** The connections of a bundle as a graph of their own. */
  ghost function BundleGraph(items: seq<Item<Conn>>): Rows {
    if items == [] then map[]
    else
      var n := |items| - 1;
      BundleGraph(items[..n])[items[n].id := Session(items[n].row.name, IsSsh(items[n].row), true, items[n].row.chain)]
  }

  lemma {:induction false} BundleGraphAt(items: seq<Item<Conn>>, k: nat)
    requires DistinctItems(items) && k < |items|
    ensures items[k].id in BundleGraph(items)
    ensures BundleGraph(items)[items[k].id] == Session(items[k].row.name, IsSsh(items[k].row), true, items[k].row.chain)
  {
    var n := |items| - 1;
    if k < n { BundleGraphAt(items[..n], k); }
  }

  lemma {:induction false} BundleGraphOnly(items: seq<Item<Conn>>, id: Id) returns (k: nat)
    requires id in BundleGraph(items)
    ensures k < |items| && items[k].id == id
  {
    var n := |items| - 1;
    if items[n].id == id { k := n; } else { k := BundleGraphOnly(items[..n], id); }
  }

  /** Every connection of the bundle was imported, under an identifier of its own, so far without its chain. */
  ghost predicate Imported(c: State, items: seq<Item<Conn>>) {
    && OneToOne(c.connIds) && "" !in c.acc.conns
    && (forall k :: 0 <= k < |items| ==>
          && items[k].id in c.connIds && c.connIds[items[k].id] in c.acc.conns
          && c.acc.conns[c.connIds[items[k].id]].chain == []
          && (c.acc.conns[c.connIds[items[k].id]].protocol == Ssh <==> IsSsh(items[k].row))
          && Resolves(Parents(c.acc.folders), c.acc.conns[c.connIds[items[k].id]].folder, FolderForest.MaxDepth + 1))
  }

  /** The chain that a connection of the bundle ends up with. */
  ghost function NewChain(ids: map<Id, Id>, item: Item<Conn>): seq<Id> {
    if Within(item.row.chain, ids) then Renamed(ids, item.row.chain) else []
  }

  /** The first `n` chains are set, and nothing else differs. */
  ghost predicate ChainsSet(c: State, t: State, items: seq<Item<Conn>>, n: nat) {
    && t == c.(acc := c.acc.(conns := t.acc.conns)) && t.acc.conns.Keys == c.acc.conns.Keys
    && (forall k :: 0 <= k < |items| && items[k].id in c.connIds && c.connIds[items[k].id] in c.acc.conns ==>
          t.acc.conns[c.connIds[items[k].id]]
          == if k < n then c.acc.conns[c.connIds[items[k].id]].(chain := NewChain(c.connIds, items[k]))
              else c.acc.conns[c.connIds[items[k].id]])
    && (forall id :: id in c.acc.conns && id !in c.connIds.Values ==> t.acc.conns[id] == c.acc.conns[id])
  }

  ghost predicate AllRouted(items: seq<Item<Conn>>) {
    forall k :: 0 <= k < |items| ==> Routed(BundleGraph(items), items[k].id)
  }

  lemma ChainsWithin(c: State, items: seq<Item<Conn>>, k: nat)
    requires Imported(c, items) && DistinctItems(items) && AllRouted(items) && k < |items|
    ensures Within(items[k].row.chain, c.connIds)
  {
    hide Expand, Usable, BundleGraph, Imported;
    var all := BundleGraph(items);
    BundleGraphAt(items, k);
    assert Routed(all, items[k].id);
    var r :| IsExpansion(all, all[items[k].id].chain, r) && Usable(all, r, {items[k].id}) && |r| <= MaxJumpChain;
    var n: nat :| Expand(all, all[items[k].id].chain, n) == Some(r);
    ChainExpanded(all, all[items[k].id].chain, n);
    forall i | 0 <= i < |items[k].row.chain| ensures items[k].row.chain[i] in c.connIds {
      var j := BundleGraphOnly(items, items[k].row.chain[i]);
      ImportedAt(c, items, j);
    }
  }

  lemma ImportedAt(c: State, items: seq<Item<Conn>>, k: nat)
    requires Imported(c, items) && k < |items|
    ensures items[k].id in c.connIds && c.connIds[items[k].id] in c.acc.conns
    ensures c.acc.conns[c.connIds[items[k].id]].chain == []
    ensures c.acc.conns[c.connIds[items[k].id]].protocol == Ssh <==> IsSsh(items[k].row)
    ensures Resolves(Parents(c.acc.folders), c.acc.conns[c.connIds[items[k].id]].folder, FolderForest.MaxDepth + 1)
  {
  }

  lemma SetAt(c: State, t: State, items: seq<Item<Conn>>, n: nat, k: nat)
    requires Imported(c, items) && ChainsSet(c, t, items, n) && k < |items|
    ensures items[k].id in c.connIds && c.connIds[items[k].id] in c.acc.conns && c.connIds[items[k].id] in t.acc.conns
    ensures t.acc.conns[c.connIds[items[k].id]]
            == if k < n then c.acc.conns[c.connIds[items[k].id]].(chain := NewChain(c.connIds, items[k]))
                else c.acc.conns[c.connIds[items[k].id]]
  {
  }

  /** Part-way through the pass the stored graph is part of the bundle's. */
  lemma StoredIsPart(c: State, t: State, items: seq<Item<Conn>>, n: nat)
    requires Imported(c, items) && DistinctItems(items) && AllRouted(items) && ChainsSet(c, t, items, n)
    ensures PartOf(BundleGraph(items), Graph(t.acc), c.connIds)
  {
    hide Imported, AllRouted, ChainsSet, BundleGraph, Resolves;
    var all, some := BundleGraph(items), Graph(t.acc);
    forall id | id in all ensures
      && id in c.connIds && c.connIds[id] in some && Within(all[id].chain, c.connIds)
      && (some[c.connIds[id]].chain == [] || some[c.connIds[id]].chain == Renamed(c.connIds, all[id].chain))
      && some[c.connIds[id]].ssh == all[id].ssh && some[c.connIds[id]].resolves
    {
      var k := BundleGraphOnly(items, id);
      BundleGraphAt(items, k);
      ImportedAt(c, items, k);
      SetAt(c, t, items, n, k);
      ChainsWithin(c, items, k);
      FoldersAlone(c, t, items, n);
    }
  }

  lemma FoldersAlone(c: State, t: State, items: seq<Item<Conn>>, n: nat)
    requires ChainsSet(c, t, items, n)
    ensures t.acc.folders == c.acc.folders && t.connIds == c.connIds
  {
  }

  lemma OneChain(c: State, t: State, items: seq<Item<Conn>>, n: nat)
    requires Imported(c, items) && DistinctItems(items) && AllRouted(items) && ChainsSet(c, t, items, n) && n < |items|
    ensures ChainStep(t, items[n]).Done? && ChainsSet(c, ChainStep(t, items[n]).state, items, n + 1)
  {
    hide Imported, AllRouted, ChainsSet, BundleGraph, Graph, JumpStore.Validate, MapChain, PartOf, Resolves,
        DistinctItems;
    ImportedAt(c, items, n);
    FoldersAlone(c, t, items, n);
    SetAt(c, t, items, n, n);
    ChainsWithin(c, items, n);
    MapChainAll(c.connIds, items[n].row.chain);
    var id := c.connIds[items[n].id];
    if items[n].row.chain != [] {
      StoredIsPart(c, t, items, n);
      BundleGraphAt(items, n);
      NoBlank(c, t, items, n);
      RoutedAt(items, n);
      PartAccepts(BundleGraph(items), Graph(t.acc), c.connIds, items[n].id);
      assert ChainStep(t, items[n]).state
          == t.(acc :=
          t.acc.(conns := t.acc.conns[id := t.acc.conns[id].(chain := Renamed(c.connIds, items[n].row.chain))]));
    } else {
      assert Renamed(c.connIds, items[n].row.chain) == [];
      assert t.acc.conns[id := t.acc.conns[id].(chain := [])] == t.acc.conns;
      assert t.(acc := t.acc.(conns := t.acc.conns[id := t.acc.conns[id].(chain := [])])) == t;
    }
    SetOneMore(c, t, items, n);
  }

  lemma RoutedAt(items: seq<Item<Conn>>, n: nat)
    requires AllRouted(items) && n < |items|
    ensures Routed(BundleGraph(items), items[n].id)
  {
    hide Routed, BundleGraph;
  }

  lemma NoBlank(c: State, t: State, items: seq<Item<Conn>>, n: nat)
    requires Imported(c, items) && ChainsSet(c, t, items, n)
    ensures "" !in Graph(t.acc) && OneToOne(c.connIds)
  {
  }

  lemma SetOneMore(c: State, t: State, items: seq<Item<Conn>>, n: nat)
    requires Imported(c, items) && DistinctItems(items) && ChainsSet(c, t, items, n) && n < |items|
      && Within(items[n].row.chain, c.connIds)
    ensures items[n].id in c.connIds && c.connIds[items[n].id] in t.acc.conns
    ensures var id := c.connIds[items[n].id];
            ChainsSet(c,
                t.(acc := t.acc.(conns :=
                t.acc.conns[id := t.acc.conns[id].(chain := Renamed(c.connIds, items[n].row.chain))])), items, n + 1)
  {
    hide Renamed, Resolves;
    SetAt(c, t, items, n, n);
    var id := c.connIds[items[n].id];
    var u := t.(acc :=
        t.acc.(conns := t.acc.conns[id := t.acc.conns[id].(chain := Renamed(c.connIds, items[n].row.chain))]));
    forall k | 0 <= k < |items| && items[k].id in c.connIds && c.connIds[items[k].id] in c.acc.conns
      ensures u.acc.conns[c.connIds[items[k].id]]
              == if k < n + 1 then c.acc.conns[c.connIds[items[k].id]].(chain := NewChain(c.connIds, items[k]))
                  else c.acc.conns[c.connIds[items[k].id]]
    {
      SetAt(c, t, items, n, k);
      if k != n { assert items[k].id != items[n].id; }
    }
  }

  /**
   When every connection of the bundle has a sound route, the pass sets every chain, whatever the
   order of the bundle: each one is accepted although others are still to come.
   */
  lemma {:induction false} PassKeepsAll(c: State, items: seq<Item<Conn>>, n: nat)
    requires Imported(c, items) && DistinctItems(items) && AllRouted(items) && n <= |items|
    ensures Chains(c, items[..n]).Done? && ChainsSet(c, Chains(c, items[..n]).state, items, n)
  {
    hide Imported, AllRouted, ChainStep, DistinctItems;
    if n > 0 {
      PassKeepsAll(c, items, n - 1);
      hide ChainsSet;
      assert items[..n][..n - 1] == items[..n - 1];
      OneChain(c, Chains(c, items[..n - 1]).state, items, n - 1);
    }
  }

  // Whatever the bundle says, no loop gets in.

  ghost predicate Sound(acc: Account) { "" !in acc.conns && JumpStore.Acyclic(Graph(acc)) }

  lemma SameChains(a: Account, b: Account)
    requires Sound(a) && b.conns == a.conns
    ensures Sound(b)
  {
    JumpStore.AcyclicFewer(Graph(a), Graph(b));
  }

  lemma ConnSound(b: State, item: Item<Conn>, policy: Policy, into: Id, mint: Id)
    requires Sound(b.acc) && mint != ""
    ensures Sound(ConnStep(b, item, policy, into, mint).state.acc)
  {
    hide JumpStore.Acyclic, Slot, AcceptedConn, StoredConn, UniqueName, Resolves;
    var t := ConnStep(b, item, policy, into, mint).state;
    if t.conns != b.conns {
      NewRowBare(b, item, policy, into, mint);
      var rows, rows' := Graph(b.acc), Graph(t.acc);
      assert JumpStore.Finite(rows', rows'[mint].chain, 0);
      JumpStore.AcyclicAfter(rows, rows', mint, 0);
    } else {
      SameChains(b.acc, t.acc);
    }
  }

  lemma NewRowBare(b: State, item: Item<Conn>, policy: Policy, into: Id, mint: Id)
    requires ConnStep(b, item, policy, into, mint).state.conns != b.conns
    ensures var t := ConnStep(b, item, policy, into, mint).state;
            && t.acc.folders == b.acc.folders && mint in t.acc.conns && t.acc.conns[mint].chain == []
            && t.acc.conns == b.acc.conns[mint := t.acc.conns[mint]]
  {
    hide Slot, AcceptedConn, UniqueName, Trim;
  }

  lemma ChainSound(b: State, item: Item<Conn>)
    requires Sound(b.acc)
    ensures Sound(ChainStep(b, item).state.acc)
  {
    hide JumpStore.Acyclic, JumpStore.Validate, Resolves, MapChain;
    var t := ChainStep(b, item).state;
    if t.acc != b.acc {
      var id, chain := b.connIds[item.id], MapChain(b.connIds, item.row.chain);
      var rows, rows' := Graph(b.acc), Graph(t.acc);
      var n := JumpStore.Accepted(rows, rows', id, chain, id);
      JumpStore.AcyclicAfter(rows, rows', id, n);
    }
  }

  lemma {:induction false} ConnsSound(s: State, items: seq<Item<Conn>>, policy: Policy, into: Id, mint: seq<Id>)
    requires Sound(s.acc) && |items| <= |mint| && (forall k :: 0 <= k < |mint| ==> mint[k] != "")
    ensures Sound(Conns(s, items, policy, into, mint).state.acc)
  {
    hide Sound, ConnStep;
    if items != [] {
      var n := |items| - 1;
      ConnsSound(s, items[..n], policy, into, mint);
      ConnSound(Conns(s, items[..n], policy, into, mint).state, items[n], policy, into, mint[n]);
    }
  }

  lemma {:induction false} ChainsSound(s: State, items: seq<Item<Conn>>)
    requires Sound(s.acc)
    ensures Sound(Chains(s, items).state.acc)
  {
    hide Sound, ChainStep;
    if items != [] {
      var n := |items| - 1;
      ChainsSound(s, items[..n]);
      ChainSound(Chains(s, items[..n]).state, items[n]);
    }
  }

  /** An import that succeeds, fails half-way or drops chains leaves a graph without loops as it was: without loops. */
  lemma ImportKeepsAcyclic(acc: Account, listing: Listing, p: Payload, ordered: seq<ParentOrder.Folder>,
      policy: Policy, into: Id, ids: Supply)
    requires Enough(p, ordered, ids) && AllMinted(acc, ids) && Sound(acc)
    ensures Sound(ImportAll(acc, listing, p, ordered, policy, into, ids).state.acc)
  {
    hide Creds, Folders, Conns, Chains, Sound, Grew, Begin;
    var s := Begin(acc, listing);
    BeginsWith(acc, listing);
    CredsCounted(s, p.creds, policy, ids.creds);
    var a := Creds(s, p.creds, policy, ids.creds);
    SameChains(acc, a.state.acc);
    if a.Done? {
      FoldersCounted(a.state, ordered, policy, into, ids.folders);
      var b := Folders(a.state, ordered, policy, into, ids.folders);
      SameChains(a.state.acc, b.state.acc);
      if b.Done? {
        ConnsSound(b.state, p.conns, policy, into, ids.conns);
        var c := Conns(b.state, p.conns, policy, into, ids.conns);
        if c.Done? { ChainsSound(c.state, p.conns); }
      }
    }
  }

  lemma BeginsWith(acc: Account, listing: Listing)
    ensures Begin(acc, listing).acc == acc
  {
  }
}
