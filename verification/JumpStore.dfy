/** The saved connections of one owner, edited by create, update and delete. */
module JumpStore {
  import opened JumpGraph

  // Validation of a proposed chain.

  function LocalCheck(rows: Rows, id: Id, chain: seq<Id>, seen: set<Id>): Option<JumpError> {
    if chain == [] then None
    else
      var hop := chain[0];
      if hop == "" then Some(NotFound)
      else if hop == id then Some(Itself)
      else if hop in seen then Some(Cycle)
      else if hop !in rows then Some(NotFound)
      else if !rows[hop].ssh then Some(WrongProtocol)
      else LocalCheck(rows, id, chain[1..], seen + {hop})
  }

  /** What is on the way already: the connection itself, once it exists. */
  function Start(id: Id): set<Id> { if id == "" then {} else {id} }

  function Validate(rows: Rows, id: Id, chain: seq<Id>): Option<JumpError> {
    if chain == [] then None
    else if |chain| > MaxJumpChain then Some(TooLong)
    else
      var local := LocalCheck(rows, id, chain, {});
      if local.Some? then local
      else
        match WalkFrom(rows, chain, [], Start(id), 0, true).0
        case Ok(_) => None
        case Err(e) => Some(e)
  }

  /** ValidateJumpChain. */
  method ValidateJumpChain(rows: Rows, id: Id, chain: seq<Id>) returns (r: Option<JumpError>)
    ensures r == Validate(rows, id, chain)
  {
    if chain == [] {
      return None;
    }
    if |chain| > MaxJumpChain {
      return Some(TooLong);
    }
    var seen: set<Id> := {};
    for i := 0 to |chain|
      invariant LocalCheck(rows, id, chain, {}) == LocalCheck(rows, id, chain[i..], seen)
    {
      var hop := chain[i];
      assert chain[i..][0] == hop && chain[i..][1..] == chain[i + 1..];
      if hop == "" {
        return Some(NotFound);
      }
      if hop == id {
        return Some(Itself);
      }
      if hop in seen {
        return Some(Cycle);
      }
      seen := seen + {hop};
      if hop !in rows {
        return Some(NotFound);
      }
      if !rows[hop].ssh {
        return Some(WrongProtocol);
      }
    }
    var visited: set<Id> := if id == "" then {} else {id};
    var walked, _ := WalkChain(rows, chain, visited, 0);
    match walked {
      case Ok(_) => r := None;
      case Err(e) => r := Some(e);
    }
  }

  /** The checks made hop by hop refuse nothing that the walk would accept. */
  lemma {:induction false} LocalPasses(rows: Rows, id: Id, chain: seq<Id>, n: nat, r: seq<Id>, visited: set<Id>,
      seen: set<Id>)
    requires Expand(rows, chain, n) == Some(r) && Usable(rows, r, visited) && "" !in rows && Start(id) <= visited
      && seen <= visited
    ensures LocalCheck(rows, id, chain, seen) == None && |chain| <= |r|
    decreases |chain|
  {
    hide Expand;
    if chain != [] {
      var a, b := ExpandParts(rows, chain, n);
      UsableParts(rows, a, chain[0], b, visited);
      LocalPasses(rows, id, chain[1..], n, b, visited + {chain[0]} + Elements(a), seen + {chain[0]});
    } else {
      ExpandNothing(rows, n);
    }
  }

  /** A chain is accepted exactly when the route it stands for exists and can be dialled. */
  lemma ValidateExactly(rows: Rows, id: Id, chain: seq<Id>)
    requires "" !in rows
    ensures Validate(rows, id, chain) == None
            <==> exists r :: IsExpansion(rows, chain, r) && Usable(rows, r, Start(id)) && |r| <= 8
  {
    if chain == [] {
      ExpandNothing(rows, 0);
      NothingUsable(rows, Start(id));
      assert IsExpansion(rows, chain, []);
    } else {
      var w := WalkFrom(rows, chain, [], Start(id), 0, true).0;
      if Validate(rows, id, chain) == None {
        WalkExactly(rows, chain, Start(id), true, w.route);
      }
      forall r | IsExpansion(rows, chain, r) && Usable(rows, r, Start(id)) && |r| <= MaxJumpChain
        ensures Validate(rows, id, chain) == None
      {
        var n: nat :| Expand(rows, chain, n) == Some(r);
        LocalPasses(rows, id, chain, n, r, Start(id), {});
        WalkExactly(rows, chain, Start(id), true, r);
      }
    }
  }

  // Edits.

  datatype Store = Store(rows: Rows, used: set<Id>)

  datatype Edit =
    | Create(id: Id, session: Session)
    | Update(id: Id, name: Option<string>, ssh: Option<bool>, chain: Option<seq<Id>>)
    | Refile(id: Id, resolves: bool)
    | Delete(id: Id)
    | DeleteMany(ids: set<Id>)

  function OrElse<T>(o: Option<T>, d: T): T { if o.Some? then o.value else d }

  /** The connections reached through `id`. */
  ghost function Dependents(rows: Rows, id: Id): set<Id> {
    set x | x in rows && x != id && id in rows[x].chain
  }

  /** Identifiers are minted: not empty, and never used before. */
  ghost predicate Possible(st: Store, e: Edit) {
    e.Create? ==> e.id != "" && e.id !in st.used
  }

  ghost function Apply(st: Store, e: Edit): Store {
    match e
    case Create(id, session) =>
      if Validate(st.rows, "", session.chain) != None then st
      else Store(st.rows[id := session], st.used + {id})
    case Update(id, name, ssh, chain) =>
      if id !in st.rows || (chain.Some? && Validate(st.rows, id, chain.value) != None) then st
      else
        var old' := st.rows[id];
        st.(rows := st.rows[id :=
            Session(OrElse(name, old'.name), OrElse(ssh, old'.ssh), old'.resolves, OrElse(chain, old'.chain))])
    case Refile(id, resolves) =>
      if id !in st.rows then st else st.(rows := st.rows[id := st.rows[id].(resolves := resolves)])
    case Delete(id) =>
      if id !in st.rows || Dependents(st.rows, id) != {} then st else st.(rows := st.rows - {id})
    case DeleteMany(ids) => st.(rows := st.rows - ids)
  }

  // No connection is ever reached through itself.

  /** Following chains from here always stops within `n` levels; a hop that is gone is a dead end. */
  ghost predicate Finite(rows: Rows, chain: seq<Id>, n: nat)
    decreases n
  {
    forall i :: 0 <= i < |chain| && chain[i] in rows ==> n > 0 && Finite(rows, rows[chain[i]].chain, n - 1)
  }

  ghost predicate Acyclic(rows: Rows) {
    forall id :: id in rows ==> exists n: nat :: Finite(rows, rows[id].chain, n)
  }

  ghost predicate Inv(st: Store) {
    && "" !in st.used && st.rows.Keys <= st.used
    && (forall id, i :: id in st.rows && 0 <= i < |st.rows[id].chain| ==> st.rows[id].chain[i] in st.used)
    && Acyclic(st.rows)
  }

  lemma {:induction false} FiniteMore(rows: Rows, chain: seq<Id>, n: nat, m: nat)
    requires Finite(rows, chain, n) && n <= m
    ensures Finite(rows, chain, m)
    decreases n
  {
    forall i | 0 <= i < |chain| && chain[i] in rows ensures m > 0 && Finite(rows, rows[chain[i]].chain, m - 1) {
      FiniteMore(rows, rows[chain[i]].chain, n - 1, m - 1);
    }
  }

  /** An expansion that avoids `id` stays finite whatever becomes of `id`'s own row. */
  lemma {:induction false} ExpansionFinite(rows: Rows, rows': Rows, id: Id, chain: seq<Id>, n: nat)
    requires Expand(rows, chain, n).Some? && id !in Expand(rows, chain, n).value
    requires forall x :: x in rows' && x != id ==> x in rows && rows'[x].chain == rows[x].chain
    ensures Finite(rows', chain, n)
    decreases n, |chain|
  {
    if chain != [] {
      var a, b := ExpandParts(rows, chain, n);
      var r := a + [chain[0]] + b;
      assert r[|a|] == chain[0];
      assert forall i :: 0 <= i < |a| ==> r[i] == a[i];
      assert forall i :: 0 <= i < |b| ==> r[|a| + 1 + i] == b[i];
      ExpansionFinite(rows, rows', id, rows[chain[0]].chain, n - 1);
      ExpansionFinite(rows, rows', id, chain[1..], n);
      assert forall i :: 1 <= i < |chain| ==> chain[i] == chain[1..][i - 1];
    }
  }

  /** Giving `id` a chain that is finite leaves everything finite. */
  lemma {:induction false} StillFinite(rows: Rows, rows': Rows, id: Id, m: nat, chain: seq<Id>, n: nat)
    requires Finite(rows, chain, n)
    requires forall x :: x in rows' && x != id ==> x in rows && rows'[x].chain == rows[x].chain
    requires id in rows' ==> Finite(rows', rows'[id].chain, m)
    ensures Finite(rows', chain, n + m + 1)
    decreases n
  {
    forall i | 0 <= i < |chain| && chain[i] in rows' ensures Finite(rows', rows'[chain[i]].chain, n + m) {
      if chain[i] == id {
        FiniteMore(rows', rows'[id].chain, m, n + m);
      } else {
        StillFinite(rows, rows', id, m, rows[chain[i]].chain, n - 1);
      }
    }
  }

  lemma AcyclicAfter(rows: Rows, rows': Rows, id: Id, m: nat)
    requires Acyclic(rows)
    requires forall x :: x in rows' && x != id ==> x in rows && rows'[x].chain == rows[x].chain
    requires id in rows' ==> Finite(rows', rows'[id].chain, m)
    ensures Acyclic(rows')
  {
    forall x | x in rows' ensures exists n: nat :: Finite(rows', rows'[x].chain, n) {
      if x != id {
        var n: nat :| Finite(rows, rows[x].chain, n);
        StillFinite(rows, rows', id, m, rows[x].chain, n);
      }
    }
  }

  lemma {:induction false} FewerRows(rows: Rows, rows': Rows, chain: seq<Id>, n: nat)
    requires Finite(rows, chain, n)
    requires forall x :: x in rows' ==> x in rows && rows'[x].chain == rows[x].chain
    ensures Finite(rows', chain, n)
    decreases n
  {
    forall i | 0 <= i < |chain| && chain[i] in rows' ensures n > 0 && Finite(rows', rows'[chain[i]].chain, n - 1) {
      FewerRows(rows, rows', rows[chain[i]].chain, n - 1);
    }
  }

  lemma AcyclicFewer(rows: Rows, rows': Rows)
    requires Acyclic(rows)
    requires forall x :: x in rows' ==> x in rows && rows'[x].chain == rows[x].chain
    ensures Acyclic(rows')
  {
    forall x | x in rows' ensures exists n: nat :: Finite(rows', rows'[x].chain, n) {
      var n: nat :| Finite(rows, rows[x].chain, n);
      FewerRows(rows, rows', rows[x].chain, n);
    }
  }

  /** What an accepted chain says: its hops exist, and it stays finite around `id`. */
  lemma Accepted(rows: Rows, rows': Rows, id: Id, chain: seq<Id>, avoid: Id) returns (n: nat)
    requires "" !in rows && Validate(rows, id, chain) == None
    requires avoid == id || avoid !in rows
    requires forall x :: x in rows' && x != avoid ==> x in rows && rows'[x].chain == rows[x].chain
    ensures Finite(rows', chain, n)
    ensures forall i :: 0 <= i < |chain| ==> chain[i] in rows
  {
    ValidateExactly(rows, id, chain);
    var r :| IsExpansion(rows, chain, r) && Usable(rows, r, Start(id)) && |r| <= MaxJumpChain;
    n :| Expand(rows, chain, n) == Some(r);
    ChainExpanded(rows, chain, n);
    ExpansionFinite(rows, rows', avoid, chain, n);
  }

  lemma EditKeeps(st: Store, e: Edit)
    requires Inv(st) && Possible(st, e)
    ensures Inv(Apply(st, e))
  {
    hide Acyclic, Validate;
    var rows, rows' := st.rows, Apply(st, e).rows;
    match e {
      case Create(id, session) =>
        if Validate(rows, "", session.chain) == None {
          var m := Accepted(rows, rows', "", session.chain, id);
          AcyclicAfter(rows, rows', id, m);
        }
      case Update(id, _, _, chain) =>
        if id in rows {
          if chain.Some? && Validate(rows, id, chain.value) == None {
            var m := Accepted(rows, rows', id, chain.value, id);
            AcyclicAfter(rows, rows', id, m);
          } else {
            AcyclicFewer(rows, rows');
          }
        }
      case _ =>
        AcyclicFewer(rows, rows');
    }
  }

  ghost predicate IsRun(run: seq<Store>, edits: seq<Edit>) {
    && |run| == |edits| + 1
    && run[0] == Store(map[], {})
    && forall i :: 0 <= i < |edits| ==> Possible(run[i], edits[i]) && run[i + 1] == Apply(run[i], edits[i])
  }

  lemma {:induction false} Always(run: seq<Store>, edits: seq<Edit>, i: nat)
    requires IsRun(run, edits) && i < |run|
    ensures Inv(run[i])
  {
    hide Apply;
    if i > 0 {
      Always(run, edits, i - 1);
      EditKeeps(run[i - 1], edits[i - 1]);
    }
  }

  /** A way through the stored chains: each step goes to a hop of the connection before. */
  ghost predicate IsPath(rows: Rows, path: seq<Id>) {
    |path| > 0 && forall i :: 0 <= i < |path| - 1 ==> path[i] in rows && path[i + 1] in rows[path[i]].chain
  }

  lemma {:induction false} PathShortens(rows: Rows, path: seq<Id>, n: nat)
    requires IsPath(rows, path) && |path| > 1 && path[|path| - 1] in rows && Finite(rows, rows[path[0]].chain, n)
    ensures n >= |path| - 1 && Finite(rows, rows[path[|path| - 1]].chain, n - (|path| - 1))
    decreases |path|
  {
    assert path[0 + 1] in rows[path[0]].chain;
    var k :| 0 <= k < |rows[path[0]].chain| && rows[path[0]].chain[k] == path[1];
    if |path| > 2 {
      assert forall i :: 0 <= i < |path| - 1 ==> path[1..][i] == path[i + 1];
      PathShortens(rows, path[1..], n - 1);
    }
  }

  lemma {:induction false} NoLoop(rows: Rows, path: seq<Id>, n: nat)
    requires IsPath(rows, path) && |path| > 1 && path[0] in rows && Finite(rows, rows[path[0]].chain, n)
    ensures path[0] != path[|path| - 1]
    decreases n
  {
    if path[0] == path[|path| - 1] {
      PathShortens(rows, path, n);
      NoLoop(rows, path, n - (|path| - 1));
    }
  }

  /** Over every run of create, update and delete, no chain of hops leads back to where it began. */
  lemma NeverCyclic(run: seq<Store>, edits: seq<Edit>, i: nat, path: seq<Id>)
    requires IsRun(run, edits) && i < |run| && IsPath(run[i].rows, path) && |path| > 1
    ensures path[0] != path[|path| - 1]
  {
    hide Apply;
    Always(run, edits, i);
    assert path[0] in run[i].rows;
    var n: nat :| Finite(run[i].rows, run[i].rows[path[0]].chain, n);
    NoLoop(run[i].rows, path, n);
  }

  // Deleting.

  /** ExpandJumpChain. */
  function RouteTo(rows: Rows, id: Id): Walk {
    if id !in rows then Err(NotFound)
    else if rows[id].chain == [] then Ok([])
    else WalkFrom(rows, rows[id].chain, [], {id}, 0, true).0
  }

  ghost predicate Mentions(chain: seq<Id>, gone: set<Id>) {
    exists i :: 0 <= i < |chain| && chain[i] in gone
  }

  /** No connection that stays names one that goes. */
  ghost predicate Unmentioned(rows: Rows, gone: set<Id>) {
    forall x :: x in rows && x !in gone ==> !Mentions(rows[x].chain, gone)
  }

  lemma {:induction false} WalkUnchanged(rows: Rows, gone: set<Id>, chain: seq<Id>, route: seq<Id>, visited: set<Id>,
      depth: nat)
    requires Unmentioned(rows, gone) && !Mentions(chain, gone)
    ensures WalkFrom(rows - gone, chain, route, visited, depth, true)
      == WalkFrom(rows, chain, route, visited, depth, true)
    decreases Left(rows, visited), |chain|
  {
    if chain != [] {
      var hop := chain[0];
      assert hop !in gone;
      assert forall i :: 0 <= i < |chain[1..]| ==> chain[1..][i] == chain[i + 1];
      if hop !in visited && hop in rows && rows[hop].resolves && rows[hop].ssh {
        LeftShrinks(rows, visited, hop, visited + {hop});
        if rows[hop].chain != [] && depth + 1 <= MaxJumpChain {
          WalkUnchanged(rows, gone, rows[hop].chain, [], visited + {hop}, depth + 1);
          var (inner, seen) := WalkFrom(rows, rows[hop].chain, [], visited + {hop}, depth + 1, true);
          if inner.Ok? {
            LeftShrinks(rows, visited, hop, seen);
            WalkUnchanged(rows, gone, chain[1..], route + inner.route + [hop], seen, depth);
          }
        } else if rows[hop].chain == [] {
          WalkUnchanged(rows, gone, chain[1..], route + [] + [hop], visited + {hop}, depth);
        }
      }
    }
  }

  /** A deletion that goes through leaves every other connection's route exactly as it was. */
  lemma DeleteKeepsRoutes(st: Store, id: Id, x: Id)
    requires x != id
    ensures RouteTo(Apply(st, Delete(id)).rows, x) == RouteTo(st.rows, x)
  {
    hide WalkFrom;
    if id in st.rows && Dependents(st.rows, id) == {} && x in st.rows {
      forall y | y in st.rows && y !in {id} ensures !Mentions(st.rows[y].chain, {id}) {
        assert y !in Dependents(st.rows, id);
      }
      WalkUnchanged(st.rows, {id}, st.rows[x].chain, [], {x}, 0);
    }
  }

  lemma GoodRouteMentionsNothingGone(rows: Rows, x: Id)
    requires RouteTo(rows, x).Ok?
    ensures x in rows && forall i :: 0 <= i < |rows[x].chain| ==> rows[x].chain[i] in rows
  {
    if rows[x].chain != [] {
      var r := WalkSound(rows, rows[x].chain, [], {x}, 0, true);
      ChainExpanded(rows, rows[x].chain, Left(rows, {x}) + 1);
    }
  }

  /**
   Deleting a folder with what is in it asks about no dependents. Where every route was good
   before, the connections that stay keep good routes exactly when none of them names one
   that went; and then no route changes at all.
   */
  lemma DeleteManyKeepsRoutesIff(rows: Rows, gone: set<Id>)
    requires forall x :: x in rows ==> RouteTo(rows, x).Ok?
    ensures (forall x :: x in rows && x !in gone ==> RouteTo(rows - gone, x).Ok?) <==> Unmentioned(rows, gone)
    ensures Unmentioned(rows, gone) ==> forall x ::
      x in rows && x !in gone ==> RouteTo(rows - gone, x) == RouteTo(rows, x)
  {
    hide WalkFrom;
    if Unmentioned(rows, gone) {
      forall x | x in rows && x !in gone ensures RouteTo(rows - gone, x) == RouteTo(rows, x) {
        WalkUnchanged(rows, gone, rows[x].chain, [], {x}, 0);
      }
    }
    if forall x :: x in rows && x !in gone ==> RouteTo(rows - gone, x).Ok? {
      forall x | x in rows && x !in gone ensures !Mentions(rows[x].chain, gone) {
        GoodRouteMentionsNothingGone(rows - gone, x);
      }
    }
  }

  // The program's methods.

  class Sessions {
    var rows: Rows
    ghost var used: set<Id>

    ghost function View(): Store
      reads this
    {
      Store(rows, used)
    }

    constructor ()
      ensures View() == Store(map[], {})
    {
      rows, used := map[], {};
    }

    method ExpandJumpChain(id: Id) returns (r: Walk)
      ensures r == RouteTo(rows, id)
    {
      if id !in rows {
        return Err(NotFound);
      }
      if rows[id].chain == [] {
        return Ok([]);
      }
      var route, _ := WalkChain(rows, rows[id].chain, {id}, 0);
      r := route;
    }

    method CreateSession(id: Id, session: Session) returns (error: Option<JumpError>)
      requires id != "" && id !in used
      modifies this
      ensures View() == Apply(old(View()), Create(id, session))
      ensures error == Validate(old(rows), "", session.chain)
      ensures rows == if error == None then old(rows)[id := session] else old(rows)
      ensures used == if error == None then old(used) + {id} else old(used)
    {
      error := ValidateJumpChain(rows, "", session.chain);
      if error == None {
        rows := rows[id := session];
        used := used + {id};
      }
    }

    method UpdateSession(id: Id, name: Option<string>, ssh: Option<bool>, chain: Option<seq<Id>>)
        returns (error: Option<JumpError>)
      modifies this
      ensures View() == Apply(old(View()), Update(id, name, ssh, chain))
      ensures id !in old(rows) ==> error == Some(NotFound)
      ensures id in old(rows) ==> error == if chain.Some? then Validate(old(rows), id, chain.value) else None
      ensures error.Some? ==> rows == old(rows)
      ensures error == None ==>
                && rows.Keys == old(rows).Keys && (forall x :: x in rows && x != id ==> rows[x] == old(rows)[x])
                && rows[id].name == (if name.Some? then name.value else old(rows)[id].name)
                && rows[id].ssh == (if ssh.Some? then ssh.value else old(rows)[id].ssh)
                && rows[id].chain == (if chain.Some? then chain.value else old(rows)[id].chain)
                && rows[id].resolves == old(rows)[id].resolves
      ensures used == old(used)
    {
      if id !in rows {
        return Some(NotFound);
      }
      var session := rows[id];
      if name.Some? {
        session := session.(name := name.value);
      }
      if ssh.Some? {
        session := session.(ssh := ssh.value);
      }
      if chain.Some? {
        error := ValidateJumpChain(rows, id, chain.value);
        if error.Some? {
          return;
        }
        session := session.(chain := chain.value);
      }
      rows := rows[id := session];
      error := None;
    }

    /** What moving a connection does to the rest: it goes where resolving it works, or does not. */
    method RefileSession(id: Id, resolves: bool) returns (found: bool)
      modifies this
      ensures View() == Apply(old(View()), Refile(id, resolves))
      ensures found <==> id in old(rows)
      ensures rows == (if found then old(rows)[id := old(rows)[id].(resolves := resolves)] else old(rows))
      ensures used == old(used)
    {
      found := id in rows;
      if found {
        rows := rows[id := rows[id].(resolves := resolves)];
      }
    }

    /** What deleting a folder does to the connections in it: they go, whoever names them. */
    method DeleteSessions(ids: set<Id>)
      modifies this
      ensures View() == Apply(old(View()), DeleteMany(ids))
      ensures rows == old(rows) - ids && used == old(used)
    {
      rows := rows - ids;
    }

    /** Refused, with the connections that hop through this one, when there are any. */
    method DeleteSession(id: Id) returns (found: bool, dependents: set<Id>)
      modifies this
      ensures View() == Apply(old(View()), Delete(id))
      ensures found <==> id in old(rows)
      ensures found ==> dependents == Dependents(old(rows), id)
      ensures forall x :: found && x in dependents <==> found && x in old(rows) && x != id && id in old(rows)[x].chain
      ensures rows == if found && dependents == {} then old(rows) - {id} else old(rows)
      ensures used == old(used)
    {
      dependents := {};
      if id !in rows {
        return false, dependents;
      }
      found := true;
      var rest := rows.Keys;
      while rest != {}
        invariant rest <= rows.Keys && rows == old(rows)
        invariant dependents == set x | x in rows && x !in rest && x != id && id in rows[x].chain
        decreases rest
      {
        var x :| x in rest;
        if x != id && id in rows[x].chain {
          dependents := dependents + {x};
        }
        rest := rest - {x};
      }
      if dependents == {} {
        rows := rows - {id};
      }
    }
  }
}
