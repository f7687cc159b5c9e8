/**
 Jump chains: every saved connection names the hosts to reach it through, and each of those
 has a chain of its own. Walking the chains is what validates an edit and what builds a route.
 */
module JumpGraph {

  type Id = string

  /**
   A saved connection. `resolves` is false when the walk up its folders meets the nesting
   limit, which makes resolving it an error.
   */
  datatype Session = Session(name: string, ssh: bool, resolves: bool, chain: seq<Id>)

  type Rows = map<Id, Session>

  datatype JumpError = NotFound | Itself | Cycle | TooLong | WrongProtocol | FolderTooDeep

  datatype Walk = Ok(route: seq<Id>) | Err(error: JumpError)

  datatype Option<T> = None | Some(value: T)

  const MaxJumpChain := 8

  // The walk.

  function Left(rows: Rows, visited: set<Id>): nat {
    |rows.Keys - visited|
  }

  lemma LeftShrinks(rows: Rows, visited: set<Id>, hop: Id, visited': set<Id>)
    requires hop in rows && hop !in visited && visited + {hop} <= visited'
    ensures Left(rows, visited') < Left(rows, visited)
  {
    Smaller(rows.Keys - visited', rows.Keys - visited - {hop});
  }

  lemma {:induction false} Smaller<T>(a: set<T>, b: set<T>)
    requires a <= b
    ensures |a| <= |b|
  {
    if a != {} {
      var x :| x in a;
      Smaller(a - {x}, b - {x});
    }
  }

  /**
   The loop of walkChain from some point on: `route` is what it has collected, `visited` the
   set it shares with every level. `guard` says whether the check on the nesting depth is there.
   */
  function WalkFrom(rows: Rows, chain: seq<Id>, route: seq<Id>, visited: set<Id>, depth: nat,
      guard: bool): (r: (Walk, set<Id>))
    ensures visited <= r.1
    decreases Left(rows, visited), |chain|
  {
    if chain == [] then (Ok(route), visited)
    else
      var hop := chain[0];
      if hop in visited then (Err(Cycle), visited)
      else if hop !in rows then (Err(NotFound), visited + {hop})
      else if !rows[hop].resolves then (Err(FolderTooDeep), visited + {hop})
      else if !rows[hop].ssh then (Err(WrongProtocol), visited + {hop})
      else
        LeftShrinks(rows, visited, hop, visited + {hop});
        var (inner, seen) :=
          if rows[hop].chain == [] then (Ok([]), visited + {hop})
          else if guard && depth + 1 > MaxJumpChain then (Err(TooLong), visited + {hop})
          else WalkFrom(rows, rows[hop].chain, [], visited + {hop}, depth + 1, guard);
        if inner.Err? then (inner, seen)
        else
          var route' := route + inner.route + [hop];
          if |route'| > MaxJumpChain then (Err(TooLong), seen)
          else
            LeftShrinks(rows, visited, hop, seen);
            WalkFrom(rows, chain[1..], route', seen, depth, guard)
  }

  /** walkChain. */
  method WalkChain(rows: Rows, chain: seq<Id>, visited: set<Id>, depth: nat) returns (r: Walk, seen: set<Id>)
    ensures (r, seen) == if depth > MaxJumpChain then (Err(TooLong), visited)
      else WalkFrom(rows, chain, [], visited, depth, true)
    decreases if depth > MaxJumpChain then 0 else MaxJumpChain + 1 - depth
  {
    seen := visited;
    if depth > MaxJumpChain {
      return Err(TooLong), seen;
    }
    var route := [];
    for i := 0 to |chain|
      invariant WalkFrom(rows, chain, [], visited, depth, true) == WalkFrom(rows, chain[i..], route, seen, depth, true)
    {
      var hop := chain[i];
      assert chain[i..][0] == hop && chain[i..][1..] == chain[i + 1..];
      if hop in seen {
        return Err(Cycle), seen;
      }
      seen := seen + {hop};
      if hop !in rows {
        return Err(NotFound), seen;
      }
      if !rows[hop].resolves {
        return Err(FolderTooDeep), seen;
      }
      if !rows[hop].ssh {
        return Err(WrongProtocol), seen;
      }
      var inner := Ok([]);
      if rows[hop].chain != [] {
        inner, seen := WalkChain(rows, rows[hop].chain, seen, depth + 1);
        if inner.Err? {
          return inner, seen;
        }
      }
      route := route + inner.route + [hop];
      if |route| > MaxJumpChain {
        return Err(TooLong), seen;
      }
    }
    r := Ok(route);
  }

  // What a chain means: every hop, each after the hops of its own chain.

  /** The full post-order expansion, following chains at most `n` levels down. */
  function Expand(rows: Rows, chain: seq<Id>, n: nat): Option<seq<Id>>
    decreases n, |chain|
  {
    if chain == [] then Some([])
    else if n == 0 || chain[0] !in rows then None
    else
      match (Expand(rows, rows[chain[0]].chain, n - 1), Expand(rows, chain[1..], n))
      case (Some(a), Some(b)) => Some(a + [chain[0]] + b)
      case _ => None
  }

  ghost predicate IsExpansion(rows: Rows, chain: seq<Id>, r: seq<Id>) {
    exists n: nat :: Expand(rows, chain, n) == Some(r)
  }

  ghost predicate NoRepeats(r: seq<Id>) {
    forall i, j :: 0 <= i < j < |r| ==> r[i] != r[j]
  }

  /** A route that can be dialled: each hop once, none already on the way, each an SSH connection. */
  ghost predicate Usable(rows: Rows, r: seq<Id>, visited: set<Id>) {
    && NoRepeats(r)
    && (forall i :: 0 <= i < |r| ==> r[i] !in visited && r[i] in rows && rows[r[i]].ssh && rows[r[i]].resolves)
  }

  ghost function Elements(r: seq<Id>): set<Id> { set i | 0 <= i < |r| :: r[i] }

  lemma {:induction false} ExpandMore(rows: Rows, chain: seq<Id>, n: nat, m: nat)
    requires Expand(rows, chain, n).Some? && n <= m
    ensures Expand(rows, chain, m) == Expand(rows, chain, n)
    decreases n, |chain|
  {
    if chain != [] {
      ExpandMore(rows, rows[chain[0]].chain, n - 1, m - 1);
      ExpandMore(rows, chain[1..], n, m);
    }
  }

  lemma ExpansionUnique(rows: Rows, chain: seq<Id>, a: seq<Id>, b: seq<Id>)
    requires IsExpansion(rows, chain, a) && IsExpansion(rows, chain, b)
    ensures a == b
  {
    var n: nat :| Expand(rows, chain, n) == Some(a);
    var m: nat :| Expand(rows, chain, m) == Some(b);
    ExpandMore(rows, chain, n, n + m);
    ExpandMore(rows, chain, m, n + m);
  }

  lemma Around(a: seq<Id>, h: Id, b: seq<Id>)
    ensures var r := a + [h] + b;
            && |r| == |a| + 1 + |b| && r[|a|] == h
            && (forall i :: 0 <= i < |a| ==> r[i] == a[i])
            && (forall i :: 0 <= i < |r| && i != |a| ==> r[i] == if i < |a| then a[i] else b[i - |a| - 1])
    ensures Elements(a + [h] + b) == {h} + Elements(a) + Elements(b)
    ensures forall i :: 0 <= i < |a| ==> a[i] in Elements(a)
  {
    var r := a + [h] + b;
    assert forall i :: 0 <= i < |b| ==> r[|a| + 1 + i] == b[i];
    assert r[|a|] == h;
    assert forall i :: 0 <= i < |a| ==> r[i] == a[i];
  }

  lemma UsableSplit(rows: Rows, a: seq<Id>, h: Id, b: seq<Id>, visited: set<Id>)
    requires Usable(rows, a + [h] + b, visited)
    ensures h !in visited && h in rows && rows[h].ssh && rows[h].resolves
    ensures Usable(rows, a, visited + {h})
    ensures Usable(rows, b, visited + {h} + Elements(a))
  {
    Around(a, h, b);
    var r := a + [h] + b;
    var m := |a| + 1;
    forall i | 0 <= i < |a| ensures a[i] !in visited + {h} {
      assert r[i] == a[i] && r[i] != r[|a|];
    }
    forall i | 0 <= i < |b| ensures b[i] !in visited + {h} + Elements(a) && b[i] in rows && rows[b[i]].ssh
        && rows[b[i]].resolves {
      assert r[m + i] == b[i] && r[|a|] != r[m + i];
      forall k | 0 <= k < |a| ensures a[k] != b[i] { assert r[k] != r[m + i]; }
    }
    forall i, j | 0 <= i < j < |b| ensures b[i] != b[j] {
      assert r[m + i] != r[m + j];
    }
  }

  lemma UsableJoin(rows: Rows, a: seq<Id>, h: Id, b: seq<Id>, visited: set<Id>)
    requires h !in visited && h in rows && rows[h].ssh && rows[h].resolves
    requires Usable(rows, a, visited + {h})
    requires Usable(rows, b, visited + {h} + Elements(a))
    ensures Usable(rows, a + [h] + b, visited)
  {
    Around(a, h, b);
    hide Elements;
  }

  /** Appending routes that share nothing. */
  lemma UsableParts(rows: Rows, a: seq<Id>, h: Id, b: seq<Id>, visited: set<Id>)
    ensures Usable(rows, a + [h] + b, visited) <==>
              && h !in visited && h in rows && rows[h].ssh && rows[h].resolves
              && Usable(rows, a, visited + {h})
              && Usable(rows, b, visited + {h} + Elements(a))
    ensures Elements(a + [h] + b) == {h} + Elements(a) + Elements(b)
  {
    Around(a, h, b);
    hide Usable, Elements;
    if Usable(rows, a + [h] + b, visited) {
      UsableSplit(rows, a, h, b, visited);
    } else if h !in visited && h in rows && rows[h].ssh && rows[h].resolves
              && Usable(rows, a, visited + {h}) && Usable(rows, b, visited + {h} + Elements(a)) {
      UsableJoin(rows, a, h, b, visited);
    }
  }

  lemma NothingUsable(rows: Rows, visited: set<Id>)
    ensures Usable(rows, [], visited) && Elements([]) == {}
  {
  }

  lemma ExpandCons(rows: Rows, chain: seq<Id>, n: nat, a: seq<Id>, b: seq<Id>)
    requires chain != [] && n > 0 && chain[0] in rows
    requires Expand(rows, rows[chain[0]].chain, n - 1) == Some(a) && Expand(rows, chain[1..], n) == Some(b)
    ensures Expand(rows, chain, n) == Some(a + [chain[0]] + b)
  {
  }

  lemma ExpandParts(rows: Rows, chain: seq<Id>, n: nat) returns (a: seq<Id>, b: seq<Id>)
    requires chain != [] && Expand(rows, chain, n).Some?
    ensures n > 0 && chain[0] in rows
    ensures Expand(rows, rows[chain[0]].chain, n - 1) == Some(a) && Expand(rows, chain[1..], n) == Some(b)
    ensures Expand(rows, chain, n) == Some(a + [chain[0]] + b)
    ensures rows[chain[0]].chain == [] ==> a == []
  {
    a, b := Expand(rows, rows[chain[0]].chain, n - 1).value, Expand(rows, chain[1..], n).value;
  }

  lemma ExpandNothing(rows: Rows, n: nat)
    ensures Expand(rows, [], n) == Some([])
  {
  }

  /** What the walk finds of one hop: the hops of its own chain, and what is visited by then. */
  ghost predicate HopWalk(rows: Rows, hop: Id, visited: set<Id>, depth: nat, guard: bool, a: seq<Id>, seen: set<Id>) {
    && hop !in visited && hop in rows && rows[hop].ssh && rows[hop].resolves
    && if rows[hop].chain == [] then a == [] && seen == visited + {hop}
       else !(guard && depth + 1 > MaxJumpChain)
            && WalkFrom(rows, rows[hop].chain, [], visited + {hop}, depth + 1, guard) == (Ok(a), seen)
  }

  lemma WalkOneHop(rows: Rows, chain: seq<Id>, route: seq<Id>, visited: set<Id>, depth: nat, guard: bool)
      returns (a: seq<Id>, seen: set<Id>)
    requires chain != [] && WalkFrom(rows, chain, route, visited, depth, guard).0.Ok?
    ensures HopWalk(rows, chain[0], visited, depth, guard, a, seen)
    ensures |route + a + [chain[0]]| <= MaxJumpChain && visited + {chain[0]} <= seen
    ensures WalkFrom(rows, chain, route, visited, depth, guard)
      == WalkFrom(rows, chain[1..], route + a + [chain[0]], seen, depth, guard)
  {
    var hop := chain[0];
    if rows[hop].chain == [] {
      a, seen := [], visited + {hop};
    } else {
      var w := WalkFrom(rows, rows[hop].chain, [], visited + {hop}, depth + 1, guard);
      a, seen := w.0.route, w.1;
    }
    assert route + a == route + a + [];
  }

  lemma WalkHopOk(rows: Rows, chain: seq<Id>, route: seq<Id>, visited: set<Id>, depth: nat, guard: bool, a: seq<Id>,
      seen: set<Id>)
    requires chain != [] && HopWalk(rows, chain[0], visited, depth, guard, a, seen)
      && |route + a + [chain[0]]| <= MaxJumpChain
    ensures WalkFrom(rows, chain, route, visited, depth, guard)
      == WalkFrom(rows, chain[1..], route + a + [chain[0]], seen, depth, guard)
  {
    assert route + a == route + a + [];
  }

  /** What a successful walk returns is the full expansion, and it can be dialled. */
  lemma {:induction false} WalkSound(rows: Rows, chain: seq<Id>, route: seq<Id>, visited: set<Id>, depth: nat,
      guard: bool) returns (r: seq<Id>)
    requires WalkFrom(rows, chain, route, visited, depth, guard).0.Ok?
    ensures WalkFrom(rows, chain, route, visited, depth, guard) == (Ok(route + r), visited + Elements(r))
    ensures Expand(rows, chain, Left(rows, visited) + 1) == Some(r)
    ensures Usable(rows, r, visited) && (chain != [] ==> |route + r| <= MaxJumpChain)
    decreases Left(rows, visited), |chain|
  {
    hide Usable, Elements, Left, Expand;
    if chain == [] {
      r := [];
      NothingUsable(rows, visited);
      ExpandNothing(rows, Left(rows, visited) + 1);
      assert route + [] == route && visited + {} == visited;
    } else {
      var hop := chain[0];
      var a, seen := WalkOneHop(rows, chain, route, visited, depth, guard);
      hide WalkFrom;
      LeftShrinks(rows, visited, hop, visited + {hop});
      LeftShrinks(rows, visited, hop, seen);
      if rows[hop].chain == [] {
        NothingUsable(rows, visited + {hop});
        ExpandNothing(rows, Left(rows, visited));
      } else {
        var q := WalkSound(rows, rows[hop].chain, [], visited + {hop}, depth + 1, guard);
        assert [] + q == q;
        ExpandMore(rows, rows[hop].chain, Left(rows, visited + {hop}) + 1, Left(rows, visited));
      }
      var b := WalkSound(rows, chain[1..], route + a + [hop], seen, depth, guard);
      ExpandMore(rows, chain[1..], Left(rows, seen) + 1, Left(rows, visited) + 1);
      r := WalkJoins(rows, chain, route, visited, depth, guard, a, seen, b);
    }
  }

  /** Puts what was found of the first hop and of the rest together. */
  lemma WalkJoins(rows: Rows, chain: seq<Id>, route: seq<Id>, visited: set<Id>, depth: nat, guard: bool,
                  a: seq<Id>, seen: set<Id>, b: seq<Id>) returns (r: seq<Id>)
    requires chain != [] && HopWalk(rows, chain[0], visited, depth, guard, a, seen)
      && seen == visited + {chain[0]} + Elements(a)
    requires Usable(rows, a, visited + {chain[0]}) && Usable(rows, b, seen)
    requires Expand(rows, rows[chain[0]].chain, Left(rows, visited)) == Some(a)
    requires Expand(rows, chain[1..], Left(rows, visited) + 1) == Some(b)
    requires |route + a + [chain[0]]| <= MaxJumpChain
      && (chain[1..] != [] ==> |route + a + [chain[0]] + b| <= MaxJumpChain)
    requires WalkFrom(rows, chain, route, visited, depth, guard) == (Ok(route + a + [chain[0]] + b), seen + Elements(b))
    ensures WalkFrom(rows, chain, route, visited, depth, guard) == (Ok(route + r), visited + Elements(r))
    ensures Expand(rows, chain, Left(rows, visited) + 1) == Some(r)
    ensures Usable(rows, r, visited) && |route + r| <= MaxJumpChain
  {
    hide Usable, Elements, Left, WalkFrom;
    var hop := chain[0];
    r := a + [hop] + b;
    assert chain[1..] == [] ==> b == [];
    hide Expand;
    ExpandCons(rows, chain, Left(rows, visited) + 1, a, b);
    UsableParts(rows, a, hop, b, visited);
    assert route + a + [hop] + b == route + r;
    assert seen + Elements(b) == visited + Elements(r);
  }

  /** And a full expansion that can be dialled and is short enough is what the walk returns. */
  lemma {:induction false} WalkComplete(rows: Rows, chain: seq<Id>, n: nat, r: seq<Id>, route: seq<Id>,
      visited: set<Id>, depth: nat, guard: bool)
    requires Expand(rows, chain, n) == Some(r) && Usable(rows, r, visited)
    requires |route| + |r| <= MaxJumpChain && depth + |r| <= MaxJumpChain
    ensures WalkFrom(rows, chain, route, visited, depth, guard) == (Ok(route + r), visited + Elements(r))
    decreases n, |chain|
  {
    hide Usable, Elements, Left, Expand;
    if chain == [] {
      ExpandNothing(rows, n);
      NothingUsable(rows, visited);
      assert route + r == route && visited + {} == visited;
    } else {
      hide WalkFrom;
      var hop := chain[0];
      var a, b := ExpandParts(rows, chain, n);
      UsableParts(rows, a, hop, b, visited);
      var seen := visited + {hop} + Elements(a);
      assert HopWalk(rows, hop, visited, depth, guard, a, seen) by {
        if rows[hop].chain != [] {
          WalkComplete(rows, rows[hop].chain, n - 1, a, [], visited + {hop}, depth + 1, guard);
          assert [] + a == a;
        } else {
          NothingUsable(rows, visited);
          assert seen == visited + {hop};
        }
      }
      hide HopWalk;
      assert |r| == |a| + 1 + |b|;
      WalkComplete(rows, chain[1..], n, b, route + a + [hop], seen, depth, guard);
      CompleteJoins(rows, chain, route, visited, depth, guard, a, b);
    }
  }

  lemma CompleteJoins(rows: Rows, chain: seq<Id>, route: seq<Id>, visited: set<Id>, depth: nat, guard: bool,
      a: seq<Id>, b: seq<Id>)
    requires chain != [] && |route| + |a| < MaxJumpChain
    requires var seen := visited + {chain[0]} + Elements(a);
             && HopWalk(rows, chain[0], visited, depth, guard, a, seen)
             && WalkFrom(rows, chain[1..], route + a + [chain[0]], seen, depth, guard)
                == (Ok(route + a + [chain[0]] + b), seen + Elements(b))
    ensures var r := a + [chain[0]] + b;
            WalkFrom(rows, chain, route, visited, depth, guard) == (Ok(route + r), visited + Elements(r))
  {
    hide Usable, Elements, Left, HopWalk, WalkFrom;
    var seen := visited + {chain[0]} + Elements(a);
    WalkHopOk(rows, chain, route, visited, depth, guard, a, seen);
    UsableParts(rows, a, chain[0], b, visited);
    assert route + a + [chain[0]] + b == route + (a + [chain[0]] + b);
    assert seen + Elements(b) == visited + Elements(a + [chain[0]] + b);
  }

  /**
   The walk succeeds exactly when the full expansion exists, repeats nothing, avoids what was
   visited, is SSH throughout and has at most eight hops; and it returns that expansion.
   */
  lemma WalkExactly(rows: Rows, chain: seq<Id>, visited: set<Id>, guard: bool, r: seq<Id>)
    ensures WalkFrom(rows, chain, [], visited, 0, guard).0 == Ok(r)
            <==> IsExpansion(rows, chain, r) && Usable(rows, r, visited) && |r| <= 8
  {
    if WalkFrom(rows, chain, [], visited, 0, guard).0.Ok? {
      var q := WalkSound(rows, chain, [], visited, 0, guard);
      assert [] + q == q;
      if IsExpansion(rows, chain, r) { ExpansionUnique(rows, chain, q, r); }
    }
    if IsExpansion(rows, chain, r) && Usable(rows, r, visited) && |r| <= MaxJumpChain {
      var n: nat :| Expand(rows, chain, n) == Some(r);
      WalkComplete(rows, chain, n, r, [], visited, 0, guard);
      assert [] + r == r;
    }
  }

  /** The check on the depth never decides: the limit on the hops already does. */
  lemma DepthGuardRedundant(rows: Rows, chain: seq<Id>, visited: set<Id>, r: seq<Id>)
    ensures WalkFrom(rows, chain, [], visited, 0, true).0 == Ok(r)
      <==> WalkFrom(rows, chain, [], visited, 0, false).0 == Ok(r)
  {
    WalkExactly(rows, chain, visited, true, r);
    WalkExactly(rows, chain, visited, false, r);
  }

  lemma {:induction false} ChainExpanded(rows: Rows, chain: seq<Id>, n: nat)
    requires Expand(rows, chain, n).Some?
    ensures forall i :: 0 <= i < |chain| ==> chain[i] in Expand(rows, chain, n).value && chain[i] in rows
    decreases |chain|
  {
    if chain != [] {
      ChainExpanded(rows, chain[1..], n);
      assert forall i :: 1 <= i < |chain| ==> chain[i] == chain[1..][i - 1];
    }
  }

  /** In an expansion every hop of a hop's own chain comes before it. */
  lemma {:induction false} OwnChainFirst(rows: Rows, chain: seq<Id>, n: nat, i: nat, c: Id)
    requires Expand(rows, chain, n).Some? && i < |Expand(rows, chain, n).value|
    requires Expand(rows, chain, n).value[i] in rows && c in rows[Expand(rows, chain, n).value[i]].chain
    ensures c in Expand(rows, chain, n).value[..i]
    decreases n, |chain|
  {
    var hop := chain[0];
    var a := Expand(rows, rows[hop].chain, n - 1).value;
    var b := Expand(rows, chain[1..], n).value;
    var r := Expand(rows, chain, n).value;
    if i < |a| {
      OwnChainFirst(rows, rows[hop].chain, n - 1, i, c);
      assert r[..i] == a[..i];
    } else if i == |a| {
      ChainExpanded(rows, rows[hop].chain, n - 1);
      assert r[..i] == a;
    } else {
      OwnChainFirst(rows, chain[1..], n, i - |a| - 1, c);
      assert r[..i] == a + [hop] + b[..i - |a| - 1];
    }
  }
}
