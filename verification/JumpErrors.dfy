/** Why a chain is refused. */
module JumpErrors {
  import opened JumpGraph
  import opened JumpStore

  /** Following the chain and the chains of its hops, at most `n` levels down, leads to `x`. */
  ghost predicate Met(rows: Rows, chain: seq<Id>, x: Id, n: nat)
    decreases n
  {
    exists i :: 0 <= i < |chain|
                && (chain[i] == x || (n > 0 && chain[i] in rows && Met(rows, rows[chain[i]].chain, x, n - 1)))
  }

  ghost predicate MetSome(rows: Rows, chain: seq<Id>, x: Id) { exists n: nat :: Met(rows, chain, x, n) }

  lemma MetFirst(rows: Rows, chain: seq<Id>)
    requires chain != []
    ensures MetSome(rows, chain, chain[0])
  {
    var none: nat := 0;
    assert Met(rows, chain, chain[0], none);
  }

  lemma MetInside(rows: Rows, chain: seq<Id>, x: Id)
    requires chain != [] && chain[0] in rows && MetSome(rows, rows[chain[0]].chain, x)
    ensures MetSome(rows, chain, x)
  {
    var n: nat :| Met(rows, rows[chain[0]].chain, x, n);
    assert Met(rows, chain, x, n + 1);
  }

  lemma MetLater(rows: Rows, chain: seq<Id>, x: Id)
    requires chain != [] && MetSome(rows, chain[1..], x)
    ensures MetSome(rows, chain, x)
  {
    var n: nat :| Met(rows, chain[1..], x, n);
    var i :| 0 <= i < |chain[1..]|
             && (chain[1..][i] == x
                 || (n > 0 && chain[1..][i] in rows && Met(rows, rows[chain[1..][i]].chain, x, n - 1)));
    assert chain[i + 1] == chain[1..][i];
    assert Met(rows, chain, x, n);
  }

  /** What an error reports of a connection. */
  predicate Shows(rows: Rows, x: Id, e: JumpError) {
    match e
    case NotFound => x !in rows
    case FolderTooDeep => x in rows && !rows[x].resolves
    case WrongProtocol => x in rows && rows[x].resolves && !rows[x].ssh
    case _ => false
  }

  ghost predicate Caused(rows: Rows, chain: seq<Id>, e: JumpError) {
    exists x :: MetSome(rows, chain, x) && Shows(rows, x, e)
  }

  ghost predicate AllMet(rows: Rows, chain: seq<Id>, visited: set<Id>, seen: set<Id>) {
    forall x :: x in seen && x !in visited ==> MetSome(rows, chain, x)
  }

  /** The walk stops at its first hop, below it, or after it. */
  lemma WalkStep(rows: Rows, chain: seq<Id>, route: seq<Id>, visited: set<Id>, depth: nat)
    requires chain != []
    ensures var hop, w := chain[0], WalkFrom(rows, chain, route, visited, depth, true);
            var inner := InnerWalk(rows, chain[0], visited, depth);
            if hop in visited then w == (Err(Cycle), visited)
            else if hop !in rows || !rows[hop].resolves || !rows[hop].ssh then
              w.1 == visited + {hop} && w.0.Err? && Shows(rows, hop, w.0.error)
            else if inner.0.Err? then w == inner
            else
              var route' := route + inner.0.route + [hop];
              visited + {hop} <= inner.1
              && w == if |route'| > 8 then (Err(TooLong), inner.1)
                      else WalkFrom(rows, chain[1..], route', inner.1, depth, true)
  {
  }

  function InnerWalk(rows: Rows, hop: Id, visited: set<Id>, depth: nat): (Walk, set<Id>) {
    if hop !in rows || rows[hop].chain == [] then (Ok([]), visited + {hop})
    else if depth + 1 > 8 then (Err(TooLong), visited + {hop})
    else WalkFrom(rows, rows[hop].chain, [], visited + {hop}, depth + 1, true)
  }

  lemma CausedInside(rows: Rows, chain: seq<Id>, e: JumpError)
    requires chain != [] && chain[0] in rows && Caused(rows, rows[chain[0]].chain, e)
    ensures Caused(rows, chain, e)
  {
    hide MetSome;
    var x :| MetSome(rows, rows[chain[0]].chain, x) && Shows(rows, x, e);
    MetInside(rows, chain, x);
  }

  lemma CausedLater(rows: Rows, chain: seq<Id>, e: JumpError)
    requires chain != [] && Caused(rows, chain[1..], e)
    ensures Caused(rows, chain, e)
  {
    hide MetSome;
    var x :| MetSome(rows, chain[1..], x) && Shows(rows, x, e);
    MetLater(rows, chain, x);
  }

  /** Every connection visited on the way has been met. */
  lemma {:induction false} VisitsMet(rows: Rows, chain: seq<Id>, route: seq<Id>, visited: set<Id>, depth: nat)
    ensures AllMet(rows, chain, visited, WalkFrom(rows, chain, route, visited, depth, true).1)
    decreases Left(rows, visited), |chain|
  {
    if chain != [] {
      hide WalkFrom, MetSome, Left;
      var hop, inner := chain[0], InnerWalk(rows, chain[0], visited, depth);
      WalkStep(rows, chain, route, visited, depth);
      MetFirst(rows, chain);
      if hop !in visited && hop in rows && rows[hop].resolves && rows[hop].ssh {
        LeftShrinks(rows, visited, hop, visited + {hop});
        VisitsMet(rows, rows[hop].chain, [], visited + {hop}, depth + 1);
        forall x | x in inner.1 && x !in visited ensures MetSome(rows, chain, x) {
          if x != hop { MetInside(rows, chain, x); }
        }
        if inner.0.Ok? {
          var route' := route + inner.0.route + [hop];
          LeftShrinks(rows, visited, hop, inner.1);
          VisitsMet(rows, chain[1..], route', inner.1, depth);
          forall x | x in WalkFrom(rows, chain[1..], route', inner.1, depth, true).1 && x !in inner.1
            ensures MetSome(rows, chain, x) {
            MetLater(rows, chain, x);
          }
        }
      }
    } else {
      WalkNothing(rows, route, visited, depth);
    }
  }

  lemma WalkNothing(rows: Rows, route: seq<Id>, visited: set<Id>, depth: nat)
    ensures WalkFrom(rows, [], route, visited, depth, true) == (Ok(route), visited)
  {
  }

  /** An error about one connection is about one that is met, and is right about it. */
  lemma {:induction false} ErrorsCaused(rows: Rows, chain: seq<Id>, route: seq<Id>, visited: set<Id>, depth: nat)
    ensures var w := WalkFrom(rows, chain, route, visited, depth, true).0;
            w.Err? ==> w.error != Itself && (w.error in {Cycle, TooLong} || Caused(rows, chain, w.error))
    decreases Left(rows, visited), |chain|
  {
    if chain != [] {
      hide WalkFrom, MetSome, Left, Caused;
      var hop, inner := chain[0], InnerWalk(rows, chain[0], visited, depth);
      var w := WalkFrom(rows, chain, route, visited, depth, true);
      WalkStep(rows, chain, route, visited, depth);
      if hop !in visited {
        if hop in rows && rows[hop].resolves && rows[hop].ssh {
          LeftShrinks(rows, visited, hop, visited + {hop});
          ErrorsCaused(rows, rows[hop].chain, [], visited + {hop}, depth + 1);
          if inner.0.Err? {
            if inner.0.error !in {Cycle, TooLong} { CausedInside(rows, chain, inner.0.error); }
          } else {
            LeftShrinks(rows, visited, hop, inner.1);
            ErrorsCaused(rows, chain[1..], route + inner.0.route + [hop], inner.1, depth);
            if w.0.Err? && w.0.error !in {Cycle, TooLong} { CausedLater(rows, chain, w.0.error); }
          }
        } else {
          FirstCaused(rows, chain, w.0.error);
        }
      }
    } else {
      WalkNothing(rows, route, visited, depth);
    }
  }

  lemma FirstCaused(rows: Rows, chain: seq<Id>, e: JumpError)
    requires chain != [] && Shows(rows, chain[0], e)
    ensures Caused(rows, chain, e)
  {
    MetFirst(rows, chain);
  }

  lemma ElementsSize(r: seq<Id>)
    requires NoRepeats(r)
    ensures |Elements(r)| == |r|
  {
    if r != [] {
      var n := |r| - 1;
      ElementsSize(r[..n]);
      assert Elements(r) == Elements(r[..n]) + {r[n]};
      assert r[n] !in Elements(r[..n]);
    }
  }

  /** The hops collected and the levels above are all visited; so giving up means that nine more have been. */
  lemma {:induction false} TooLongMeansNine(rows: Rows, chain: seq<Id>, route: seq<Id>, visited: set<Id>, depth: nat)
    ensures var (w, seen) := WalkFrom(rows, chain, route, visited, depth, true);
            w == Err(TooLong) ==> |seen| >= |visited| - |route| - depth + 9
    decreases Left(rows, visited), |chain|
  {
    if chain != [] {
      hide WalkFrom, Left;
      var hop, inner := chain[0], InnerWalk(rows, chain[0], visited, depth);
      WalkStep(rows, chain, route, visited, depth);
      if hop !in visited && hop in rows && rows[hop].resolves && rows[hop].ssh {
        LeftShrinks(rows, visited, hop, visited + {hop});
        TooLongMeansNine(rows, rows[hop].chain, [], visited + {hop}, depth + 1);
        if inner.0.Ok? {
          InnerSize(rows, hop, visited, depth);
          LeftShrinks(rows, visited, hop, inner.1);
          TooLongMeansNine(rows, chain[1..], route + inner.0.route + [hop], inner.1, depth);
        }
      }
    } else {
      WalkNothing(rows, route, visited, depth);
    }
  }

  lemma InnerSize(rows: Rows, hop: Id, visited: set<Id>, depth: nat)
    requires hop !in visited && InnerWalk(rows, hop, visited, depth).0.Ok?
    ensures var inner := InnerWalk(rows, hop, visited, depth);
            |inner.1| == |visited| + 1 + |inner.0.route|
  {
    hide WalkFrom;
    if hop in rows && rows[hop].chain != [] {
      var r := WalkSound(rows, rows[hop].chain, [], visited + {hop}, depth + 1, true);
      assert [] + r == r;
      ElementsSize(r);
      assert Elements(r) !! visited + {hop};
    }
  }

  lemma RouteJoins(route: seq<Id>, a: seq<Id>, hop: Id, b: seq<Id>, visited: set<Id>)
    ensures route + a + [hop] + b == route + (a + [hop] + b)
    ensures visited + {hop} + Elements(a) + Elements(b) == visited + Elements(a + [hop] + b)
  {
    Around(a, hop, b);
  }

  /** A route that could be dialled is refused for nothing but its length. */
  lemma {:induction false} UsableOnlyTooLong(rows: Rows, chain: seq<Id>, n: nat, r: seq<Id>, route: seq<Id>,
      visited: set<Id>, depth: nat)
    requires Expand(rows, chain, n) == Some(r) && Usable(rows, r, visited)
    ensures var w := WalkFrom(rows, chain, route, visited, depth, true);
            w.0 == Err(TooLong) || w == (Ok(route + r), visited + Elements(r))
    decreases n, |chain|
  {
    hide Usable, Elements, Expand, Left;
    if chain == [] {
      ExpandNothing(rows, n);
      NothingUsable(rows, visited);
      WalkNothing(rows, route, visited, depth);
      assert route + [] == route && visited + {} == visited;
    } else {
      hide WalkFrom;
      var hop, inner := chain[0], InnerWalk(rows, chain[0], visited, depth);
      var a, b := ExpandParts(rows, chain, n);
      UsableParts(rows, a, hop, b, visited);
      WalkStep(rows, chain, route, visited, depth);
      if rows[hop].chain != [] {
        UsableOnlyTooLong(rows, rows[hop].chain, n - 1, a, [], visited + {hop}, depth + 1);
        assert [] + a == a;
      } else {
        NothingUsable(rows, visited);
        assert visited + {hop} == visited + {hop} + {};
      }
      if inner.0.Ok? {
        var seen := visited + {hop} + Elements(a);
        assert inner == (Ok(a), seen);
        UsableOnlyTooLong(rows, chain[1..], n, b, route + a + [hop], seen, depth);
        RouteJoins(route, a, hop, b, visited);
      }
    }
  }

  /**
   What the walk answers. With a full expansion that could be dialled: that, or, when it has more than eight hops, that
   it is too long. Otherwise an error; when it is about one connection, that one is met on the way and is as it says;
   when it is about the length, more than eight are met.
   */
  lemma WalkVerdict(rows: Rows, chain: seq<Id>, visited: set<Id>)
    ensures var w := WalkFrom(rows, chain, [], visited, 0, true).0;
            && (forall r :: IsExpansion(rows, chain, r) && Usable(rows, r, visited) ==>
                  w == if |r| <= 8 then Ok(r) else Err(TooLong))
            && (w.Err? ==> w.error != Itself && (w.error in {Cycle, TooLong} || Caused(rows, chain, w.error)))
            && (w == Err(TooLong) ==>
                  exists met: set<Id> :: |met| > 8 && met !! visited && forall x ::
                      x in met ==> MetSome(rows, chain, x))
  {
    hide WalkFrom, Usable, Caused, MetSome;
    var (w, seen) := WalkFrom(rows, chain, [], visited, 0, true);
    forall r | IsExpansion(rows, chain, r) && Usable(rows, r, visited)
      ensures w == if |r| <= 8 then Ok(r) else Err(TooLong)
    {
      var n: nat :| Expand(rows, chain, n) == Some(r);
      UsableOnlyTooLong(rows, chain, n, r, [], visited, 0);
      WalkExactly(rows, chain, visited, true, r);
      assert [] + r == r;
    }
    ErrorsCaused(rows, chain, [], visited, 0);
    if w == Err(TooLong) {
      TooLongMeansNine(rows, chain, [], visited, 0);
      VisitsMet(rows, chain, [], visited, 0);
      var met := seen - visited;
      VisitedStay(rows, chain, visited);
      assert seen == visited + met && |seen| == |visited| + |met|;
    }
  }

  lemma VisitedStay(rows: Rows, chain: seq<Id>, visited: set<Id>)
    ensures visited <= WalkFrom(rows, chain, [], visited, 0, true).1
  {
  }

  // The checks made before the walk.

  /** What is wrong with one hop of a proposed chain by itself. */
  function Trouble(rows: Rows, id: Id, chain: seq<Id>, i: nat): Option<JumpError>
    requires i < |chain|
  {
    var hop := chain[i];
    if hop == "" then Some(NotFound)
    else if hop == id then Some(Itself)
    else if hop in chain[..i] then Some(Cycle)
    else if hop !in rows then Some(NotFound)
    else if !rows[hop].ssh then Some(WrongProtocol)
    else None
  }

  ghost predicate FirstTrouble(rows: Rows, id: Id, chain: seq<Id>, i: nat) {
    && i < |chain| && Trouble(rows, id, chain, i).Some?
    && forall j :: 0 <= j < i ==> Trouble(rows, id, chain, j) == None
  }

  lemma {:induction false} LocalFirst(rows: Rows, id: Id, chain: seq<Id>, k: nat, seen: set<Id>)
    requires k <= |chain| && forall x :: x in seen <==> x in chain[..k]
    requires forall i :: 0 <= i < k ==> Trouble(rows, id, chain, i) == None
    ensures LocalCheck(rows, id, chain[k..], seen) == None <==>
      forall i :: 0 <= i < |chain| ==> Trouble(rows, id, chain, i) == None
    ensures forall i: nat :: FirstTrouble(rows, id, chain, i) ==>
              LocalCheck(rows, id, chain[k..], seen) == Trouble(rows, id, chain, i)
    decreases |chain| - k
  {
    if k < |chain| {
      var rest := chain[k..];
      assert rest[0] == chain[k] && rest[1..] == chain[k + 1..];
      if Trouble(rows, id, chain, k) == None {
        assert chain[..k + 1] == chain[..k] + [chain[k]];
        LocalFirst(rows, id, chain, k + 1, seen + {chain[k]});
      }
    }
  }

  /** The verdict on a proposed chain: its length first, then the first hop that is wrong by itself, then the walk. */
  lemma VerdictIs(rows: Rows, id: Id, chain: seq<Id>)
    ensures |chain| > 8 ==> Validate(rows, id, chain) == Some(TooLong)
    ensures |chain| <= 8 ==>
              forall i: nat :: FirstTrouble(rows, id, chain, i) ==>
                Validate(rows, id, chain) == Trouble(rows, id, chain, i)
    ensures |chain| <= 8 && (forall i :: 0 <= i < |chain| ==> Trouble(rows, id, chain, i) == None) ==>
              var w := WalkFrom(rows, chain, [], if id == "" then {} else {id}, 0, true).0;
              Validate(rows, id, chain) == if w.Ok? then None else Some(w.error)
  {
    hide WalkFrom, Trouble;
    LocalFirst(rows, id, chain, 0, {});
    assert chain[0..] == chain;
    if chain == [] { WalkNothing(rows, [], Start(id), 0); }
  }
}
