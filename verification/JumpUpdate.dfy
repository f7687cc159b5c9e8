/** What an edit of one connection does to the routes of the others. */
module JumpUpdate {
  import opened JumpGraph
  import opened JumpStore

  /** Only the row of `id` differs. */
  ghost predicate OnlyAt(rows: Rows, rows': Rows, id: Id) {
    id in rows && rows'.Keys == rows.Keys && forall x :: x in rows && x != id ==> rows'[x] == rows[x]
  }

  lemma {:induction false} ExpandAround(rows: Rows, rows': Rows, id: Id, chain: seq<Id>, n: nat)
    requires OnlyAt(rows, rows', id) && Expand(rows, chain, n).Some? && id !in Expand(rows, chain, n).value
    ensures Expand(rows', chain, n) == Expand(rows, chain, n)
    decreases n, |chain|
  {
    hide OnlyAt;
    if chain != [] {
      var a, b := ExpandParts(rows, chain, n);
      InParts(a, chain[0], b, id);
      SameRow(rows, rows', id, chain[0]);
      ExpandAround(rows, rows', id, rows[chain[0]].chain, n - 1);
      ExpandAround(rows, rows', id, chain[1..], n);
    }
  }

  lemma SameRow(rows: Rows, rows': Rows, id: Id, x: Id)
    requires OnlyAt(rows, rows', id) && x != id
    ensures x in rows <==> x in rows'
    ensures x in rows ==> rows'[x] == rows[x]
  {
  }

  lemma InParts(a: seq<Id>, h: Id, b: seq<Id>, id: Id)
    ensures id in a + [h] + b <==> id in a || id == h || id in b
  {
    var r := a + [h] + b;
    assert r[|a|] == h;
    assert forall i :: 0 <= i < |a| ==> r[i] == a[i];
    assert forall i :: 0 <= i < |b| ==> r[|a| + 1 + i] == b[i];
  }

  lemma UsableAround(rows: Rows, rows': Rows, id: Id, r: seq<Id>, visited: set<Id>)
    requires OnlyAt(rows, rows', id) && Usable(rows, r, visited) && id !in r
    ensures Usable(rows', r, visited)
  {
    forall i | 0 <= i < |r| ensures r[i] in rows' && rows'[r[i]].ssh && rows'[r[i]].resolves
    { assert r[i] in r; SameRow(rows, rows', id, r[i]); }
  }

  /** A route as the expansion it is. */
  lemma RouteIs(rows: Rows, x: Id, r: seq<Id>)
    requires x in rows
    ensures RouteTo(rows, x) == Ok(r)
            <==> IsExpansion(rows, rows[x].chain, r) && Usable(rows, r, {x}) && |r| <= MaxJumpChain
  {
    hide WalkFrom, Expand, Usable;
    if rows[x].chain == [] {
      ExpandNothing(rows, 0);
      assert IsExpansion(rows, [], []);
      NothingUsable(rows, {x});
      if IsExpansion(rows, [], r) { ExpansionUnique(rows, [], r, []); }
    } else {
      WalkExactly(rows, rows[x].chain, {x}, true, r);
    }
  }

  /** Whatever is changed about a connection, the routes that do not pass through it stay as they are. */
  lemma ElsewhereUnchanged(rows: Rows, rows': Rows, id: Id, x: Id, r: seq<Id>)
    requires OnlyAt(rows, rows', id) && x != id && RouteTo(rows, x) == Ok(r) && id !in r
    ensures RouteTo(rows', x) == Ok(r)
  {
    hide RouteTo, Expand, Usable;
    InRows(rows, x, r);
    RouteIs(rows, x, r);
    SameRow(rows, rows', id, x);
    var n: nat :| Expand(rows, rows[x].chain, n) == Some(r);
    ExpandAround(rows, rows', id, rows[x].chain, n);
    UsableAround(rows, rows', id, r, {x});
    RouteIs(rows', x, r);
  }

  lemma InRows(rows: Rows, x: Id, r: seq<Id>)
    requires RouteTo(rows, x) == Ok(r)
    ensures x in rows
  {
  }

  // Changing the protocol.

  lemma {:induction false} ExpandSame(rows: Rows, rows': Rows, chain: seq<Id>, n: nat)
    requires rows'.Keys == rows.Keys && (forall x ::
      x in rows ==> rows'[x].chain == rows[x].chain) && Expand(rows, chain, n).Some?
    ensures Expand(rows', chain, n) == Expand(rows, chain, n)
    decreases n, |chain|
  {
    if chain != [] {
      var a, b := ExpandParts(rows, chain, n);
      ExpandSame(rows, rows', rows[chain[0]].chain, n - 1);
      ExpandSame(rows, rows', chain[1..], n);
    }
  }

  /** A connection that stops being SSH spoils exactly the routes through it. */
  lemma ProtocolSpoilsExactly(rows: Rows, id: Id, x: Id, r: seq<Id>)
    requires id in rows && x != id && RouteTo(rows, x) == Ok(r)
    ensures var rows' := rows[id := rows[id].(ssh := false)];
            RouteTo(rows', x).Ok? <==> id !in r
  {
    hide RouteTo, Expand;
    var rows' := rows[id := rows[id].(ssh := false)];
    InRows(rows, x, r);
    if id !in r {
      ElsewhereUnchanged(rows, rows', id, x, r);
    } else if RouteTo(rows', x).Ok? {
      var r' := RouteTo(rows', x).route;
      RouteIs(rows, x, r);
      RouteIs(rows', x, r');
      var n: nat :| Expand(rows, rows[x].chain, n) == Some(r);
      ExpandSame(rows, rows', rows[x].chain, n);
      assert IsExpansion(rows', rows'[x].chain, r);
      ExpansionUnique(rows', rows'[x].chain, r, r');
    }
  }

  // Changing the chain.

  lemma PartsOnce(a: seq<Id>, h: Id, b: seq<Id>, id: Id)
    requires NoRepeats(a + [h] + b)
    ensures NoRepeats(a) && NoRepeats(b)
    ensures id in a ==> id != h && id !in b
    ensures id == h ==> id !in a && id !in b
  {
    var r := a + [h] + b;
    assert forall i :: 0 <= i < |a| ==> r[i] == a[i];
    assert r[|a|] == h;
    assert forall i :: 0 <= i < |b| ==> r[|a| + 1 + i] == b[i];
    forall i, j | 0 <= i < j < |b| ensures b[i] != b[j] { assert r[|a| + 1 + i] != r[|a| + 1 + j]; }
    if id in a {
      var i :| 0 <= i < |a| && a[i] == id;
      assert r[i] != r[|a|];
      forall j | 0 <= j < |b| ensures b[j] != id { assert r[i] != r[|a| + 1 + j]; }
    }
    if id == h {
      forall j | 0 <= j < |b| ensures b[j] != id { assert r[|a|] != r[|a| + 1 + j]; }
      forall j | 0 <= j < |a| ensures a[j] != id { assert r[j] != r[|a|]; }
    }
  }

  /**
   In the expansion of a chain through `id`, the old hops of `id` make way for the new ones, and nothing else moves.
   */
  lemma {:induction false} Swap(rows: Rows, rows': Rows, id: Id, m: nat, was: seq<Id>, now: seq<Id>, chain: seq<Id>,
      n: nat)
    returns (p: seq<Id>, q: seq<Id>)
    requires OnlyAt(rows, rows', id) && Expand(rows, rows[id].chain, m) == Some(was)
      && Expand(rows', rows'[id].chain, m) == Some(now)
    requires Expand(rows, chain, n).Some? && NoRepeats(Expand(rows, chain, n).value)
      && id in Expand(rows, chain, n).value
    ensures Expand(rows, chain, n).value == p + was + [id] + q
    ensures Expand(rows', chain, n + m) == Some(p + now + [id] + q)
    ensures id !in p && id !in q
    decreases n, |chain|
  {
    hide OnlyAt, NoRepeats, Expand;
    NotEmpty(rows, chain, n);
    var a, b := ExpandParts(rows, chain, n);
    var h := chain[0];
    InParts(a, h, b, id);
    PartsOnce(a, h, b, id);
    if h == id {
      SameExpansion(rows, rows[id].chain, n - 1, a, m, was);
      p, q := [], b;
      Rest(rows, rows', id, chain[1..], n, m, b);
      StillThere(rows, rows', id);
      ExpandMore(rows', rows'[id].chain, m, n + m - 1);
      ExpandCons(rows', chain, n + m, now, b);
      assert p + now + [id] + q == now + [id] + b;
      assert p + was + [id] + q == a + [id] + b;
    } else {
      SameRow(rows, rows', id, h);
      if id in a {
        var q';
        p, q' := Swap(rows, rows', id, m, was, now, rows[h].chain, n - 1);
        q := q' + [h] + b;
        Rest(rows, rows', id, chain[1..], n, m, b);
        ExpandCons(rows', chain, n + m, p + now + [id] + q', b);
        assert p + was + [id] + q == (p + was + [id] + q') + [h] + b;
        assert p + now + [id] + q == (p + now + [id] + q') + [h] + b;
        InParts(q', h, b, id);
      } else {
        var p';
        p', q := Swap(rows, rows', id, m, was, now, chain[1..], n);
        p := a + [h] + p';
        Rest(rows, rows', id, rows[h].chain, n - 1, m, a);
        ExpandCons(rows', chain, n + m, a, p' + now + [id] + q);
        assert p + was + [id] + q == a + [h] + (p' + was + [id] + q);
        assert p + now + [id] + q == a + [h] + (p' + now + [id] + q);
        InParts(a, h, p', id);
      }
    }
  }

  lemma StillThere(rows: Rows, rows': Rows, id: Id)
    requires OnlyAt(rows, rows', id)
    ensures id in rows && id in rows'
  {
  }

  lemma NotEmpty(rows: Rows, chain: seq<Id>, n: nat)
    requires Expand(rows, chain, n).Some? && Expand(rows, chain, n).value != []
    ensures chain != []
  {
  }

  lemma SameExpansion(rows: Rows, chain: seq<Id>, n: nat, a: seq<Id>, m: nat, b: seq<Id>)
    requires Expand(rows, chain, n) == Some(a) && Expand(rows, chain, m) == Some(b)
    ensures a == b
  {
    hide Expand;
    assert IsExpansion(rows, chain, a) && IsExpansion(rows, chain, b);
    ExpansionUnique(rows, chain, a, b);
  }

  /** What does not pass through `id` expands as before, with more levels allowed. */
  lemma Rest(rows: Rows, rows': Rows, id: Id, chain: seq<Id>, n: nat, m: nat, b: seq<Id>)
    requires OnlyAt(rows, rows', id) && Expand(rows, chain, n) == Some(b) && id !in b
    ensures Expand(rows', chain, n + m) == Some(b)
  {
    hide Expand, OnlyAt;
    ExpandAround(rows, rows', id, chain, n);
    ExpandMore(rows', chain, n, n + m);
  }

  lemma UsableSwap(rows: Rows, rows': Rows, id: Id, x: Id, p: seq<Id>, was: seq<Id>, now: seq<Id>, q: seq<Id>)
    requires OnlyAt(rows, rows', id) && rows'[id] == rows[id].(chain := rows'[id].chain)
    requires Usable(rows, p + was + [id] + q, {x}) && Usable(rows', now, {id})
    ensures Usable(rows', p + now + [id] + q, {x}) <==> NoRepeats(p + now + [id] + q) && x !in p + now + [id] + q
  {
    var r, r' := p + was + [id] + q, p + now + [id] + q;
    forall y | y in p || y in q || y == id ensures y in rows' && rows'[y].ssh && rows'[y].resolves {
      if y in p { var i :| 0 <= i < |p| && p[i] == y; assert r[i] == y; }
      if y in q { var i :| 0 <= i < |q| && q[i] == y; assert r[|p + was| + 1 + i] == y; }
      if y == id { assert r[|p + was|] == id; }
      if y != id { SameRow(rows, rows', id, y); }
    }
    forall i | 0 <= i < |r'| ensures r'[i] in rows' && rows'[r'[i]].ssh && rows'[r'[i]].resolves {
      if i < |p| {
        assert r'[i] == p[i] && p[i] in p;
      } else if i < |p| + |now| {
        assert r'[i] == now[i - |p|];
      } else if i > |p| + |now| {
        assert r'[i] == q[i - |p| - |now| - 1] && r'[i] in q;
      }
    }
  }

  /**
   A connection whose chain is changed keeps a good route for every other connection through it exactly
   when that one's route, with the old hops replaced by the new, repeats nothing, avoids where it leads
   and has at most eight hops; and then that is the route.
   */
  lemma ChainSpoilsExactly(rows: Rows, id: Id, chain: seq<Id>, x: Id, r: seq<Id>, was: seq<Id>, now: seq<Id>)
      returns (p: seq<Id>, q: seq<Id>)
    requires id in rows && x != id && RouteTo(rows, x) == Ok(r) && id in r && RouteTo(rows, id) == Ok(was)
    requires RouteTo(rows[id := rows[id].(chain := chain)], id) == Ok(now)
    ensures r == p + was + [id] + q
    ensures var rows' := rows[id := rows[id].(chain := chain)];
            var r' := p + now + [id] + q;
            && (RouteTo(rows', x).Ok? <==> NoRepeats(r') && x !in r' && |r'| <= MaxJumpChain)
            && (RouteTo(rows', x).Ok? ==> RouteTo(rows', x) == Ok(r'))
  {
    hide RouteTo, Expand, Usable;
    var rows' := rows[id := rows[id].(chain := chain)];
    InRows(rows, x, r);
    RouteIs(rows, x, r);
    RouteIs(rows, id, was);
    RouteIs(rows', id, now);
    var n: nat :| Expand(rows, rows[x].chain, n) == Some(r);
    var a: nat :| Expand(rows, rows[id].chain, a) == Some(was);
    var b: nat :| Expand(rows', rows'[id].chain, b) == Some(now);
    ExpandMore(rows, rows[id].chain, a, a + b);
    ExpandMore(rows', rows'[id].chain, b, a + b);
    UsableOnce(rows, r, {x});
    p, q := Swap(rows, rows', id, a + b, was, now, rows[x].chain, n);
    var r' := p + now + [id] + q;
    assert IsExpansion(rows', rows'[x].chain, r');
    UsableSwap(rows, rows', id, x, p, was, now, q);
    RouteIs(rows', x, r');
    if RouteTo(rows', x).Ok? {
      RouteIs(rows', x, RouteTo(rows', x).route);
      ExpansionUnique(rows', rows'[x].chain, r', RouteTo(rows', x).route);
    }
  }

  lemma UsableOnce(rows: Rows, r: seq<Id>, visited: set<Id>)
    requires Usable(rows, r, visited)
    ensures NoRepeats(r)
  {
  }

  /** A chain is accepted for a connection exactly when it gives that connection a route of its own. */
  lemma AcceptedExactly(rows: Rows, id: Id, chain: seq<Id>)
    requires "" !in rows && id in rows
    ensures Validate(rows, id, chain) == None <==> RouteTo(rows[id := rows[id].(chain := chain)], id).Ok?
  {
    hide RouteTo, Expand, Usable, Validate;
    var rows' := rows[id := rows[id].(chain := chain)];
    ValidateExactly(rows, id, chain);
    if Validate(rows, id, chain) == None {
      var r :| IsExpansion(rows, chain, r) && Usable(rows, r, Start(id)) && |r| <= MaxJumpChain;
      Carries(rows, rows', id, chain, r);
      RouteIs(rows', id, r);
    }
    if RouteTo(rows', id).Ok? {
      var r := RouteTo(rows', id).route;
      RouteIs(rows', id, r);
      Carries(rows', rows, id, chain, r);
      assert IsExpansion(rows, chain, r) && Usable(rows, r, Start(id));
    }
  }

  /** An expansion that avoids `id` does not care about the row of `id`. */
  lemma Carries(rows: Rows, rows': Rows, id: Id, chain: seq<Id>, r: seq<Id>)
    requires OnlyAt(rows, rows', id) && IsExpansion(rows, chain, r) && Usable(rows, r, {id})
    ensures IsExpansion(rows', chain, r) && Usable(rows', r, {id})
  {
    hide Expand, OnlyAt;
    assert id !in r;
    var n: nat :| Expand(rows, chain, n) == Some(r);
    ExpandAround(rows, rows', id, chain, n);
    assert Expand(rows', chain, n) == Some(r);
    UsableAround(rows, rows', id, r, {id});
  }

  /** Eight hops are accepted for a connection, and too many for whatever is reached through it. */
  lemma FullChainSpoils(rows: Rows, id: Id, chain: seq<Id>, x: Id, r: seq<Id>, was: seq<Id>, now: seq<Id>)
    requires id in rows && x != id && RouteTo(rows, x) == Ok(r) && id in r && RouteTo(rows, id) == Ok(was)
    requires RouteTo(rows[id := rows[id].(chain := chain)], id) == Ok(now) && |now| == MaxJumpChain
    ensures "" !in rows ==> Validate(rows, id, chain) == None
    ensures !RouteTo(rows[id := rows[id].(chain := chain)], x).Ok?
  {
    hide RouteTo, Validate;
    if "" !in rows { AcceptedExactly(rows, id, chain); }
    var p, q := ChainSpoilsExactly(rows, id, chain, x, r, was, now);
  }

  // Two connections, the second reached through the first.

  const Two: Rows := map["1" := Session("a", true, true, []), "2" := Session("b", true, true, ["1"])]

  lemma TwoRoutes()
    ensures RouteTo(Two, "1") == Ok([]) && RouteTo(Two, "2") == Ok(["1"])
  {
    hide Expand, Usable, WalkFrom;
    var none: nat, one: nat := 0, 1;
    assert Expand(Two, ["1"], one) == Some(["1"]) by { ExpandTwo(); }
    assert IsExpansion(Two, ["1"], ["1"]);
    assert Usable(Two, ["1"], {"2"}) by { UsableTwo(); }
    RouteIs(Two, "2", ["1"]);
  }

  lemma ExpandTwo()
    ensures Expand(Two, ["1"], 1) == Some(["1"])
  {
    assert ["1"][1..] == [];
    assert [] + ["1"] + [] == ["1"];
  }

  lemma UsableTwo()
    ensures Usable(Two, ["1"], {"2"})
  {
  }

  /**
   Making the first a connection of another kind, and deleting the first with its folder, both leave the second
   without a route.
   */
  lemma TwoSpoilt()
    ensures RouteTo(Two, "2") == Ok(["1"])
    ensures !RouteTo(Two["1" := Two["1"].(ssh := false)], "2").Ok?
    ensures !RouteTo(Two - {"1"}, "2").Ok?
  {
    hide RouteTo;
    TwoRoutes();
    assert "1" in ["1"];
    ProtocolSpoilsExactly(Two, "1", "2", ["1"]);
    forall x | x in Two ensures RouteTo(Two, x).Ok? { }
    DeleteManyKeepsRoutesIff(Two, {"1"});
    assert Two["2"].chain[0] == "1";
    assert Mentions(Two["2"].chain, {"1"});
    assert !Unmentioned(Two, {"1"});
  }

  // Three connections: the third is reached through the first and then the second.

  const Three: Rows :=
    map["1" := Session("a", true, true, []), "2" := Session("b", true, true, []), "3" :=
        Session("c", true, true, ["1", "2"])]

  lemma ExpandThree(rows: Rows)
    requires "1" in rows && "2" in rows && rows["1"].chain == [] && rows["2"].chain == []
    ensures Expand(rows, [], 1) == Some([]) && Expand(rows, ["1"], 1) == Some(["1"])
      && Expand(rows, ["1", "2"], 1) == Some(["1", "2"])
  {
    assert ["2"][1..] == [] && ["1", "2"][1..] == ["2"] && ["1"][1..] == [];
    assert [] + ["1"] + [] == ["1"] && [] + ["2"] + [] == ["2"] && [] + ["1"] + ["2"] == ["1", "2"];
    assert Expand(rows, ["2"], 1) == Some(["2"]);
  }

  /** The second may be given the first as its hop; then the third has no route. */
  lemma AcceptedYetSpoils()
    ensures Validate(Three, "2", ["1"]) == None && RouteTo(Three, "3") == Ok(["1", "2"])
    ensures !RouteTo(Three["2" := Three["2"].(chain := ["1"])], "3").Ok?
  {
    hide RouteTo, Expand, Validate;
    var rows' := Three["2" := Three["2"].(chain := ["1"])];
    var one: nat := 1;
    ExpandThree(Three);
    assert IsExpansion(Three, ["1", "2"], ["1", "2"]) by { assert Expand(Three, ["1", "2"], one).Some?; }
    assert IsExpansion(Three, [], []) by { assert Expand(Three, [], one).Some?; }
    assert IsExpansion(Three, ["1"], ["1"]) by { assert Expand(Three, ["1"], one).Some?; }
    assert Usable(Three, ["1", "2"], {"3"}) && Usable(Three, [], {"2"}) && Usable(Three, ["1"], {"2"});
    RouteIs(Three, "3", ["1", "2"]);
    RouteIs(Three, "2", []);
    Carries(Three, rows', "2", ["1"], ["1"]);
    RouteIs(rows', "2", ["1"]);
    AcceptedExactly(Three, "2", ["1"]);
    assert ["1", "2"][1] == "2";
    var p, q := ChainSpoilsExactly(Three, "2", ["1"], "3", ["1", "2"], [], ["1"]);
    OneBefore(p, q);
    var r := ["1"] + ["1"] + ["2"] + [];
    assert r[0] == r[1];
  }

  lemma OneBefore(p: seq<Id>, q: seq<Id>)
    requires ["1", "2"] == p + [] + ["2"] + q
    ensures p == ["1"] && q == []
  {
    var r := p + [] + ["2"] + q;
    assert |p| + |q| == 1 && r[|p|] == "2";
    assert r[0] == "1" && r[1] == "2";
  }
}
