/** What a connection rides on, as opposed to what it holds. */
module PoolTransport {
  import opened ConnKeys
  import opened PoolTable
  import opened PoolRun
  import opened PoolInv
  import opened PoolFacts

  /** The entry whose client carries this one: the last lease of a target's dial, or what a hop was dialled through. */
  function CarrierOf(s: Sys, e: nat): seq<nat>
    requires e < |s.table.entries|
  {
    var x := s.table.entries[e];
    if x.asTarget then Through(s, x.held) else x.through
  }

  /** What never changes about an entry, and that it stays live. */
  ghost predicate Steady(E: seq<Entry>, E': seq<Entry>) {
    |E| <= |E'| && forall e :: 0 <= e < |E| ==>
      && E'[e].key == E[e].key && E'[e].route == E[e].route && E'[e].asTarget == E[e].asTarget
          && E'[e].through == E[e].through
      && (E[e].phase == Live ==> E'[e].phase == Live)
  }

  /** A hop is dialled through a live connection to the hop before it. */
  ghost predicate CarriedBy(E: seq<Entry>, x: Entry) {
    if x.route == [] then x.through == []
    else
      |x.through| == 1 && x.through[0] < |E| && E[x.through[0]].phase == Live
      && E[x.through[0]].key == PathKey(x.key.userId, x.route[..|x.route| - 1], x.route[|x.route| - 1])
  }

  ghost predicate HopsCarried(E: seq<Entry>) {
    forall e :: 0 <= e < |E| && !E[e].asTarget ==> CarriedBy(E, E[e])
  }

  lemma ReleaseSteady(s: Sys, l: nat)
    requires ValidLease(s, l)
    ensures Steady(s.table.entries, ReleaseLease(s, l).table.entries)
    ensures |ReleaseLease(s, l).table.entries| == |s.table.entries|
  {
  }

  lemma RunSteady(s: Sys, e: nat, r: Progress)
    requires ValidEntry(s, e) && CanRun(s, e, r)
    ensures Steady(s.table.entries, RunOne(s, e, r).0.table.entries)
    ensures |RunOne(s, e, r).0.table.entries| == |s.table.entries|
  {
    if r.Returning? && r.left > 0 { ReleaseSteady(s, s.table.entries[e].held[r.left - 1]); }
  }

  lemma TearSteady(s: Sys, a: Step)
    requires Enabled(s, a) && (a.TearDown? || a.SweepNext?)
    ensures Steady(s.table.entries, Apply(s, a).table.entries) && |Apply(s, a).table.entries| == |s.table.entries|
  {
    hide RunOne;
    if a.TearDown? {
      RunSteady(s, a.e, s.table.entries[a.e].byRelease);
    } else {
      RunSteady(s, s.sweep[0], s.table.entries[s.sweep[0]].byClose);
    }
  }

  lemma DialSteady(s: Sys, a: Step)
    requires Links(s.table.entries, s.leases, s.jobs) && Enabled(s, a)
      && (a.HopDialled? || a.TargetDialled? || a.DialFailed?)
    ensures Steady(s.table.entries, Apply(s, a).table.entries) && |Apply(s, a).table.entries| == |s.table.entries|
  {
    hide BorrowOk, HeldOk, OwnersOk, LeasesOk;
    assert JobOk(s.table.entries, a.p, s.jobs[a.p]);
  }

  /** The steps that add no entry. */
  lemma OtherSteady(s: Sys, a: Step)
    requires Links(s.table.entries, s.leases, s.jobs) && Enabled(s, a) && !a.Call? && !a.NextHop?
    ensures Steady(s.table.entries, Apply(s, a).table.entries) && |Apply(s, a).table.entries| == |s.table.entries|
  {
    hide Links;
    match a {
      case GiveBack(p) => ReleaseSteady(s, s.jobs[p].got[|s.jobs[p].got| - 1]);
      case CallerReleases(l) => ReleaseSteady(s, l);
      case TearDown(_) => TearSteady(s, a);
      case SweepNext => TearSteady(s, a);
      case HopDialled(_, _) => DialSteady(s, a);
      case TargetDialled(_) => DialSteady(s, a);
      case DialFailed(_) => DialSteady(s, a);
      case _ =>
    }
  }

  /** Acquire adds at most the entry it makes. */
  lemma EnterSteady(t: Table, user: string, route: seq<string>, id: string, p: nat, asTarget: bool, through: seq<nat>)
    requires MapOk(t)
    ensures var E' := Enter(t, user, route, id, p, asTarget, through).0.entries;
            && Steady(t.entries, E')
            && (|E'| == |t.entries|
                || E' == t.entries + [NewEntry(PathKey(user, route, id), p, route, asTarget, through)])
  {
  }

  lemma CarriedStill(E: seq<Entry>, E': seq<Entry>, e: nat)
    requires HopsCarried(E) && Steady(E, E') && e < |E| && !E[e].asTarget
    ensures CarriedBy(E', E'[e])
  {
    assert CarriedBy(E, E[e]);
  }

  lemma NewHopCarried(s: Sys, p: nat)
    requires Inv(s) && Enabled(s, NextHop(p))
    ensures var j := s.jobs[p];
            var route := j.hops[..|j.got|];
            CarriedBy(s.table.entries,
                NewEntry(PathKey(j.user, route, j.hops[|j.got|]), p, route, false, Through(s, j.got)))
  {
    hide RefsOk, SweepOk, MapOk, EntriesOk, HeldOk, OwnersOk, JobsOk;
    var j := s.jobs[p];
    assert OnHops(s.table.entries, s.leases, j.got, j.target, j.user, j.hops);
    if j.got != [] {
      var n := |j.got| - 1;
      assert j.hops[..|j.got|][..n] == j.hops[..n];
    }
  }

  lemma StepCarried(s: Sys, a: Step)
    requires Inv(s) && Enabled(s, a) && HopsCarried(s.table.entries)
    ensures HopsCarried(Apply(s, a).table.entries)
  {
    hide Links, RefsOk, EntriesOk, SweepOk, Apply, Enabled, CarriedBy;
    var E, E' := s.table.entries, Apply(s, a).table.entries;
    StepAdds(s, a);
    forall e | 0 <= e < |E'| && !E'[e].asTarget ensures CarriedBy(E', E'[e]) {
      if e < |E| { CarriedStill(E, E', e); }
    }
  }

  lemma StepAdds(s: Sys, a: Step)
    requires Inv(s) && Enabled(s, a)
    ensures var E, E' := s.table.entries, Apply(s, a).table.entries;
            Steady(E, E') && forall e :: |E| <= e < |E'| && !E'[e].asTarget ==> CarriedBy(E', E'[e])
  {
    hide Links, RefsOk, EntriesOk, SweepOk, CarriedBy;
    match a {
      case Call(user, hops, id) => EnterSteady(s.table, user, hops, id, |s.jobs|, true, []);
      case NextHop(p) =>
        var j := s.jobs[p];
        EnterSteady(s.table, j.user, j.hops[..|j.got|], j.hops[|j.got|], p, false, Through(s, j.got));
        NewHopCarried(s, p);
        CarriedOn(s, p);
      case _ => OtherSteady(s, a);
    }
  }

  lemma CarriedOn(s: Sys, p: nat)
    requires Inv(s) && Enabled(s, NextHop(p))
    ensures var j := s.jobs[p];
            var x := NewEntry(PathKey(j.user, j.hops[..|j.got|], j.hops[|j.got|]), p, j.hops[..|j.got|], false,
                Through(s, j.got));
            CarriedBy(s.table.entries + [x], x)
  {
    hide Inv;
    NewHopCarried(s, p);
  }

  lemma {:induction false} AlwaysCarried(run: seq<Sys>, steps: seq<Step>, i: nat)
    requires IsRun(run, steps) && i < |run|
    ensures HopsCarried(run[i].table.entries)
  {
    hide Inv, Apply, Enabled;
    if i > 0 {
      AlwaysCarried(run, steps, i - 1);
      Always(run, steps, i - 1);
      StepCarried(run[i - 1], steps[i - 1]);
    }
  }

  /** What carries a live connection is, or was, a live connection to the last hop of its route. */
  lemma CarrierIs(s: Sys, e: nat)
    requires Inv(s) && HopsCarried(s.table.entries) && e < |s.table.entries| && s.table.entries[e].phase == Live
    ensures var x := s.table.entries[e];
            if x.route == [] then CarrierOf(s, e) == []
            else
              && |CarrierOf(s, e)| == 1 && CarrierOf(s, e)[0] < |s.table.entries|
                  && s.table.entries[CarrierOf(s, e)[0]].phase == Live
              && s.table.entries[CarrierOf(s, e)[0]].key
                  == PathKey(x.key.userId, x.route[..|x.route| - 1], x.route[|x.route| - 1])
  {
    hide RefsOk, SweepOk, MapOk, EntriesOk, BorrowOk, OwnersOk, JobsOk;
    var x := s.table.entries[e];
    if x.asTarget {
      assert OnHops(s.table.entries, s.leases, x.held, e, x.key.userId, x.route);
    } else {
      assert CarriedBy(s.table.entries, x);
    }
  }

  // All the way down.

  /** What is met going down from a connection: its carrier, that one's carrier, and so on. */
  ghost function Ride(s: Sys, e: nat, j: nat): seq<nat>
    decreases j
  {
    if e >= |s.table.entries| then []
    else
      var c := CarrierOf(s, e);
      if j == 0 then c else if |c| != 1 then [] else Ride(s, c[0], j - 1)
  }

  /** Identifiers as they are minted. */
  ghost predicate PlainRoutes(E: seq<Entry>) { forall e :: 0 <= e < |E| ==> PlainIds(E[e].route) }

  /** `c` is one live connection, to the hop of `x` at `k`. */
  ghost predicate IsHop(E: seq<Entry>, x: Entry, k: int, c: seq<nat>) {
    && 0 <= k < |x.route| && |c| == 1 && c[0] < |E| && E[c[0]].phase == Live
    && E[c[0]].key == PathKey(x.key.userId, x.route[..k], x.route[k])
  }

  lemma HopRoute(s: Sys, x: Entry, k: int, c: seq<nat>)
    requires EntriesOk(s) && PlainRoutes(s.table.entries) && IsHop(s.table.entries, x, k, c) && PlainIds(x.route)
    ensures s.table.entries[c[0]].route == x.route[..k] && s.table.entries[c[0]].key.userId == x.key.userId
  {
    var y := s.table.entries[c[0]];
    assert EntryOk(y, s.table.closed, s.tick);
    PathKeyInjective(y.key.userId, y.route, y.key.sessionId, x.key.userId, x.route[..k], x.route[k]);
  }

  /** Going down meets the hops of the route, last one first. */
  lemma {:induction false} RideIs(s: Sys, e: nat, j: nat)
    requires Inv(s) && HopsCarried(s.table.entries) && PlainRoutes(s.table.entries)
    requires e < |s.table.entries| && s.table.entries[e].phase == Live && j < |s.table.entries[e].route|
    ensures IsHop(s.table.entries, s.table.entries[e], |s.table.entries[e].route| - 1 - j, Ride(s, e, j))
    decreases j
  {
    hide Links, RefsOk, MapOk, SweepOk, CarrierOf, HopsCarried, EntriesOk;
    var E, x := s.table.entries, s.table.entries[e];
    var n := |x.route| - 1;
    CarrierIs(s, e);
    var c := CarrierOf(s, e);
    if j > 0 {
      HopRoute(s, x, n, c);
      RideIs(s, c[0], j - 1);
      var k := n - j;
      assert x.route[..n][..k] == x.route[..k] && x.route[..n][k] == x.route[k];
    }
  }

  /** `e` itself has a lease on the entry in `c`. */
  ghost predicate Holds(s: Sys, e: nat, c: seq<nat>) {
    exists l :: 0 <= l < |s.leases| && !s.leases[l].released && s.leases[l].owner == Hop(e) && c == [s.leases[l].entry]
  }

  /** Going down from `e` meets the very entries it has its leases on. */
  ghost predicate RidesOnItsLeases(s: Sys, e: nat)
    requires e < |s.table.entries| && forall k ::
      0 <= k < |s.table.entries[e].held| ==> s.table.entries[e].held[k] < |s.leases|
  {
    var held := s.table.entries[e].held;
    forall j :: 0 <= j < |held| ==> Ride(s, e, j) == [s.leases[held[|held| - 1 - j]].entry]
  }

  lemma HeldAt(s: Sys, e: nat, l: nat) returns (m: nat)
    requires Links(s.table.entries, s.leases, s.jobs) && e < |s.table.entries| && s.table.entries[e].phase == Live
    requires l < |s.leases| && !s.leases[l].released && s.leases[l].owner == Hop(e)
    ensures m < |s.table.entries[e].held| && s.table.entries[e].held[m] == l
  {
    hide LeasesOk, JobsOk, BorrowOk, HeldOk;
    assert l in s.table.entries[e].held;
    m :| m < |s.table.entries[e].held| && s.table.entries[e].held[m] == l;
  }

  /** A lease on what is met `j` down is the lease on that very hop. */
  lemma HoldMeansLease(s: Sys, e: nat, j: nat)
    requires Inv(s) && HopsCarried(s.table.entries) && PlainRoutes(s.table.entries)
    requires e < |s.table.entries| && s.table.entries[e].phase == Live && s.table.entries[e].asTarget
    requires j < |s.table.entries[e].route| && Holds(s, e, Ride(s, e, j))
    ensures var held := s.table.entries[e].held;
            |held| == |s.table.entries[e].route| && held[|held| - 1 - j] < |s.leases|
                && Ride(s, e, j) == [s.leases[held[|held| - 1 - j]].entry]
  {
    hide RefsOk, MapOk, SweepOk, EntriesOk, HopsCarried, Ride, BorrowOk, JobsOk, OwnersOk;
    var x := s.table.entries[e];
    var k := |x.route| - 1 - j;
    assert OnHops(s.table.entries, s.leases, x.held, e, x.key.userId, x.route);
    var l :| 0 <= l < |s.leases| && !s.leases[l].released && s.leases[l].owner == Hop(e)
        && Ride(s, e, j) == [s.leases[l].entry];
    var m := HeldAt(s, e, l);
    RideIs(s, e, j);
    SameHop(x.key.userId, x.route, m, k);
  }

  lemma SameHop(user: string, route: seq<string>, m: nat, k: nat)
    requires PlainIds(route) && m < |route| && k < |route|
      && PathKey(user, route[..m], route[m]) == PathKey(user, route[..k], route[k])
    ensures m == k
  {
    PathKeyInjective(user, route[..m], route[m], user, route[..k], route[k]);
    assert |route[..m]| == m && |route[..k]| == k;
  }

  /** Each hop that was leased had been dialled through the hop leased just before it. */
  ghost predicate DialledThroughLeases(s: Sys, e: nat)
    requires e < |s.table.entries|
    requires var held := s.table.entries[e].held;
             forall k :: 0 <= k < |held| ==> held[k] < |s.leases| && s.leases[held[k]].entry < |s.table.entries|
  {
    var held := s.table.entries[e].held;
    forall k :: 1 <= k < |held| ==> CarrierOf(s, s.leases[held[k]].entry) == [s.leases[held[k - 1]].entry]
  }

  /** One step further down is what carries what was met last. */
  lemma {:induction false} RideNext(s: Sys, e: nat, j: nat, c: nat)
    requires Ride(s, e, j) == [c] && c < |s.table.entries|
    ensures Ride(s, e, j + 1) == CarrierOf(s, c)
    decreases j
  {
    hide CarrierOf;
    if j > 0 && e < |s.table.entries| { RideNext(s, CarrierOf(s, e)[0], j - 1, c); }
  }

  /** The hops leased, from the `k`-th up, are met on the way down. */
  lemma {:induction false} RidesDown(s: Sys, e: nat, j: nat)
    requires e < |s.table.entries| && s.table.entries[e].asTarget && j < |s.table.entries[e].held|
    requires var held := s.table.entries[e].held;
             forall k :: 0 <= k < |held| ==> held[k] < |s.leases| && s.leases[held[k]].entry < |s.table.entries|
    requires DialledThroughLeases(s, e)
    ensures var held := s.table.entries[e].held; Ride(s, e, j) == [s.leases[held[|held| - 1 - j]].entry]
    decreases j
  {
    var held := s.table.entries[e].held;
    if j > 0 {
      RidesDown(s, e, j - 1);
      RideNext(s, e, j - 1, s.leases[held[|held| - j]].entry);
    }
  }

  lemma RidesIffDialled(s: Sys, e: nat)
    requires e < |s.table.entries| && s.table.entries[e].asTarget
    requires var held := s.table.entries[e].held;
             forall k :: 0 <= k < |held| ==> held[k] < |s.leases| && s.leases[held[k]].entry < |s.table.entries|
    ensures RidesOnItsLeases(s, e) <==> DialledThroughLeases(s, e)
  {
    hide CarrierOf, Ride;
    var held := s.table.entries[e].held;
    var n := |held| - 1;
    if DialledThroughLeases(s, e) {
      forall j | 0 <= j < |held| ensures Ride(s, e, j) == [s.leases[held[|held| - 1 - j]].entry] { RidesDown(s, e, j); }
      assert RidesOnItsLeases(s, e);
    } else if RidesOnItsLeases(s, e) {
      forall k | 1 <= k < |held| ensures CarrierOf(s, s.leases[held[k]].entry) == [s.leases[held[k - 1]].entry] {
        var j := n - k;
        assert Ride(s, e, j) == [s.leases[held[|held| - 1 - j]].entry];
        assert Ride(s, e, j + 1) == [s.leases[held[|held| - 1 - (j + 1)]].entry];
        RideNext(s, e, j, s.leases[held[k]].entry);
      }
    }
  }

  /** `e` has a lease of its own on everything it rides on. */
  ghost predicate HoldsItsWay(s: Sys, e: nat)
    requires e < |s.table.entries|
  {
    forall j :: 0 <= j < |s.table.entries[e].route| ==> Holds(s, e, Ride(s, e, j))
  }

  lemma HeldWay(s: Sys, e: nat)
    requires Inv(s) && HopsCarried(s.table.entries) && PlainRoutes(s.table.entries)
    requires e < |s.table.entries| && s.table.entries[e].phase == Live && s.table.entries[e].asTarget
      && HoldsItsWay(s, e)
    requires var x := s.table.entries[e]; |x.held| == |x.route| && forall k ::
      0 <= k < |x.held| ==> x.held[k] < |s.leases|
    ensures RidesOnItsLeases(s, e)
  {
    hide Inv, HopsCarried, PlainRoutes, Holds, Ride;
    var x := s.table.entries[e];
    forall j | 0 <= j < |x.held| ensures Ride(s, e, j) == [s.leases[x.held[|x.held| - 1 - j]].entry] {
      assert Holds(s, e, Ride(s, e, j));
      HoldMeansLease(s, e, j);
    }
  }

  lemma LeasedWay(s: Sys, e: nat)
    requires Links(s.table.entries, s.leases, s.jobs) && e < |s.table.entries| && s.table.entries[e].phase == Live
    requires var x := s.table.entries[e]; |x.held| == |x.route| && forall k ::
      0 <= k < |x.held| ==> x.held[k] < |s.leases| && !s.leases[x.held[k]].released
    requires RidesOnItsLeases(s, e)
    ensures HoldsItsWay(s, e)
  {
    hide Links, Ride;
    var x := s.table.entries[e];
    forall j | 0 <= j < |x.route| ensures Holds(s, e, Ride(s, e, j)) {
      OwnLease(s, e, |x.held| - 1 - j);
    }
  }

  lemma OpenWay(s: Sys, e: nat, j: nat)
    requires e < |s.table.entries| && j < |s.table.entries[e].route|
    requires var x := s.table.entries[e];
             |x.held| == |x.route| && forall k :: 0 <= k < |x.held| ==>
                 ValidLease(s, x.held[k]) && s.table.entries[s.leases[x.held[k]].entry].closes == 0
    requires RidesOnItsLeases(s, e)
    ensures |Ride(s, e, j)| == 1 && Ride(s, e, j)[0] < |s.table.entries|
      && s.table.entries[Ride(s, e, j)[0]].closes == 0
  {
    hide Ride;
    var held := s.table.entries[e].held;
    assert Ride(s, e, j) == [s.leases[held[|held| - 1 - j]].entry];
    assert ValidLease(s, held[|held| - 1 - j]);
  }

  /**
   A target that is up holds everything it rides on exactly when each hop it leased had been dialled
   through the hop leased just before it, which can be seen when the lease is taken; and then, while the
   pool is open, nothing it rides on has been closed.
   */
  lemma HoldsItsWayExactly(run: seq<Sys>, steps: seq<Step>, i: nat, e: nat)
    requires IsRun(run, steps) && i < |run| && PlainRoutes(run[i].table.entries) && e < |run[i].table.entries|
    requires var x := run[i].table.entries[e]; x.phase == Live && x.asTarget && x.closes == 0
    ensures var s := run[i];
            var x := s.table.entries[e];
            && |x.held| == |x.route|
            && (forall k ::
                0 <= k < |x.held| ==> x.held[k] < |s.leases| && s.leases[x.held[k]].entry < |s.table.entries|)
            && (HoldsItsWay(s, e) <==> DialledThroughLeases(s, e))
            && (HoldsItsWay(s, e) && !s.table.closed ==>
                  forall j :: 0 <= j < |x.route| ==>
                    |Ride(s, e, j)| == 1 && Ride(s, e, j)[0] < |s.table.entries|
                        && s.table.entries[Ride(s, e, j)[0]].closes == 0)
  {
    hide Apply, Enabled, IsRun, Links, RefsOk, MapOk, EntriesOk, SweepOk, HopsCarried, Ride, HoldsItsWay,
         RidesOnItsLeases, PlainRoutes,
         DialledThroughLeases;
    Always(run, steps, i);
    AlwaysCarried(run, steps, i);
    HoldsEveryHop(run, steps, i, e);
    var s := run[i];
    var x := s.table.entries[e];
    RidesIffDialled(s, e);
    if HoldsItsWay(s, e) { HeldWay(s, e); }
    if RidesOnItsLeases(s, e) {
      LeasedWay(s, e);
      if !s.table.closed {
        forall j | 0 <= j < |x.route|
          ensures |Ride(s, e, j)| == 1 && Ride(s, e, j)[0] < |s.table.entries|
            && s.table.entries[Ride(s, e, j)[0]].closes == 0
        {
          OpenWay(s, e, j);
        }
      }
    }
  }

  lemma OwnLease(s: Sys, e: nat, k: nat)
    requires Links(s.table.entries, s.leases, s.jobs) && e < |s.table.entries| && s.table.entries[e].phase == Live
      && k < |s.table.entries[e].held|
    ensures s.table.entries[e].held[k] < |s.leases| && s.leases[s.table.entries[e].held[k]].owner == Hop(e)
  {
    var x := s.table.entries[e];
    assert OnHops(s.table.entries, s.leases, x.held, e, x.key.userId, x.route);
  }

  // It need not.

  /** The stranded pool, once `t` has been asked for again. */
  lemma AskAgain(u: string, a: string, b: string, t: string) returns (run: seq<Sys>, steps: seq<Step>)
    requires PlainIds([a, b, t])
    ensures IsRun(run, steps)
    ensures var s := Stranded(u, a, b, t);
            var T, A := NewEntry(PathKey(u, [a, b], t), 2, [a, b], true, []),
                NewEntry(PathKey(u, [], a), 2, [], false, []);
            run[|run| - 1] == Sys(Table(map[PathKey(u, [a], b) := 2, T.key := 3, A.key := 4],
                                        s.table.entries + [T, A.(phase := Live, liveAt := 3)], false),
                                  s.leases + [Lease(4, Hop(3), false)],
                                      [Gone, Gone, Route(3, u, [a, b], [4], Between)], [], 4)
  {
    DistinctKeys(u, a, b, t);
    run, steps := ReachStranded(u, a, b, t);
    var s := Stranded(u, a, b, t);
    var T, A := NewEntry(PathKey(u, [a, b], t), 2, [a, b], true, []), NewEntry(PathKey(u, [], a), 2, [], false, []);
    run, steps := Go(run, steps, Call(u, [a, b], t));
    var s1 := s.(table := Table(s.table.conns[T.key := 3], s.table.entries + [T], false), jobs :=
        [Gone, Gone, Route(3, u, [a, b], [], Between)]);
    assert run[|run| - 1] == s1;
    run, steps := Go(run, steps, NextHop(2));
    assert [a, b][..0] == [];
    var s2 := s1.(table := Table(s1.table.conns[A.key := 4], s1.table.entries + [A], false), jobs :=
        [Gone, Gone, Route(3, u, [a, b], [], DialingHop(4))]);
    assert run[|run| - 1] == s2;
    run, steps := Go(run, steps, HopDialled(2, true));
    var s3 := run[|run| - 1];
    assert s3.table.entries == s.table.entries + [T, A.(phase := Live, liveAt := 3)];
    assert s3.jobs == [Gone, Gone, Route(3, u, [a, b], [4], Between)] by { assert [] + [4] == [4]; }
    assert s3.leases == s.leases + [Lease(4, Hop(3), false)];
  }

  /**
   The route to `t` leased a new connection to the outer bastion, but joined the old one to the inner
   bastion, whose own carrier has been closed: the target is up, holds a lease on every hop, and rides
   on a closed connection.
   */
  lemma RidesOnClosed(u: string, a: string, b: string, t: string) returns (run: seq<Sys>, steps: seq<Step>, e: nat)
    requires PlainIds([a, b, t])
    ensures IsRun(run, steps) && e < |run[|steps|].table.entries|
    ensures var s := run[|steps|];
            var x := s.table.entries[e];
            && !s.table.closed && x.phase == Live && x.asTarget && x.closes == 0 && x.route == [a, b]
            && Ride(s, e, 0) == [2] && Ride(s, e, 1) == [1] && |s.table.entries| == 5 && s.table.entries[1].closes == 1
            && |x.held| == 2 && x.held[0] < |s.leases| && s.leases[x.held[0]] == Lease(4, Hop(e), false)
                && s.table.entries[4].closes == 0
  {
    DistinctKeys(u, a, b, t);
    run, steps := AskAgain(u, a, b, t);
    var s := run[|run| - 1];
    run, steps := Go(run, steps, NextHop(2));
    assert [a, b][..1] == [a];
    var B := s.table.entries[2];
    var s1 := s.(table := s.table.(entries := s.table.entries[2 := B.(refs := 2)]), jobs :=
        [Gone, Gone, Route(3, u, [a, b], [4], AwaitingHop(2))]);
    assert run[|run| - 1] == s1;
    run, steps := Go(run, steps, HopReady(2));
    var s2 := s1.(leases := s1.leases + [Lease(2, Hop(3), false)], jobs :=
        [Gone, Gone, Route(3, u, [a, b], [4, 5], Between)]);
    assert [4] + [5] == [4, 5];
    assert run[|run| - 1] == s2;
    run, steps := Go(run, steps, TargetDialled(2));
    e := 3;
    var s3 := run[|run| - 1];
    assert s3.table.entries[3].held == [4, 5] && s3.leases[5] == Lease(2, Hop(3), false)
        && s3.leases[4] == Lease(4, Hop(3), false);
    assert CarrierOf(s3, 3) == [2] && CarrierOf(s3, 2) == [1];
    assert Ride(s3, 2, 0) == [1];
  }
}
