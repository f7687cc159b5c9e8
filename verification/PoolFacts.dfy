/** What the pool promises its callers, in every run. */
module PoolFacts {
  import opened ConnKeys
  import opened PoolTable
  import opened PoolRun
  import opened PoolInv

  /** References are exactly the dial in flight, the waiters and the unreleased leases. */
  lemma Accounting(run: seq<Sys>, steps: seq<Step>, i: nat, e: nat)
    requires IsRun(run, steps) && i < |run| && e < |run[i].table.entries|
    ensures var x := run[i].table.entries[e];
            && (!x.evicted <==> x.key in run[i].table.conns && run[i].table.conns[x.key] == e)
            && (x.phase != Failed ==> x.refs == JobRefs(run[i].jobs, e) + LeaseRefs(run[i].leases, e) && x.refs >= 0)
  {
    Always(run, steps, i);
    hide Links, EntriesOk, SweepOk;
    var _ := InMap(run[i].table, e);
  }

  /** How a step can change the list of entries: a new entry is for a free key, and no dial starts again. */
  ghost predicate Grew(t: Table, t': Table) {
    && (|t'.entries| == |t.entries|
        || (|t'.entries| == |t.entries| + 1 && !t.closed && t'.entries[|t.entries|].key !in t.conns))
    && forall e :: 0 <= e < |t.entries| ==>
         t'.entries[e].key == t.entries[e].key && (t'.entries[e].phase == Dialing ==> t.entries[e].phase == Dialing)
  }

  lemma ReleaseGrew(s: Sys, l: nat)
    requires ValidLease(s, l)
    ensures Grew(s.table, ReleaseLease(s, l).table) && |ReleaseLease(s, l).table.entries| == |s.table.entries|
  {
  }

  lemma EnterGrew(t: Table, user: string, route: seq<string>, id: string, p: nat, asTarget: bool, through: seq<nat>)
    requires MapOk(t)
    ensures Grew(t, Enter(t, user, route, id, p, asTarget, through).0)
  {
  }

  lemma RunGrew(s: Sys, e: nat, r: Progress)
    requires ValidEntry(s, e) && CanRun(s, e, r)
    ensures Grew(s.table, RunOne(s, e, r).0.table) && |RunOne(s, e, r).0.table.entries| == |s.table.entries|
  {
    if r.Returning? && r.left > 0 { ReleaseGrew(s, s.table.entries[e].held[r.left - 1]); }
  }

  lemma TearGrew(s: Sys, a: Step)
    requires Enabled(s, a) && (a.TearDown? || a.SweepNext?)
    ensures Grew(s.table, Apply(s, a).table)
  {
    hide RunOne;
    if a.TearDown? {
      RunGrew(s, a.e, s.table.entries[a.e].byRelease);
    } else {
      RunGrew(s, s.sweep[0], s.table.entries[s.sweep[0]].byClose);
    }
  }

  /** Steps that change one entry, or all of them at once. */
  lemma PlainGrew(s: Sys, a: Step)
    requires Enabled(s, a) && !a.Call? && !a.NextHop? && !a.GiveBack? && !a.CallerReleases? && !a.TearDown?
      && !a.SweepNext?
    ensures Grew(s.table, Apply(s, a).table)
  {
    hide Enter, RunOne, ReleaseLease;
  }

  lemma StepGrew(s: Sys, a: Step)
    requires Enabled(s, a) && MapOk(s.table)
    ensures Grew(s.table, Apply(s, a).table)
  {
    hide MapOk, Enter, Grew, RunOne, ReleaseLease;
    match a {
      case Call(user, hops, id) =>
        EnterGrew(s.table, user, hops, id, |s.jobs|, true, []);
        GrewNothing(s.table);
      case NextHop(p) =>
        var j := s.jobs[p];
        EnterGrew(s.table, j.user, j.hops[..|j.got|], j.hops[|j.got|], p, false, Through(s, j.got));
        GrewNothing(s.table);
      case GiveBack(p) =>
        ReleaseGrew(s, s.jobs[p].got[|s.jobs[p].got| - 1]);
      case CallerReleases(l) =>
        ReleaseGrew(s, l);
      case TearDown(_) => TearGrew(s, a);
      case SweepNext => TearGrew(s, a);
      case _ => PlainGrew(s, a);
    }
  }

  lemma GrewNothing(t: Table)
    ensures Grew(t, t)
  {
  }

  ghost predicate DialsDiffer(t: Table) {
    forall e, f :: 0 <= e < f < |t.entries| && t.entries[e].phase == Dialing && t.entries[f].phase == Dialing ==>
      t.entries[e].key != t.entries[f].key
  }

  lemma DialsKept(t: Table, t': Table)
    requires DialsDiffer(t) && Grew(t, t') && MapOk(t)
    requires forall e :: 0 <= e < |t.entries| && t.entries[e].phase == Dialing && !t.closed ==> !t.entries[e].evicted
    ensures DialsDiffer(t')
  {
    forall e, f | 0 <= e < f < |t'.entries| && t'.entries[e].phase == Dialing && t'.entries[f].phase == Dialing
      ensures t'.entries[e].key != t'.entries[f].key
    {
      assert t.entries[e].phase == Dialing;
      var _ := InMap(t, e);
    }
  }

  lemma DialsMarked(s: Sys)
    requires EntriesOk(s)
    ensures forall e :: 0 <= e < |s.table.entries| && s.table.entries[e].phase == Dialing && !s.table.closed ==>
              !s.table.entries[e].evicted
  {
  }

  lemma {:induction false} DialsAlwaysDiffer(run: seq<Sys>, steps: seq<Step>, i: nat)
    requires IsRun(run, steps) && i < |run|
    ensures DialsDiffer(run[i].table)
  {
    hide Apply, Enabled, Links, RefsOk, SweepOk, EntriesOk, MapOk, Grew;
    if i > 0 {
      DialsAlwaysDiffer(run, steps, i - 1);
      Always(run, steps, i - 1);
      StepGrew(run[i - 1], steps[i - 1]);
      DialsMarked(run[i - 1]);
      DialsKept(run[i - 1].table, run[i].table);
    }
  }

  /** At most one dial per key is in flight. */
  lemma OneDialPerKey(run: seq<Sys>, steps: seq<Step>, i: nat, e: nat, f: nat)
    requires IsRun(run, steps) && i < |run| && e < |run[i].table.entries| && f < |run[i].table.entries|
    requires run[i].table.entries[e].phase == Dialing && run[i].table.entries[f].phase == Dialing
    requires run[i].table.entries[e].key == run[i].table.entries[f].key
    ensures e == f
  {
    hide Apply, Enabled;
    DialsAlwaysDiffer(run, steps, i);
  }

  /**
   While the pool is open a client is closed once at most, only when nobody holds the entry,
   and is never handed out again; it is closed exactly once when its tear-down has finished.
   */
  lemma ClosedOnceAtZero(run: seq<Sys>, steps: seq<Step>, i: nat, e: nat)
    requires IsRun(run, steps) && i < |run| && e < |run[i].table.entries| && !run[i].table.closed
    ensures var s := run[i];
            var x := s.table.entries[e];
            && x.closes <= 1
            && (x.closes == 1 || x.byRelease != Idle ==>
                  x.phase == Live && x.evicted && JobRefs(s.jobs, e) == 0 && LeaseRefs(s.leases, e) == 0)
            && (x.byRelease == Finished ==> x.closes == 1)
            && (forall l :: 0 <= l < |s.leases| && !s.leases[l].released && s.leases[l].entry == e ==>
                  x.phase == Live && x.closes == 0)
  {
    hide Apply, Enabled;
    Always(run, steps, i);
    var s := run[i];
    assert EntryOk(s.table.entries[e], false, s.tick);
    forall l | 0 <= l < |s.leases| && !s.leases[l].released && s.leases[l].entry == e
      ensures s.table.entries[e].phase == Live && s.table.entries[e].refs > 0
    {
      LeaseRefsMember(s.leases, l, e);
    }
  }

  /**
   A connection dialled as the target of a route holds one unreleased lease on the entry of
   every hop, in route order, until its own client is closed.
   */
  lemma HoldsEveryHop(run: seq<Sys>, steps: seq<Step>, i: nat, e: nat)
    requires IsRun(run, steps) && i < |run| && e < |run[i].table.entries|
    requires var x := run[i].table.entries[e]; x.phase == Live && x.asTarget && x.closes == 0
    ensures var s := run[i];
            var x := s.table.entries[e];
            && |x.held| == |x.route|
            && forall k :: 0 <= k < |x.route| ==>
                 && ValidLease(s, x.held[k]) && !s.leases[x.held[k]].released
                 && var h := s.table.entries[s.leases[x.held[k]].entry];
                    && h.key == PathKey(x.key.userId, x.route[..k], x.route[k])
                    && h.phase == Live && h.refs >= 1
                    && (!s.table.closed ==> h.closes == 0)
  {
    hide Apply, Enabled;
    Always(run, steps, i);
    var s := run[i];
    var x := s.table.entries[e];
    assert EntryOk(x, s.table.closed, s.tick);
    forall k | 0 <= k < |x.held|
      ensures ValidLease(s, x.held[k]) && !s.leases[x.held[k]].released
      ensures s.table.entries[s.leases[x.held[k]].entry].refs >= 1
    {
      assert OnHops(s.table.entries, s.leases, x.held, e, x.key.userId, x.route);
      LeaseRefsMember(s.leases, x.held[k], s.leases[x.held[k]].entry);
      assert EntryOk(s.table.entries[s.leases[x.held[k]].entry], s.table.closed, s.tick);
    }
  }

  /**
   And only those do: whatever was dialled as a hop holds nothing, so that it holds its hops only where it has none.
   */
  lemma HoldsHopsExactly(run: seq<Sys>, steps: seq<Step>, i: nat, e: nat)
    requires IsRun(run, steps) && i < |run| && e < |run[i].table.entries| && run[i].table.entries[e].phase == Live
    ensures var x := run[i].table.entries[e];
            |x.held| == |x.route| <==> x.asTarget || x.route == []
    ensures var s := run[i];
            var x := s.table.entries[e];
            x.closes == 0 ==>
              ((forall k :: 0 <= k < |x.route| ==>
                  exists l :: 0 <= l < |s.leases| && !s.leases[l].released && s.leases[l].owner == Hop(e)
                              && s.leases[l].entry < |s.table.entries|
                              && s.table.entries[s.leases[l].entry].key
                                  == PathKey(x.key.userId, x.route[..k], x.route[k]))
               <==> x.asTarget || x.route == [])
  {
    hide Apply, Enabled, RefsOk, SweepOk;
    Always(run, steps, i);
    var s := run[i];
    var x := s.table.entries[e];
    if x.closes == 0 && x.asTarget {
      HoldsEveryHop(run, steps, i, e);
      forall k | 0 <= k < |x.route|
        ensures exists l :: 0 <= l < |s.leases| && !s.leases[l].released && s.leases[l].owner == Hop(e)
                            && s.leases[l].entry < |s.table.entries|
                            && s.table.entries[s.leases[l].entry].key == PathKey(x.key.userId, x.route[..k], x.route[k])
      {
        assert OnHops(s.table.entries, s.leases, x.held, e, x.key.userId, x.route);
        var l := x.held[k];
        assert s.leases[l].owner == Hop(e);
      }
    } else if !x.asTarget && x.route != [] {
      forall l | 0 <= l < |s.leases| && !s.leases[l].released && s.leases[l].owner == Hop(e) ensures false
      { NoHopLease(s, e, l); }
    }
  }

  lemma NoHopLease(s: Sys, e: nat, l: nat)
    requires Inv(s) && e < |s.table.entries| && s.table.entries[e].phase == Live && !s.table.entries[e].asTarget
    requires l < |s.leases| && !s.leases[l].released
    ensures s.leases[l].owner != Hop(e)
  {
    hide RefsOk, SweepOk, MapOk, EntriesOk;
  }

  /** The leases go back innermost first, and only once the client that rode on them is closed. */
  lemma ReturnedInnermostFirst(run: seq<Sys>, steps: seq<Step>, i: nat, e: nat, a: nat, b: nat)
    requires IsRun(run, steps) && i < |run| && e < |run[i].table.entries| && run[i].table.entries[e].phase == Live
    requires a < b < |run[i].table.entries[e].held|
    ensures var s := run[i];
            var x := s.table.entries[e];
            && x.held[a] < |s.leases| && x.held[b] < |s.leases| && x.held[a] != x.held[b]
            && (s.leases[x.held[a]].released ==> s.leases[x.held[b]].released)
            && (s.leases[x.held[b]].released ==> x.closes >= 1)
            && (x.byRelease == Finished ==> s.leases[x.held[a]].released && s.leases[x.held[b]].released)
  {
    hide Apply, Enabled, RefsOk, MapOk, SweepOk;
    Always(run, steps, i);
    var s := run[i];
    var x := s.table.entries[e];
    assert EntryOk(x, s.table.closed, s.tick);
    assert OnHops(s.table.entries, s.leases, x.held, e, x.key.userId, x.route);
  }

  /** A lease never changes hands, and what has been given back stays given back. */
  ghost predicate Kept(L: seq<Lease>, L': seq<Lease>) {
    |L| <= |L'| && forall l :: 0 <= l < |L| ==>
      L'[l].entry == L[l].entry && L'[l].owner == L[l].owner && (L[l].released ==> L'[l].released)
  }

  lemma {:induction false} GivenBackForGood(run: seq<Sys>, steps: seq<Step>, i: nat, j: nat)
    requires IsRun(run, steps) && i <= j < |run|
    ensures Kept(run[i].leases, run[j].leases)
  {
    hide Apply, Enabled;
    if i < j {
      GivenBackForGood(run, steps, i, j - 1);
      StepLeases(run[j - 1], steps[j - 1]);
    }
  }

  lemma StepLeases(s: Sys, a: Step)
    requires Enabled(s, a)
    ensures Kept(s.leases, Apply(s, a).leases)
  {
    hide Enter, Drop, Finish, Watch, Shut;
  }

  // Nothing is left behind.

  /** No caller lease, waiter, dial or tear-down remains. */
  ghost predicate Quiescent(s: Sys) {
    && (forall p :: 0 <= p < |s.jobs| ==> s.jobs[p] == Gone)
    && (forall l :: 0 <= l < |s.leases| && s.leases[l].owner == Caller ==> s.leases[l].released)
    && (forall e :: 0 <= e < |s.table.entries| ==> !s.table.entries[e].byRelease.Busy())
    && s.sweep == []
  }

  lemma {:induction false} SomeLease(leases: seq<Lease>, e: nat) returns (l: nat)
    requires LeaseRefs(leases, e) > 0
    ensures l < |leases| && leases[l].entry == e && !leases[l].released
  {
    if LeaseHolds(leases[|leases| - 1], e) > 0 { l := |leases| - 1; }
    else { l := SomeLease(leases[..|leases| - 1], e); }
  }

  /** Whatever still holds a reference is itself still referenced, by something that went live later. */
  lemma {:induction false} NobodyHolds(s: Sys, e: nat)
    requires Inv(s) && Quiescent(s) && e < |s.table.entries| && s.table.entries[e].phase == Live
    ensures s.table.entries[e].refs == 0
    decreases s.tick - s.table.entries[e].liveAt
  {
    hide MapOk;
    assert EntryOk(s.table.entries[e], s.table.closed, s.tick);
    NoJobRefs(s.jobs, e);
    if LeaseRefs(s.leases, e) > 0 {
      var l := SomeLease(s.leases, e);
      var t := HolderOf(s, l);
      NobodyHolds(s, t);
    }
  }

  /** In a quiescent state an unreleased lease belongs to a connection whose tear-down never began. */
  lemma HolderOf(s: Sys, l: nat) returns (t: nat)
    requires Inv(s) && Quiescent(s) && l < |s.leases| && !s.leases[l].released
    ensures t < |s.table.entries| && s.table.entries[t].phase == Live && s.table.entries[t].refs > 0
    ensures s.leases[l].entry < |s.table.entries|
    ensures s.table.entries[s.leases[l].entry].liveAt < s.table.entries[t].liveAt
    ensures s.table.entries[t].liveAt < s.tick
  {
    hide MapOk, RefsOk;
    t := s.leases[l].owner.target;
    assert EntryOk(s.table.entries[t], s.table.closed, s.tick);
    var i :| 0 <= i < |s.table.entries[t].held| && s.table.entries[t].held[i] == l;
    assert !s.table.entries[t].byRelease.Gave(i);
  }

  /**
   No leak at quiescence: the map is empty, every lease ever taken has been given back, and
   every client that was ever opened has been closed (once, unless the pool itself was closed).
   */
  lemma NothingLeft(run: seq<Sys>, steps: seq<Step>, i: nat)
    requires IsRun(run, steps) && i < |run| && Quiescent(run[i])
    ensures run[i].table.conns == map[]
    ensures forall l :: 0 <= l < |run[i].leases| ==> run[i].leases[l].released
    ensures forall e :: 0 <= e < |run[i].table.entries| ==>
              var x := run[i].table.entries[e];
              x.phase != Dialing
                  && (x.phase == Live ==> x.refs == 0 && x.closes >= 1 && (!run[i].table.closed ==> x.closes == 1))
  {
    hide Apply, Enabled;
    var s := run[i];
    Always(run, steps, i);
    forall e | 0 <= e < |s.table.entries|
      ensures var x := s.table.entries[e];
              x.phase != Dialing && x.evicted
              && (x.phase == Live ==> x.refs == 0 && x.closes >= 1 && (!s.table.closed ==> x.closes == 1))
    {
      assert EntryOk(s.table.entries[e], s.table.closed, s.tick);
      if s.table.entries[e].phase == Live { NobodyHolds(s, e); }
    }
    assert forall k :: k in s.table.conns ==> InMap(s.table, s.table.conns[k]);
    forall l | 0 <= l < |s.leases| ensures s.leases[l].released {
      LeaseRefsMember(s.leases, l, s.leases[l].entry);
      NobodyHolds(s, s.leases[l].entry);
    }
  }

  // Closing the pool.

  /** Close disconnects a connection before any hop it was reached through. */
  lemma DeepestFirst(run: seq<Sys>, steps: seq<Step>, i: nat, order: seq<nat>, e: nat, k: nat, a: nat, b: nat)
    requires IsRun(run, steps) && i < |steps| && steps[i] == Close(order)
    requires e < |run[i].table.entries| && run[i].table.entries[e].phase == Live && k < |run[i].table.entries[e].held|
    requires PlainIds(run[i].table.entries[e].route)
    requires a < |order| && b < |order| && order[a] == e
    requires run[i].table.entries[e].held[k] < |run[i].leases|
      && order[b] == run[i].leases[run[i].table.entries[e].held[k]].entry
    ensures a < b
  {
    hide Apply, Links, RefsOk, MapOk, SweepOk;
    Always(run, steps, i);
    var s := run[i];
    var x := s.table.entries[e];
    assert EntryOk(x, s.table.closed, s.tick);
    assert Enabled(s, steps[i]);
    HopKeyOf(s, e, k);
    DepthIsRouteLength(x.key.userId, x.route, x.key.sessionId);
    DepthIsRouteLength(x.key.userId, x.route[..k], x.route[k]);
  }

  lemma HopKeyOf(s: Sys, e: nat, k: nat)
    requires Links(s.table.entries, s.leases, s.jobs) && e < |s.table.entries| && s.table.entries[e].phase == Live
    requires k < |s.table.entries[e].held|
    ensures k < |s.table.entries[e].route| && ValidLease(s, s.table.entries[e].held[k])
    ensures var x := s.table.entries[e];
            s.table.entries[s.leases[x.held[k]].entry].key == PathKey(x.key.userId, x.route[..k], x.route[k])
  {
    assert OnHops(s.table.entries, s.leases, s.table.entries[e].held, e, s.table.entries[e].key.userId,
        s.table.entries[e].route);
  }

  // Why a connection must have been dialled as the target.

  lemma Go(run: seq<Sys>, steps: seq<Step>, a: Step) returns (run': seq<Sys>, steps': seq<Step>)
    requires IsRun(run, steps) && Enabled(run[|run| - 1], a)
    ensures IsRun(run', steps') && |run'| > 0 && run'[|run'| - 1] == Apply(run[|run| - 1], a)
    ensures run <= run' && steps' == steps + [a]
  {
    hide Apply, Enabled;
    run', steps' := run + [Apply(run[|run| - 1], a)], steps + [a];
  }

  /** The pool once `t` has been reached through bastions `a` and `b`. */
  ghost function Reached(u: string, a: string, b: string, t: string): Sys {
    var kT, kA, kB := PathKey(u, [a, b], t), PathKey(u, [], a), PathKey(u, [a], b);
    Sys(Table(map[kT := 0, kA := 1, kB := 2],
              [Entry(kT, 1, false, Live, [0, 1], 0, Idle, Idle, 0, [a, b], true, 2, []),
               Entry(kA, 1, false, Live, [], 0, Idle, Idle, 0, [], false, 0, []),
               Entry(kB, 1, false, Live, [], 0, Idle, Idle, 0, [a], false, 1, [1])], false),
        [Lease(1, Hop(0), false), Lease(2, Hop(0), false), Lease(0, Caller, false)], [Gone], [], 3)
  }

  /** A run that dialled the outer bastion as a hop of the route to `t`. */
  lemma ReachOuter(u: string, a: string, b: string, t: string) returns (run: seq<Sys>, steps: seq<Step>)
    requires PlainIds([a, b, t])
    ensures IsRun(run, steps)
    ensures run[|run| - 1] == Sys(Table(map[PathKey(u, [a, b], t) := 0, PathKey(u, [], a) := 1],
                                        [NewEntry(PathKey(u, [a, b], t), 0, [a, b], true, []),
                                         NewEntry(PathKey(u, [], a), 0, [], false, []).(phase := Live)], false),
                                  [Lease(1, Hop(0), false)], [Route(0, u, [a, b], [0], Between)], [], 1)
  {
    var kT, kA := PathKey(u, [a, b], t), PathKey(u, [], a);
    DistinctKeys(u, a, b, t);
    var T, A := NewEntry(kT, 0, [a, b], true, []), NewEntry(kA, 0, [], false, []);
    run, steps := Go([Init], [], Call(u, [a, b], t));
    assert run[|run| - 1] == Sys(Table(map[kT := 0], [T], false), [], [Route(0, u, [a, b], [], Between)], [], 0);
    run, steps := Go(run, steps, NextHop(0));
    assert [a, b][..0] == [];
    assert run[|run| - 1]
        == Sys(Table(map[kT := 0, kA := 1], [T, A], false), [], [Route(0, u, [a, b], [], DialingHop(1))], [], 0);
    run, steps := Go(run, steps, HopDialled(0, true));
    var s := run[|run| - 1];
    assert s.table.entries == [T, A.(phase := Live)];
    assert s.jobs == [Route(0, u, [a, b], [0], Between)] by { assert [] + [0] == [0]; }
    assert s.leases == [Lease(1, Hop(0), false)];
  }

  lemma ReachTarget(u: string, a: string, b: string, t: string) returns (run: seq<Sys>, steps: seq<Step>)
    requires PlainIds([a, b, t])
    ensures IsRun(run, steps) && run[|run| - 1] == Reached(u, a, b, t)
  {
    var kT, kA, kB := PathKey(u, [a, b], t), PathKey(u, [], a), PathKey(u, [a], b);
    DistinctKeys(u, a, b, t);
    var T, A, B := NewEntry(kT, 0, [a, b], true, []), NewEntry(kA, 0, [], false, []).(phase := Live),
        NewEntry(kB, 0, [a], false, [1]);
    run, steps := ReachOuter(u, a, b, t);
    var l0, l1 := Lease(1, Hop(0), false), Lease(2, Hop(0), false);
    run, steps := Go(run, steps, NextHop(0));
    assert [a, b][..1] == [a];
    assert run[|run| - 1] == Sys(Table(map[kT := 0, kA := 1, kB := 2], [T, A, B], false), [l0],
                                 [Route(0, u, [a, b], [0], DialingHop(2))], [], 1);
    run, steps := Go(run, steps, HopDialled(0, true));
    var s := run[|run| - 1];
    assert s.table.entries == [T, A, B.(phase := Live, liveAt := 1)];
    assert s.jobs == [Route(0, u, [a, b], [0, 1], Between)] by { assert [0] + [1] == [0, 1]; }
    assert s.leases == [l0, l1];
    run, steps := Go(run, steps, TargetDialled(0));
    assert run[|run| - 1].table.entries == Reached(u, a, b, t).table.entries;
    assert run[|run| - 1].leases == Reached(u, a, b, t).leases;
  }

  lemma DistinctKeys(u: string, a: string, b: string, t: string)
    requires PlainIds([a, b, t])
    ensures PathKey(u, [a, b], t) != PathKey(u, [], a) && PathKey(u, [a, b], t) != PathKey(u, [a], b)
    ensures PathKey(u, [], a) != PathKey(u, [a], b)
  {
    assert [a, b, t][0] == a && [a, b, t][1] == b;
    PathKeyInjective(u, [a, b], t, u, [], a);
    PathKeyInjective(u, [a, b], t, u, [a], b);
    PathKeyInjective(u, [], a, u, [a], b);
  }

  /** A second caller joins the inner bastion's connection, and the first caller leaves. */
  lemma JoinInner(u: string, a: string, b: string, t: string) returns (run: seq<Sys>, steps: seq<Step>)
    requires PlainIds([a, b, t])
    ensures IsRun(run, steps)
    ensures var s0 := Reached(u, a, b, t);
            var T, A, B := s0.table.entries[0], s0.table.entries[1], s0.table.entries[2];
            run[|run| - 1] == Sys(Table(s0.table.conns - {T.key},
                                        [T.(refs := 0, evicted := true, byRelease := Closing), A, B.(refs := 2)],
                                            false),
                                  [Lease(1, Hop(0), false), Lease(2, Hop(0), false), Lease(0, Caller, true),
                                      Lease(2, Caller, false)],
                                  [Gone, Gone], [], 3)
  {
    DistinctKeys(u, a, b, t);
    run, steps := ReachTarget(u, a, b, t);
    var s0 := Reached(u, a, b, t);
    var T, A, B := s0.table.entries[0], s0.table.entries[1], s0.table.entries[2];
    run, steps := Go(run, steps, Call(u, [a], b));
    assert run[|run| - 1]
        == Sys(Table(s0.table.conns, [T, A, B.(refs := 2)], false), s0.leases, [Gone, Waiting(2)], [], 3);
    run, steps := Go(run, steps, WaiterWakes(1));
    assert run[|run| - 1].leases == s0.leases + [Lease(2, Caller, false)];
    assert run[|run| - 1].jobs == [Gone, Gone];
    run, steps := Go(run, steps, CallerReleases(2));
    assert run[|run| - 1].table.entries == [T.(refs := 0, evicted := true, byRelease := Closing), A, B.(refs := 2)];
    assert run[|run| - 1].leases
        == [Lease(1, Hop(0), false), Lease(2, Hop(0), false), Lease(0, Caller, true), Lease(2, Caller, false)];
  }

  /** The pool once the route's leases have gone back and the outer bastion's client is closed. */
  ghost function Stranded(u: string, a: string, b: string, t: string): Sys {
    var kT, kA, kB := PathKey(u, [a, b], t), PathKey(u, [], a), PathKey(u, [a], b);
    Sys(Table(map[kB := 2],
              [Entry(kT, 0, true, Live, [0, 1], 1, Returning(0), Idle, 0, [a, b], true, 2, []),
               Entry(kA, 0, true, Live, [], 1, Returning(0), Idle, 0, [], false, 0, []),
               Entry(kB, 1, false, Live, [], 0, Idle, Idle, 0, [a], false, 1, [1])], false),
        [Lease(1, Hop(0), true), Lease(2, Hop(0), true), Lease(0, Caller, true), Lease(2, Caller, false)],
            [Gone, Gone], [], 3)
  }

  /** The route has closed its own client and given back its lease on the inner bastion. */
  lemma GiveInnerBack(u: string, a: string, b: string, t: string) returns (run: seq<Sys>, steps: seq<Step>)
    requires PlainIds([a, b, t])
    ensures IsRun(run, steps)
    ensures var s := Stranded(u, a, b, t);
            var T, A := s.table.entries[0].(byRelease := Returning(1)), Reached(u, a, b, t).table.entries[1];
            run[|run| - 1]
                == s.(table :=
                s.table.(conns := map[s.table.entries[2].key := 2, A.key := 1], entries := [T, A, s.table.entries[2]]),
                                 leases := s.leases[0 := Lease(1, Hop(0), false)])
  {
    run, steps := JoinInner(u, a, b, t);
    DistinctKeys(u, a, b, t);
    var s := run[|run| - 1];
    var T, A, B, L := s.table.entries[0], s.table.entries[1], s.table.entries[2], s.leases;
    run, steps := Go(run, steps, TearDown(0));
    var T2 := T.(closes := 1, byRelease := Returning(2));
    assert run[|run| - 1] == s.(table := s.table.(entries := [T2, A, B]));
    run, steps := Go(run, steps, TearDown(0));
    assert run[|run| - 1].table.entries == [T2.(byRelease := Returning(1)), A, B.(refs := 1)];
    assert run[|run| - 1].leases == L[1 := Lease(2, Hop(0), true)];
    assert s.table.conns == map[B.key := 2, A.key := 1];
  }

  lemma ReachStranded(u: string, a: string, b: string, t: string) returns (run: seq<Sys>, steps: seq<Step>)
    requires PlainIds([a, b, t])
    ensures IsRun(run, steps) && run[|run| - 1] == Stranded(u, a, b, t)
  {
    run, steps := GiveInnerBack(u, a, b, t);
    DistinctKeys(u, a, b, t);
    var s := run[|run| - 1];
    var T, A, B := s.table.entries[0], s.table.entries[1], s.table.entries[2];
    run, steps := Go(run, steps, TearDown(0));
    assert run[|run| - 1].table.entries
        == [T.(byRelease := Returning(0)), A.(refs := 0, evicted := true, byRelease := Closing), B];
    run, steps := Go(run, steps, TearDown(1));
    assert run[|run| - 1].table.entries == Stranded(u, a, b, t).table.entries;
    assert run[|run| - 1].leases == Stranded(u, a, b, t).leases;
    assert run[|run| - 1].table.conns == map[B.key := 2];
  }

  /**
   A hop's own dial borrows nothing. So whoever joins the connection that a route opened to
   its inner bastion `b` may still be using it when the outer bastion `a`, which carries it,
   has been closed: the route's own leases are all that held `a`, and they go with the route.
   */
  lemma TransportLost(u: string, a: string, b: string, t: string) returns (run: seq<Sys>, steps: seq<Step>, i: nat)
    requires PlainIds([a, b, t])
    ensures IsRun(run, steps) && i < |run| && !run[i].table.closed
    ensures |run[i].table.entries| == 3 && |run[i].leases| == 4
    ensures var s := run[i];
            var outer, inner := s.table.entries[1], s.table.entries[2];
            && outer.key == PathKey(u, [], a) && inner.key == PathKey(u, [a], b) && inner.route == [a]
            && s.leases[3] == Lease(2, Caller, false) && inner.phase == Live && inner.closes == 0
            && !inner.asTarget && inner.through == [1] && outer.closes == 1
  {
    run, steps := ReachStranded(u, a, b, t);
    i := |run| - 1;
  }
}
