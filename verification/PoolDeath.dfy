/** How things end in the pool: a connection by its own death or by Close, and a dial that does not succeed. */
module PoolDeath {
  import opened ConnKeys
  import opened PoolTable
  import opened PoolRun
  import opened PoolInv
  import opened PoolFacts

  /** What an entry never gets back: its place in the map, a reference once out of it, and a tear-down undone. */
  ghost predicate Wanes(x: Entry, y: Entry) {
    && y.key == x.key
    && (x.evicted ==> y.evicted && y.refs <= x.refs)
    && (x.byClose != Idle ==> y.byClose != Idle)
    && x.closes <= y.closes
  }

  ghost predicate Ages(t: Table, t': Table) {
    && |t.entries| <= |t'.entries|
    && (t.closed ==> t'.closed && |t'.entries| == |t.entries|)
    && forall e :: 0 <= e < |t.entries| ==> Wanes(t.entries[e], t'.entries[e])
  }

  lemma AgesOn(t: Table, u: Table, v: Table)
    requires Ages(t, u) && Ages(u, v)
    ensures Ages(t, v)
  {
    forall e | 0 <= e < |t.entries| ensures Wanes(t.entries[e], v.entries[e]) {
      assert Wanes(t.entries[e], u.entries[e]) && Wanes(u.entries[e], v.entries[e]);
    }
  }

  lemma AgesNot(t: Table)
    ensures Ages(t, t)
  {
  }

  lemma EnterAges(t: Table, user: string, route: seq<string>, id: string, p: nat, asTarget: bool, through: seq<nat>)
    requires MapOk(t)
    ensures Ages(t, Enter(t, user, route, id, p, asTarget, through).0)
  {
    var key := PathKey(user, route, id);
    if key in t.conns { var _ := InMap(t, t.conns[key]); }
  }

  lemma ReleaseAges(s: Sys, l: nat)
    requires ValidLease(s, l)
    ensures Ages(s.table, ReleaseLease(s, l).table)
  {
  }

  lemma RunAges(s: Sys, e: nat, r: Progress)
    requires ValidEntry(s, e) && CanRun(s, e, r)
    ensures Ages(s.table, RunOne(s, e, r).0.table)
    ensures r != Idle ==> RunOne(s, e, r).1 != Idle
  {
    if r.Returning? && r.left > 0 { ReleaseAges(s, s.table.entries[e].held[r.left - 1]); }
  }

  lemma TearAges(s: Sys, a: Step)
    requires Enabled(s, a) && (a.TearDown? || a.SweepNext?)
    ensures Ages(s.table, Apply(s, a).table)
  {
    hide RunOne, CanRun;
    if a.TearDown? {
      RunAges(s, a.e, s.table.entries[a.e].byRelease);
    } else {
      RunAges(s, s.sweep[0], s.table.entries[s.sweep[0]].byClose);
    }
  }

  /** Steps that change one entry, or all of them at once. */
  lemma PlainAges(s: Sys, a: Step)
    requires Enabled(s, a) && !a.Call? && !a.NextHop? && !a.GiveBack? && !a.CallerReleases? && !a.TearDown?
      && !a.SweepNext?
    ensures Ages(s.table, Apply(s, a).table)
  {
    hide Enter, RunOne, ReleaseLease;
  }

  lemma StepAges(s: Sys, a: Step)
    requires Enabled(s, a) && MapOk(s.table)
    ensures Ages(s.table, Apply(s, a).table)
  {
    hide MapOk, Enter, Ages, RunOne, ReleaseLease;
    AgesNot(s.table);
    match a {
      case Call(user, hops, id) => EnterAges(s.table, user, hops, id, |s.jobs|, true, []);
      case NextHop(p) =>
        var j := s.jobs[p];
        EnterAges(s.table, j.user, j.hops[..|j.got|], j.hops[|j.got|], p, false, Through(s, j.got));
      case GiveBack(p) => ReleaseAges(s, s.jobs[p].got[|s.jobs[p].got| - 1]);
      case CallerReleases(l) => ReleaseAges(s, l);
      case TearDown(_) => TearAges(s, a);
      case SweepNext => TearAges(s, a);
      case _ => PlainAges(s, a);
    }
  }

  lemma {:induction false} AlwaysAges(run: seq<Sys>, steps: seq<Step>, i: nat, j: nat)
    requires IsRun(run, steps) && i <= j < |run|
    ensures Ages(run[i].table, run[j].table)
  {
    hide Apply, Enabled, Links, RefsOk, SweepOk, EntriesOk, MapOk, Ages;
    if i < j {
      AlwaysAges(run, steps, i, j - 1);
      Always(run, steps, j - 1);
      StepAges(run[j - 1], steps[j - 1]);
      AgesOn(run[i].table, run[j - 1].table, run[j].table);
    } else {
      AgesNot(run[i].table);
    }
  }

  // A connection that has died.

  /** A death takes the connection out of the map, unless another has its place, and does nothing else. */
  lemma DeathFreesKey(run: seq<Sys>, steps: seq<Step>, i: nat, e: nat)
    requires IsRun(run, steps) && i < |steps| && steps[i] == Died(e)
    ensures e < |run[i].table.entries|
    ensures var s, s' := run[i], run[i + 1];
            && (forall k :: k in s'.table.conns <==> k in s.table.conns && s.table.conns[k] != e)
            && (forall k :: k in s'.table.conns ==> s'.table.conns[k] == s.table.conns[k])
            && (s.table.entries[e].key in s.table.conns && s.table.conns[s.table.entries[e].key] != e ==>
                  s'.table.conns == s.table.conns)
            && |s'.table.entries| == |s.table.entries|
            && (forall f: nat :: f < |s.table.entries| ==>
                  s'.table.entries[f] == s.table.entries[f].(evicted := f == e || s.table.entries[f].evicted))
            && s' == s.(table := s'.table) && s'.table.closed == s.table.closed
  {
    hide RefsOk, EntriesOk, Links, SweepOk;
    Always(run, steps, i);
    var s := run[i];
    assert Enabled(s, steps[i]) && run[i + 1] == Apply(s, steps[i]);
    var _ := InMap(s.table, e);
  }

  /** Whatever is out of the map stays out of it, and nobody else is ever given a reference to it. */
  lemma OutForGood(run: seq<Sys>, steps: seq<Step>, i: nat, e: nat, j: nat)
    requires IsRun(run, steps) && i <= j < |run| && e < |run[i].table.entries|
    requires !InMap(run[i].table, e)
    ensures e < |run[j].table.entries| && !InMap(run[j].table, e)
    ensures run[j].table.entries[e].refs <= run[i].table.entries[e].refs
    ensures run[j].table.entries[e].key == run[i].table.entries[e].key
  {
    hide Apply, Enabled, RefsOk, EntriesOk, Links, SweepOk;
    Always(run, steps, i);
    Always(run, steps, j);
    AlwaysAges(run, steps, i, j);
    assert Wanes(run[i].table.entries[e], run[j].table.entries[e]);
  }

  /** A dead connection is never again the map's entry for its key, and its references only fall. */
  lemma DeadForGood(run: seq<Sys>, steps: seq<Step>, i: nat, e: nat, j: nat)
    requires IsRun(run, steps) && i < |steps| && steps[i] == Died(e) && i < j < |run|
    ensures e < |run[i].table.entries| && e < |run[j].table.entries|
    ensures forall k :: k in run[j].table.conns ==> run[j].table.conns[k] != e
    ensures run[j].table.entries[e].refs <= run[i].table.entries[e].refs
  {
    hide Apply, Enabled, RefsOk, EntriesOk, Links, SweepOk;
    DeathFreesKey(run, steps, i, e);
    assert run[i].table.entries[e] == run[i + 1].table.entries[e].(evicted := run[i].table.entries[e].evicted);
    OutForGood(run, steps, i + 1, e, j);
    Always(run, steps, j);
    var _ := InMap(run[j].table, e);
  }

  /** What the next caller of the same key meets: somebody else's entry, or a dial of its own. */
  lemma NeverJoined(run: seq<Sys>, steps: seq<Step>, i: nat, e: nat, j: nat)
    requires IsRun(run, steps) && i < |steps| && steps[i] == Died(e) && i < j < |steps| && steps[j].Call?
    ensures var s, s' := run[j], run[j + 1];
            var key := PathKey(steps[j].user, steps[j].hops, steps[j].id);
            && (s.table.closed ==> s' == s)
            && (!s.table.closed ==>
                  && |s'.jobs| == |s.jobs| + 1 && key in s'.table.conns && s'.table.conns[key] != e
                  && (if key in s.table.conns then s'.jobs[|s.jobs|] == Waiting(s.table.conns[key])
                      else s'.jobs[|s.jobs|].Route? && s'.jobs[|s.jobs|].target == |s.table.entries|
                           && s'.table.conns[key] == |s.table.entries|))
  {
    hide RefsOk, EntriesOk, Links, SweepOk;
    DeadForGood(run, steps, i, e, j);
    DeadForGood(run, steps, i, e, j + 1);
    Always(run, steps, j);
    assert run[j + 1] == Apply(run[j], steps[j]);
  }

  /** Nor does the dial of a route take it for one of its hops. */
  lemma NeverAHop(run: seq<Sys>, steps: seq<Step>, i: nat, e: nat, j: nat)
    requires IsRun(run, steps) && i < |steps| && steps[i] == Died(e) && i < j < |steps| && steps[j].NextHop?
    ensures steps[j].p < |run[j + 1].jobs| && run[j + 1].jobs[steps[j].p].Route?
    ensures run[j + 1].jobs[steps[j].p].stage != AwaitingHop(e) && run[j + 1].jobs[steps[j].p].stage != DialingHop(e)
  {
    hide RefsOk, EntriesOk, Links, SweepOk;
    DeadForGood(run, steps, i, e, j);
    Always(run, steps, j);
    assert Enabled(run[j], steps[j]) && run[j + 1] == Apply(run[j], steps[j]);
  }

  /** One caller holds a connection that dies; the next to ask for it dials a new one. */
  lemma DialsAfresh(u: string, id: string) returns (run: seq<Sys>, steps: seq<Step>)
    ensures IsRun(run, steps) && |steps| == 4 && steps[2] == Died(0)
    ensures steps[0] == Call(u, [], id) && steps[3] == Call(u, [], id)
    ensures var s := run[4];
            var key := PathKey(u, [], id);
            && s.table.conns == map[key := 1] && |s.table.entries| == 2
            && s.table.entries[0].phase == Live && s.table.entries[0].refs == 1 && s.table.entries[0].closes == 0
            && s.table.entries[1] == NewEntry(key, 1, [], true, [])
            && s.leases == [Lease(0, Caller, false)] && s.jobs == [Gone, Route(1, u, [], [], Between)]
  {
    var key := PathKey(u, [], id);
    var x := NewEntry(key, 0, [], true, []);
    run, steps := Go([Init], [], Call(u, [], id));
    assert run[|run| - 1] == Sys(Table(map[key := 0], [x], false), [], [Route(0, u, [], [], Between)], [], 0);
    run, steps := Go(run, steps, TargetDialled(0));
    assert run[|run| - 1]
        == Sys(Table(map[key := 0], [x.(phase := Live)], false), [Lease(0, Caller, false)], [Gone], [], 1);
    run, steps := Go(run, steps, Died(0));
    assert run[|run| - 1].table.conns == map[];
    assert run[|run| - 1].table.entries == [x.(phase := Live, evicted := true)];
    run, steps := Go(run, steps, Call(u, [], id));
    assert run[|run| - 1].table.conns == map[key := 1];
  }

  // A caller that waits.

  /**
   A waiter is answered once: with a lease of its own when the dial has succeeded, with nothing when it has failed; and
   if it goes away first, its reference goes with it.
   */
  lemma WaiterLeaves(run: seq<Sys>, steps: seq<Step>, i: nat)
    requires IsRun(run, steps) && i < |steps| && (steps[i].WaiterWakes? || steps[i].WaiterCancelled?)
    ensures var s, s', p := run[i], run[i + 1], steps[i].p;
            && p < |s.jobs| && s.jobs[p].Waiting? && ValidEntry(s, s.jobs[p].on) && ValidEntry(s', s.jobs[p].on)
            && s'.jobs == s.jobs[p := Gone]
            && var e := s.jobs[p].on;
               if steps[i].WaiterCancelled? then
                 s'.leases == s.leases && s'.table.entries[e].refs == s.table.entries[e].refs - 1
               else if s.table.entries[e].phase == Live then
                 s'.leases == s.leases + [Lease(e, Caller, false)] && s'.table == s.table
               else s.table.entries[e].phase == Failed && s'.leases == s.leases && s'.table == s.table
  {
    assert Enabled(run[i], steps[i]) && run[i + 1] == Apply(run[i], steps[i]);
  }

  /** A lease that its caller gives back is given back, and takes its reference along the first time. */
  lemma CallerGivesBack(run: seq<Sys>, steps: seq<Step>, i: nat, l: nat)
    requires IsRun(run, steps) && i < |steps| && steps[i] == CallerReleases(l)
    ensures var s, s' := run[i], run[i + 1];
            && ValidLease(s, l) && ValidLease(s', l) && s'.leases == s.leases[l := s.leases[l].(released := true)]
            && s'.table.entries[s.leases[l].entry].refs
               == s.table.entries[s.leases[l].entry].refs - if s.leases[l].released then 0 else 1
  {
    assert Enabled(run[i], steps[i]) && run[i + 1] == Apply(run[i], steps[i]);
  }

  // A pool that has been closed.

  /** A closed pool stays closed, and turns every caller and every dial of a hop away without a reference. */
  lemma ClosedRefuses(run: seq<Sys>, steps: seq<Step>, i: nat, j: nat)
    requires IsRun(run, steps) && i < |steps| && steps[i].Close? && i < j < |steps|
    ensures run[j].table.closed && run[j].table.conns == map[]
    ensures |run[j].table.entries| == |run[i].table.entries|
    ensures steps[j].Call? ==> run[j + 1] == run[j]
    ensures steps[j].NextHop? ==>
              && run[j + 1].table == run[j].table && run[j + 1].leases == run[j].leases
              && steps[j].p < |run[j + 1].jobs| && run[j + 1].jobs[steps[j].p].Route?
              && run[j + 1].jobs[steps[j].p].stage == Unwinding
  {
    hide RefsOk, EntriesOk, Links, SweepOk;
    assert run[i + 1] == Apply(run[i], steps[i]);
    AlwaysAges(run, steps, i + 1, j);
    Always(run, steps, j);
    assert Enabled(run[j], steps[j]) && run[j + 1] == Apply(run[j], steps[j]);
  }

  /** And after Close nobody's reference count goes up again. */
  lemma ClosedOnlyFalls(run: seq<Sys>, steps: seq<Step>, i: nat, j: nat, e: nat)
    requires IsRun(run, steps) && i < j < |run| && steps[i].Close? && e < |run[j].table.entries|
    ensures e < |run[i].table.entries| && run[j].table.entries[e].refs <= run[i].table.entries[e].refs
  {
    hide RefsOk, EntriesOk, Links, SweepOk;
    assert run[i + 1] == Apply(run[i], steps[i]);
    AlwaysAges(run, steps, i + 1, j);
    Always(run, steps, i + 1);
    var _ := InMap(run[i + 1].table, e);
    assert Wanes(run[i + 1].table.entries[e], run[j].table.entries[e]);
  }

  /** Close closes every connection that was in the map, and gives back all that it had borrowed. */
  lemma ClosePullsDown(run: seq<Sys>, steps: seq<Step>, i: nat, e: nat, j: nat)
    requires IsRun(run, steps) && i < j < |run| && steps[i].Close? && run[j].sweep == []
    requires e < |run[i].table.entries| && InMap(run[i].table, e) && run[i].table.entries[e].phase == Live
    ensures e < |run[j].table.entries| && run[j].table.entries[e].closes >= 1
    ensures var s := run[j];
            forall k :: 0 <= k < |s.table.entries[e].held| ==>
              s.table.entries[e].held[k] < |s.leases| && s.leases[s.table.entries[e].held[k]].released
  {
    hide RefsOk, MapOk;
    assert run[i + 1] == Apply(run[i], steps[i]);
    assert run[i + 1].table.entries[e].byClose != Idle;
    AlwaysAges(run, steps, i + 1, j);
    Swept(run, steps, j, e);
  }

  lemma Swept(run: seq<Sys>, steps: seq<Step>, j: nat, e: nat)
    requires IsRun(run, steps) && j < |run| && run[j].sweep == []
    requires e < |run[j].table.entries| && run[j].table.entries[e].byClose != Idle
    ensures run[j].table.entries[e].closes >= 1
    ensures var s := run[j];
            forall k :: 0 <= k < |s.table.entries[e].held| ==>
              s.table.entries[e].held[k] < |s.leases| && s.leases[s.table.entries[e].held[k]].released
  {
    hide Apply, Enabled, RefsOk, MapOk;
    Always(run, steps, j);
    var s := run[j];
    var x := s.table.entries[e];
    assert EntryOk(x, s.table.closed, s.tick);
    assert OnHops(s.table.entries, s.leases, x.held, e, x.key.userId, x.route);
  }

  // A dial that does not succeed.

  ghost predicate GivesUp(s: Sys, p: nat) {
    p < |s.jobs| && (s.jobs[p].Gone? || (s.jobs[p].Route? && s.jobs[p].stage == Unwinding))
  }

  /**
   A hop that was given up or could not be dialled, a pool that has been closed, or an own dial that
   failed: in each case the caller gives up the whole route.
   */
  lemma TroubleEndsDial(run: seq<Sys>, steps: seq<Step>, i: nat)
    requires IsRun(run, steps) && i < |steps|
    requires var s, a := run[i], steps[i];
             || a.Abandon? || a.HopCancelled? || (a.HopDialled? && !a.ok) || (a.NextHop? && s.table.closed)
             || (a.HopReady? && AtStage(s, a.p) && s.jobs[a.p].stage.AwaitingHop?
                 && ValidEntry(s, s.jobs[a.p].stage.hop)
                 && s.table.entries[s.jobs[a.p].stage.hop].phase == Failed)
    ensures GivesUp(run[i + 1], steps[i].p)
  {
    hide Drop, Finish;
    assert Enabled(run[i], steps[i]) && run[i + 1] == Apply(run[i], steps[i]);
  }

  /** A step of a dial that goes on. */
  predicate GoesOn(a: Step) { a.NextHop? || a.HopReady? || a.HopDialled? || a.TargetDialled? }

  lemma StepGivesUp(s: Sys, a: Step, p: nat)
    requires Enabled(s, a) && GivesUp(s, p)
    ensures GivesUp(Apply(s, a), p)
    ensures Apply(s, a).jobs[p].Route? ==> s.jobs[p].Route? && |Apply(s, a).jobs[p].got| <= |s.jobs[p].got|
    ensures GoesOn(a) ==> a.p != p
  {
    hide Enter, Drop, Finish, Watch, Shut, RunOne, CanRun;
    if a.TearDown? { RunJobs(s, a.e, s.table.entries[a.e].byRelease); }
    if a.SweepNext? { RunJobs(s, s.sweep[0], s.table.entries[s.sweep[0]].byClose); }
  }

  lemma RunJobs(s: Sys, e: nat, r: Progress)
    requires ValidEntry(s, e) && CanRun(s, e, r)
    ensures RunOne(s, e, r).0.jobs == s.jobs
  {
  }

  /** And it stays given up: no further hop is taken and the target is never up; what it holds only goes back. */
  lemma {:induction false} GivenUpForGood(run: seq<Sys>, steps: seq<Step>, i: nat, j: nat, p: nat)
    requires IsRun(run, steps) && i <= j < |run| && GivesUp(run[i], p)
    ensures GivesUp(run[j], p)
    ensures run[j].jobs[p].Route? ==> run[i].jobs[p].Route? && |run[j].jobs[p].got| <= |run[i].jobs[p].got|
    ensures j < |steps| && GoesOn(steps[j]) ==> steps[j].p != p
  {
    hide Apply, Enabled, GivesUp;
    if i < j {
      GivenUpForGood(run, steps, i, j - 1, p);
      StepGivesUp(run[j - 1], steps[j - 1], p);
    }
    if j < |steps| { StepGivesUp(run[j], steps[j], p); }
    assert p < |run[j].jobs| by { GivesUpHere(run[j], p); }
  }

  lemma GivesUpHere(s: Sys, p: nat)
    requires GivesUp(s, p)
    ensures p < |s.jobs|
  {
  }
}
