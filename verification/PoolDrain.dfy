/** Nothing stands in the way of a tear-down: once the callers are done, the pool always drains. */
module PoolDrain {
  import opened PoolTable
  import opened PoolRun
  import opened PoolInv
  import opened PoolFacts

  /** A tear-down that is under way can always take its next step. */
  lemma TearDownGoesOn(s: Sys, e: nat)
    requires Inv(s) && e < |s.table.entries| && s.table.entries[e].byRelease.Busy()
    ensures Enabled(s, TearDown(e))
  {
    hide RefsOk, SweepOk, MapOk;
    var x := s.table.entries[e];
    assert EntryOk(x, s.table.closed, s.tick);
    if x.byRelease.Returning? && x.byRelease.left > 0 { HeldElsewhere(s, e, x.byRelease.left - 1); }
  }

  lemma SweepGoesOn(s: Sys)
    requires Inv(s) && s.sweep != []
    ensures Enabled(s, SweepNext)
  {
    hide RefsOk, MapOk;
    var e := s.sweep[0];
    var x := s.table.entries[e];
    assert EntryOk(x, s.table.closed, s.tick);
    if x.byClose.Returning? && x.byClose.left > 0 { HeldElsewhere(s, e, x.byClose.left - 1); }
  }

  lemma HeldElsewhere(s: Sys, e: nat, k: nat)
    requires Links(s.table.entries, s.leases, s.jobs) && e < |s.table.entries| && s.table.entries[e].phase == Live
    requires k < |s.table.entries[e].held|
    ensures ValidLease(s, s.table.entries[e].held[k]) && s.leases[s.table.entries[e].held[k]].entry != e
  {
    hide JobsOk, BorrowOk, OwnersOk;
    var x := s.table.entries[e];
    assert OnHops(s.table.entries, s.leases, x.held, e, x.key.userId, x.route);
    assert s.table.entries[s.leases[x.held[k]].entry].liveAt < x.liveAt;
  }

  // How much is left to do.

  function Left(r: Progress, held: nat): nat {
    match r
    case Idle => held + 3
    case Closing => held + 2
    case Returning(n) => n + 1
    case Finished => 0
  }

  function Toil(x: Entry): nat { Left(x.byRelease, |x.held|) + Left(x.byClose, |x.held|) }

  function Work(E: seq<Entry>): nat { if E == [] then 0 else Work(E[..|E| - 1]) + Toil(E[|E| - 1]) }

  function Measure(s: Sys): nat { Work(s.table.entries) + |s.sweep| }

  lemma {:induction false} WorkSet(E: seq<Entry>, e: nat, y: Entry)
    requires e < |E|
    ensures Work(E[e := y]) + Toil(E[e]) == Work(E) + Toil(y)
  {
    var n := |E| - 1;
    if e == n {
      assert E[e := y][..n] == E[..n];
    } else {
      WorkSet(E[..n], e, y);
      assert E[e := y][..n] == E[..n][e := y];
    }
  }

  /** Giving a lease back is no new work: an entry that has to be torn down had that ahead of it. */
  lemma ReleaseWork(s: Sys, l: nat)
    requires Inv(s) && ValidLease(s, l)
    ensures Work(ReleaseLease(s, l).table.entries) <= Work(s.table.entries)
    ensures |ReleaseLease(s, l).table.entries| == |s.table.entries|
  {
    hide Work, Links, MapOk, SweepOk;
    var h := s.leases[l].entry;
    if !s.leases[l].released {
      LeaseRefsMember(s.leases, l, h);
      LeaseLive(s, l);
      assert EntryOk(s.table.entries[h], s.table.closed, s.tick);
      WorkSet(s.table.entries, h, Dropped(s.table.entries[h]));
    }
  }

  lemma LeaseLive(s: Sys, l: nat)
    requires Links(s.table.entries, s.leases, s.jobs) && l < |s.leases|
    ensures s.leases[l].entry < |s.table.entries| && s.table.entries[s.leases[l].entry].phase == Live
  {
  }

  /** One step of a run of "close, then give back" leaves less to do. */
  lemma RunWork(s: Sys, e: nat, r: Progress)
    requires Inv(s) && ValidEntry(s, e) && CanRun(s, e, r) && r.Busy()
    ensures var (s', r') := RunOne(s, e, r);
            && |s'.table.entries| == |s.table.entries| && Work(s'.table.entries) <= Work(s.table.entries)
            && s'.table.entries[e] == s.table.entries[e].(closes := s'.table.entries[e].closes)
            && Left(r', |s.table.entries[e].held|) < Left(r, |s.table.entries[e].held|)
            && s'.sweep == s.sweep && s'.jobs == s.jobs
  {
    hide Work, Inv;
    var x := s.table.entries[e];
    match r {
      case Closing => WorkSet(s.table.entries, e, x.(closes := x.closes + 1));
      case Returning(n) => if n > 0 { ReleaseWork(s, x.held[n - 1]); }
    }
  }

  lemma TearDownWork(s: Sys, e: nat)
    requires Inv(s) && Enabled(s, TearDown(e))
    ensures Measure(Apply(s, TearDown(e))) < Measure(s) && Apply(s, TearDown(e)).jobs == s.jobs
  {
    hide Work, Inv, RunOne, CanRun;
    var (s', r) := RunOne(s, e, s.table.entries[e].byRelease);
    RunWork(s, e, s.table.entries[e].byRelease);
    WorkSet(s'.table.entries, e, s'.table.entries[e].(byRelease := r));
  }

  lemma SweepWork(s: Sys)
    requires Inv(s) && Enabled(s, SweepNext)
    ensures Measure(Apply(s, SweepNext)) < Measure(s) && Apply(s, SweepNext).jobs == s.jobs
  {
    hide Work, Inv, RunOne, CanRun;
    var e := s.sweep[0];
    if s.table.entries[e].byClose.Busy() {
      var (s', r) := RunOne(s, e, s.table.entries[e].byClose);
      RunWork(s, e, s.table.entries[e].byClose);
      WorkSet(s'.table.entries, e, s'.table.entries[e].(byClose := r));
    }
  }

  /** Callers have what they came for, or have gone, and have given back what they had. */
  ghost predicate CallersDone(s: Sys) {
    && (forall p :: 0 <= p < |s.jobs| ==> s.jobs[p] == Gone)
    && (forall l :: 0 <= l < |s.leases| && s.leases[l].owner == Caller ==> s.leases[l].released)
  }

  lemma StillDone(s: Sys, a: Step)
    requires Enabled(s, a) && CallersDone(s) && (a.TearDown? || a.SweepNext?)
    ensures Apply(s, a).jobs == s.jobs ==> CallersDone(Apply(s, a))
  {
    StepLeases(s, a);
    SameLeases(s, a);
  }

  lemma SameLeases(s: Sys, a: Step)
    requires Enabled(s, a) && (a.TearDown? || a.SweepNext?)
    ensures |Apply(s, a).leases| == |s.leases|
  {
  }

  /**
   Once the callers are done, tear-downs alone bring the pool to rest, whatever they are in the middle
   of; and they cannot go on for ever, since each step leaves less to do.
   */
  lemma {:induction false} Drains(run: seq<Sys>, steps: seq<Step>) returns (run': seq<Sys>, steps': seq<Step>)
    requires IsRun(run, steps) && CallersDone(run[|steps|])
    ensures IsRun(run', steps') && run <= run' && steps <= steps' && Quiescent(run'[|steps'|])
    ensures forall i :: |steps| <= i < |steps'| ==> steps'[i].TearDown? || steps'[i] == SweepNext
    decreases Measure(run[|steps|])
  {
    hide Inv, Apply, Enabled, Measure;
    var s := run[|steps|];
    run', steps' := run, steps;
    Always(run, steps, |steps|);
    if s.sweep != [] {
      SweepGoesOn(s);
      SweepWork(s);
      StillDone(s, SweepNext);
      var next, more := Go(run, steps, SweepNext);
      run', steps' := Drains(next, more);
      assert steps'[|steps|] == more[|steps|];
    } else if e: nat :| e < |s.table.entries| && s.table.entries[e].byRelease.Busy() {
      TearDownGoesOn(s, e);
      TearDownWork(s, e);
      StillDone(s, TearDown(e));
      var next, more := Go(run, steps, TearDown(e));
      run', steps' := Drains(next, more);
      assert steps'[|steps|] == more[|steps|];
    }
  }

  /** And at rest nothing is left. */
  lemma DrainsEmpty(run: seq<Sys>, steps: seq<Step>) returns (run': seq<Sys>, steps': seq<Step>)
    requires IsRun(run, steps) && CallersDone(run[|steps|])
    ensures IsRun(run', steps') && run <= run'
    ensures var s := run'[|steps'|];
            s.table.conns == map[] && forall l :: 0 <= l < |s.leases| ==> s.leases[l].released
  {
    run', steps' := Drains(run, steps);
    NothingLeft(run', steps', |steps'|);
  }
}
