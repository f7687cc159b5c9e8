/** What every step of the pool keeps. */
module PoolInv {
  import opened ConnKeys
  import opened PoolTable
  import opened PoolRun

  // References.

  function JobHolds(j: Job, e: nat): nat {
    match j
    case Gone => 0
    case Waiting(on) => if on == e then 1 else 0
    case Route(t, _, _, _, stage) =>
      (if t == e then 1 else 0) + (if (stage.AwaitingHop? || stage.DialingHop?) && stage.hop == e then 1 else 0)
  }

  function LeaseHolds(l: Lease, e: nat): nat {
    if !l.released && l.entry == e then 1 else 0
  }

  /** Callers dialling the entry or waiting for it. */
  function JobRefs(jobs: seq<Job>, e: nat): nat {
    if jobs == [] then 0 else JobRefs(jobs[..|jobs| - 1], e) + JobHolds(jobs[|jobs| - 1], e)
  }

  /** Unreleased leases on the entry. */
  function LeaseRefs(leases: seq<Lease>, e: nat): nat {
    if leases == [] then 0 else LeaseRefs(leases[..|leases| - 1], e) + LeaseHolds(leases[|leases| - 1], e)
  }

  lemma {:induction false} JobRefsSet(jobs: seq<Job>, p: nat, j: Job, e: nat)
    requires p < |jobs|
    ensures JobRefs(jobs[p := j], e) + JobHolds(jobs[p], e) == JobRefs(jobs, e) + JobHolds(j, e)
  {
    var n := |jobs| - 1;
    if p < n {
      JobRefsSet(jobs[..n], p, j, e);
      assert jobs[p := j][..n] == jobs[..n][p := j];
    } else {
      assert jobs[p := j][..n] == jobs[..n];
    }
  }

  lemma {:induction false} LeaseRefsSet(leases: seq<Lease>, l: nat, x: Lease, e: nat)
    requires l < |leases|
    ensures LeaseRefs(leases[l := x], e) + LeaseHolds(leases[l], e) == LeaseRefs(leases, e) + LeaseHolds(x, e)
  {
    var n := |leases| - 1;
    if l < n {
      LeaseRefsSet(leases[..n], l, x, e);
      assert leases[l := x][..n] == leases[..n][l := x];
    } else {
      assert leases[l := x][..n] == leases[..n];
    }
  }

  lemma JobRefsAdd(jobs: seq<Job>, j: Job, e: nat)
    ensures JobRefs(jobs + [j], e) == JobRefs(jobs, e) + JobHolds(j, e)
  {
    assert (jobs + [j])[..|jobs|] == jobs;
  }

  lemma LeaseRefsAdd(leases: seq<Lease>, x: Lease, e: nat)
    ensures LeaseRefs(leases + [x], e) == LeaseRefs(leases, e) + LeaseHolds(x, e)
  {
    assert (leases + [x])[..|leases|] == leases;
  }

  // The parts of the invariant.

  /** An un-evicted entry is exactly the map's entry for its key. */
  ghost predicate MapOk(t: Table) {
    && (forall k :: k in t.conns ==> t.conns[k] < |t.entries| && t.entries[t.conns[k]].key == k)
    && (forall e :: 0 <= e < |t.entries| ==> (InMap(t, e) <==> !t.entries[e].evicted))
    && (t.closed ==> t.conns == map[])
  }

  ghost predicate RefsOk(s: Sys) {
    forall e :: 0 <= e < |s.table.entries| && s.table.entries[e].phase != Failed ==>
      s.table.entries[e].refs == JobRefs(s.jobs, e) + LeaseRefs(s.leases, e)
  }

  ghost predicate Dials(E: seq<Entry>, p: nat, e: nat) {
    e < |E| && E[e].phase == Dialing && E[e].dialler == p
  }

  ghost predicate JobOk(E: seq<Entry>, p: nat, j: Job) {
    match j
    case Gone => true
    case Waiting(on) => on < |E|
    case Route(t, user, hops, got, stage) =>
      && Dials(E, p, t) && E[t].asTarget && E[t].route == hops && E[t].key.userId == user
      && |got| <= |hops|
      && (stage.AwaitingHop? ==> stage.hop < |E|)
      && (stage.DialingHop? ==> Dials(E, p, stage.hop) && stage.hop != t && !E[stage.hop].asTarget)
      && (stage.AwaitingHop? || stage.DialingHop? ==>
            |got| < |hops| && E[stage.hop].key == PathKey(user, hops[..|got|], hops[|got|]))
  }

  ghost predicate JobsOk(E: seq<Entry>, J: seq<Job>) {
    && (forall p :: 0 <= p < |J| ==> JobOk(E, p, J[p]))
    && (forall e :: 0 <= e < |E| && E[e].phase == Dialing ==>
          E[e].dialler < |J| && J[E[e].dialler].Route?
          && (J[E[e].dialler].target == e || J[E[e].dialler].stage == DialingHop(e)))
  }

  ghost predicate LeasesOk(E: seq<Entry>, L: seq<Lease>) {
    forall l :: 0 <= l < |L| ==>
      L[l].entry < |E| && E[L[l].entry].phase == Live && (L[l].owner.Hop? ==> L[l].owner.target < |E|)
  }

  ghost predicate Distinct(q: seq<nat>) {
    forall i, j :: 0 <= i < j < |q| ==> q[i] != q[j]
  }

  /** `q` holds, in order, leases on the first hops of the route, taken for target `t`. */
  ghost predicate OnHops(E: seq<Entry>, L: seq<Lease>, q: seq<nat>, t: nat, user: string, route: seq<string>) {
    && |q| <= |route|
    && Distinct(q)
    && forall i :: 0 <= i < |q| ==>
         q[i] < |L| && L[q[i]].owner == Hop(t) && L[q[i]].entry < |E|
         && E[L[q[i]].entry].key == PathKey(user, route[..i], route[i])
  }

  ghost predicate BorrowOk(E: seq<Entry>, L: seq<Lease>, J: seq<Job>) {
    forall p :: 0 <= p < |J| && J[p].Route? ==>
      && OnHops(E, L, J[p].got, J[p].target, J[p].user, J[p].hops)
      && forall i :: 0 <= i < |J[p].got| ==> !L[J[p].got[i]].released
  }

  /** What a live connection borrowed, and which of it has been given back. */
  ghost predicate HeldOk(E: seq<Entry>, L: seq<Lease>) {
    forall e :: 0 <= e < |E| && E[e].phase == Live ==>
      && OnHops(E, L, E[e].held, e, E[e].key.userId, E[e].route)
      && |E[e].held| == (if E[e].asTarget then |E[e].route| else 0)
      && forall i :: 0 <= i < |E[e].held| ==>
           && E[L[E[e].held[i]].entry].liveAt < E[e].liveAt
           && (L[E[e].held[i]].released <==> E[e].byRelease.Gave(i) || E[e].byClose.Gave(i))
  }

  /** Every unreleased hop lease is in the hands of the dial that took it or of its connection. */
  ghost predicate OwnersOk(E: seq<Entry>, L: seq<Lease>, J: seq<Job>) {
    forall l :: 0 <= l < |L| && !L[l].released && L[l].owner.Hop? ==>
      var t := L[l].owner.target;
      t < |E| &&
      ((E[t].phase == Dialing && E[t].dialler < |J| && J[E[t].dialler].Route? && J[E[t].dialler].target == t
          && l in J[E[t].dialler].got)
       || (E[t].phase == Live && l in E[t].held))
  }

  /** Who refers to whom, all together. */
  ghost predicate Links(E: seq<Entry>, L: seq<Lease>, J: seq<Job>) {
    LeasesOk(E, L) && JobsOk(E, J) && BorrowOk(E, L, J) && HeldOk(E, L) && OwnersOk(E, L, J)
  }

  function One(b: bool): nat { if b then 1 else 0 }

  ghost predicate EntryOk(x: Entry, closed: bool, tick: nat) {
    && x.key == PathKey(x.key.userId, x.route, x.key.sessionId)
    && (x.phase != Live ==> x.held == [] && x.closes == 0 && x.byRelease == Idle && x.byClose == Idle)
    && (x.phase == Dialing && !closed ==> !x.evicted)
    && (x.phase == Failed ==> x.evicted)
    && (x.phase == Live ==>
          && x.liveAt < tick && x.refs >= 0
          && (x.byRelease == Idle <==> x.refs > 0)
          && (x.refs == 0 ==> x.evicted)
          && (x.byClose != Idle ==> closed && x.evicted)
          && x.closes == One(x.byRelease.ClosedClient()) + One(x.byClose.ClosedClient())
          && (x.byRelease.Returning? ==> x.byRelease.left <= |x.held|)
          && (x.byClose.Returning? ==> x.byClose.left <= |x.held|))
  }

  ghost predicate EntriesOk(s: Sys) {
    forall e :: 0 <= e < |s.table.entries| ==> EntryOk(s.table.entries[e], s.table.closed, s.tick)
  }

  ghost predicate SweepOk(s: Sys) {
    && (forall i :: 0 <= i < |s.sweep| ==> s.sweep[i] < |s.table.entries|)
    && (forall e :: 0 <= e < |s.table.entries| && s.table.entries[e].byClose.Busy() ==> e in s.sweep)
  }

  ghost predicate Inv(s: Sys) {
    && MapOk(s.table)
    && RefsOk(s)
    && EntriesOk(s)
    && Links(s.table.entries, s.leases, s.jobs)
    && SweepOk(s)
  }


  // Steps on the table alone.

  lemma EvictMap(t: Table, e: nat)
    requires MapOk(t) && e < |t.entries|
    ensures MapOk(Evict(t, e))
  {
  }

  lemma DropMap(t: Table, e: nat)
    requires MapOk(t) && e < |t.entries|
    ensures MapOk(Drop(t, e))
  {
  }

  lemma ShutMap(t: Table)
    requires MapOk(t)
    ensures MapOk(Shut(t))
  {
  }

  lemma FinishMap(t: Table, e: nat, ok: bool, held: seq<nat>, at: nat)
    requires MapOk(t) && e < |t.entries|
    ensures MapOk(Finish(t, e, ok, held, at))
  {
  }

  // References, step by step.

  lemma {:induction false} JobRefsMember(jobs: seq<Job>, p: nat, e: nat)
    requires p < |jobs|
    ensures JobRefs(jobs, e) >= JobHolds(jobs[p], e)
  {
    if p < |jobs| - 1 { JobRefsMember(jobs[..|jobs| - 1], p, e); }
  }

  lemma {:induction false} LeaseRefsMember(leases: seq<Lease>, l: nat, e: nat)
    requires l < |leases|
    ensures LeaseRefs(leases, e) >= LeaseHolds(leases[l], e)
  {
    if l < |leases| - 1 { LeaseRefsMember(leases[..|leases| - 1], l, e); }
  }

  lemma {:induction false} NoRefsBeyond(s: Sys, e: nat)
    requires Links(s.table.entries, s.leases, s.jobs) && e >= |s.table.entries|
    ensures JobRefs(s.jobs, e) == 0 && LeaseRefs(s.leases, e) == 0
  {
    NoJobRefs(s.jobs, e);
    NoLeaseRefs(s.leases, e);
  }

  lemma {:induction false} NoJobRefs(jobs: seq<Job>, e: nat)
    requires forall p :: 0 <= p < |jobs| ==> JobHolds(jobs[p], e) == 0
    ensures JobRefs(jobs, e) == 0
  {
    if jobs != [] { NoJobRefs(jobs[..|jobs| - 1], e); }
  }

  lemma {:induction false} NoLeaseRefs(leases: seq<Lease>, e: nat)
    requires forall l :: 0 <= l < |leases| ==> LeaseHolds(leases[l], e) == 0
    ensures LeaseRefs(leases, e) == 0
  {
    if leases != [] { NoLeaseRefs(leases[..|leases| - 1], e); }
  }

  // What the other parts do not look at.

  ghost predicate SameCore(x: Entry, y: Entry) {
    && y.key == x.key && y.phase == x.phase && y.held == x.held && y.dialler == x.dialler
    && y.route == x.route && y.asTarget == x.asTarget && y.liveAt == x.liveAt
  }

  ghost predicate SameGave(x: Entry, y: Entry) {
    forall i :: 0 <= i < |x.held| ==>
      (x.byRelease.Gave(i) || x.byClose.Gave(i) <==> y.byRelease.Gave(i) || y.byClose.Gave(i))
  }

  /** Changing counts, marks and tear-down progress disturbs no link between records. */
  lemma LinksKept(E: seq<Entry>, E': seq<Entry>, L: seq<Lease>, J: seq<Job>)
    requires |E| == |E'| && forall e :: 0 <= e < |E| ==> SameCore(E[e], E'[e]) && SameGave(E[e], E'[e])
    requires Links(E, L, J)
    ensures Links(E', L, J)
  {
    forall p | 0 <= p < |J| ensures JobOk(E', p, J[p]) { assert JobOk(E, p, J[p]); }
    forall e | 0 <= e < |E'| && E'[e].phase == Live
      ensures OnHops(E', L, E'[e].held, e, E'[e].key.userId, E'[e].route)
    {
      assert OnHops(E, L, E[e].held, e, E[e].key.userId, E[e].route);
    }
  }

  /** A caller that keeps its target and its leases, or was not dialling at all. */
  lemma JobKept(E: seq<Entry>, L: seq<Lease>, J: seq<Job>, p: nat, j: Job)
    requires Links(E, L, J) && p < |J| && JobOk(E, p, j)
    requires if J[p].Route? then
               j.Route? && j.target == J[p].target && j.user == J[p].user && j.hops == J[p].hops && j.got == J[p].got
               && !J[p].stage.DialingHop?
             else j == Gone
    ensures Links(E, L, J[p := j])
  {
    var J' := J[p := j];
    forall e | 0 <= e < |E| && E[e].phase == Dialing
      ensures E[e].dialler < |J'| && J'[E[e].dialler].Route?
              && (J'[E[e].dialler].target == e || J'[E[e].dialler].stage == DialingHop(e))
    {
      assert E[e].dialler < |J| && J[E[e].dialler].Route?;
    }
  }

  /** As RefsOk, but entry `e` still counts one reference that nobody holds. */
  ghost predicate RefsOneOver(s: Sys, e: nat) {
    forall x :: 0 <= x < |s.table.entries| && s.table.entries[x].phase != Failed ==>
      s.table.entries[x].refs == JobRefs(s.jobs, x) + LeaseRefs(s.leases, x) + One(x == e)
  }

  lemma DroppedOk(x: Entry, closed: bool, tick: nat)
    requires EntryOk(x, closed, tick)
    requires (x.phase == Live ==> x.refs > 0) && (x.phase == Dialing ==> x.refs > 1)
    ensures EntryOk(Dropped(x), closed, tick) && SameCore(x, Dropped(x)) && SameGave(x, Dropped(x))
  {
  }

  lemma DropEntries(s: Sys, e: nat)
    requires e < |s.table.entries| && RefsOneOver(s, e) && EntriesOk(s) && JobsOk(s.table.entries, s.jobs)
    ensures EntriesOk(s.(table := Drop(s.table, e)))
    ensures var E' := Drop(s.table, e).entries;
            |E'| == |s.table.entries|
            && forall x :: 0 <= x < |E'| ==> SameCore(s.table.entries[x], E'[x]) && SameGave(s.table.entries[x], E'[x])
  {
    var x := s.table.entries[e];
    assert EntryOk(x, s.table.closed, s.tick);
    if x.phase == Dialing { JobRefsMember(s.jobs, x.dialler, e); }
    DroppedOk(x, s.table.closed, s.tick);
  }

  lemma DropKept(s: Sys, e: nat)
    requires e < |s.table.entries| && RefsOneOver(s, e)
    requires MapOk(s.table) && EntriesOk(s) && Links(s.table.entries, s.leases, s.jobs) && SweepOk(s)
    ensures Inv(s.(table := Drop(s.table, e)))
  {
    var s' := s.(table := Drop(s.table, e));
    assert MapOk(s'.table) by { DropMap(s.table, e); }
    DropEntries(s, e);
    assert RefsOk(s');
    assert SweepOk(s');
    LinksKept(s.table.entries, s'.table.entries, s.leases, s.jobs);
  }

  /** Only the owner of a hop lease ever gives it back. */
  lemma ReleasedElsewhere(E: seq<Entry>, L: seq<Lease>, l: nat, q: seq<nat>, t: nat, user: string, route: seq<string>)
    requires l < |L| && OnHops(E, L, q, t, user, route) && L[l].owner != Hop(t)
    ensures var L' := L[l := L[l].(released := true)];
            OnHops(E, L', q, t, user, route) && forall i :: 0 <= i < |q| ==> L'[q[i]] == L[q[i]]
  {
  }

  function Returned(L: seq<Lease>, l: nat): seq<Lease>
    requires l < |L|
  {
    L[l := L[l].(released := true)]
  }

  lemma ReturnedHeld(E: seq<Entry>, L: seq<Lease>, l: nat)
    requires HeldOk(E, L) && LeasesOk(E, L) && l < |L|
    requires L[l].owner.Hop? ==> L[l].owner.target < |E| && E[L[l].owner.target].phase != Live
    ensures HeldOk(E, Returned(L, l)) && LeasesOk(E, Returned(L, l))
  {
    forall e | 0 <= e < |E| && E[e].phase == Live
      ensures OnHops(E, Returned(L, l), E[e].held, e, E[e].key.userId, E[e].route)
      ensures forall i :: 0 <= i < |E[e].held| ==> Returned(L, l)[E[e].held[i]] == L[E[e].held[i]]
    {
      ReleasedElsewhere(E, L, l, E[e].held, e, E[e].key.userId, E[e].route);
    }
  }

  lemma ReturnedBorrow(E: seq<Entry>, L: seq<Lease>, J: seq<Job>, l: nat, p: nat)
    requires BorrowOk(E, L, J) && JobsOk(E, J) && p < |J| && J[p].Route? && J[p].got != []
    requires l == J[p].got[|J[p].got| - 1]
    ensures l < |L| && BorrowOk(E, Returned(L, l), J[p := J[p].(got := J[p].got[..|J[p].got| - 1])])
  {
    var J' := J[p := J[p].(got := J[p].got[..|J[p].got| - 1])];
    assert JobOk(E, p, J[p]);
    assert OnHops(E, L, J[p].got, J[p].target, J[p].user, J[p].hops);
    forall q | 0 <= q < |J| && J[q].Route?
      ensures OnHops(E, Returned(L, l), J'[q].got, J[q].target, J[q].user, J[q].hops)
      ensures forall i :: 0 <= i < |J'[q].got| ==> !Returned(L, l)[J'[q].got[i]].released
    {
      assert JobOk(E, q, J[q]);
      if q != p { ReleasedElsewhere(E, L, l, J[q].got, J[q].target, J[q].user, J[q].hops); }
    }
  }

  lemma ReturnedOwners(E: seq<Entry>, L: seq<Lease>, J: seq<Job>, l: nat, p: nat)
    requires OwnersOk(E, L, J) && JobsOk(E, J) && p < |J| && J[p].Route? && J[p].got != []
    requires l == J[p].got[|J[p].got| - 1] && l < |L|
    ensures OwnersOk(E, Returned(L, l), J[p := J[p].(got := J[p].got[..|J[p].got| - 1])])
  {
    var j := J[p];
    assert JobOk(E, p, j);
    forall k | k in j.got && k != l ensures k in j.got[..|j.got| - 1] {
      var i :| 0 <= i < |j.got| && j.got[i] == k;
      assert j.got[..|j.got| - 1][i] == k;
    }
  }

  lemma GiveBackLinks(E: seq<Entry>, L: seq<Lease>, J: seq<Job>, p: nat)
    requires Links(E, L, J) && p < |J| && J[p].Route? && J[p].stage == Unwinding && J[p].got != []
    ensures var l := J[p].got[|J[p].got| - 1];
            l < |L| && !L[l].released && Links(E, Returned(L, l), J[p := J[p].(got := J[p].got[..|J[p].got| - 1])])
  {
    var j := J[p];
    var l := j.got[|j.got| - 1];
    assert JobOk(E, p, j);
    assert OnHops(E, L, j.got, j.target, j.user, j.hops);
    assert L[l].owner == Hop(j.target);
    ReturnedBorrow(E, L, J, l, p);
    ReturnedHeld(E, L, l);
    ReturnedOwners(E, L, J, l, p);
    var J' := J[p := j.(got := j.got[..|j.got| - 1])];
    forall q | 0 <= q < |J| ensures JobOk(E, q, J'[q]) { assert JobOk(E, q, J[q]); }
  }

  lemma ReleasedLinks(E: seq<Entry>, L: seq<Lease>, J: seq<Job>, l: nat)
    requires Links(E, L, J) && l < |L| && L[l].owner == Caller
    ensures Links(E, Returned(L, l), J)
  {
    ReturnedHeld(E, L, l);
    forall p | 0 <= p < |J| && J[p].Route?
      ensures OnHops(E, Returned(L, l), J[p].got, J[p].target, J[p].user, J[p].hops)
      ensures forall i :: 0 <= i < |J[p].got| ==> !Returned(L, l)[J[p].got[i]].released
    {
      ReleasedElsewhere(E, L, l, J[p].got, J[p].target, J[p].user, J[p].hops);
    }
    assert OwnersOk(E, Returned(L, l), J);
  }

  lemma JobAt(s: Sys, p: nat)
    requires Links(s.table.entries, s.leases, s.jobs) && p < |s.jobs|
    ensures JobOk(s.table.entries, p, s.jobs[p])
  {
  }

  lemma WaiterCancelledKept(s: Sys, p: nat)
    requires Inv(s) && Enabled(s, WaiterCancelled(p))
    ensures Inv(Apply(s, WaiterCancelled(p)))
  {
    forall e: nat { JobRefsSet(s.jobs, p, Gone, e); }
    JobKept(s.table.entries, s.leases, s.jobs, p, Gone);
    DropKept(SetJob(s, p, Gone), s.jobs[p].on);
  }

  lemma HopCancelledKept(s: Sys, p: nat)
    requires Inv(s) && Enabled(s, HopCancelled(p))
    ensures Inv(Apply(s, HopCancelled(p)))
  {
    hide Links, MapOk;
    var j := s.jobs[p].(stage := Unwinding);
    var s' := SetJob(s, p, j);
    JobAt(s, p);
    JobKept(s.table.entries, s.leases, s.jobs, p, j);
    assert RefsOneOver(s', s.jobs[p].stage.hop) by {
      forall e: nat { JobRefsSet(s.jobs, p, j, e); }
    }
    assert EntriesOk(s') && SweepOk(s');
    DropKept(s', s.jobs[p].stage.hop);
  }

  lemma CallerReleasesKept(s: Sys, l: nat)
    requires Inv(s) && Enabled(s, CallerReleases(l))
    ensures Inv(Apply(s, CallerReleases(l)))
  {
    if !s.leases[l].released {
      var x := s.leases[l].(released := true);
      var s' := s.(leases := s.leases[l := x]);
      assert RefsOneOver(s', x.entry) by {
        forall e: nat { LeaseRefsSet(s.leases, l, x, e); }
      }
      ReleasedLinks(s.table.entries, s.leases, s.jobs, l);
      DropKept(s', x.entry);
    }
  }

  lemma ReturnedRefs(s: Sys, l: nat, jobs: seq<Job>)
    requires RefsOk(s) && l < |s.leases| && !s.leases[l].released
    requires forall e: nat :: JobRefs(jobs, e) == JobRefs(s.jobs, e)
    ensures RefsOneOver(s.(leases := Returned(s.leases, l), jobs := jobs), s.leases[l].entry)
  {
    forall e: nat
      ensures LeaseRefs(Returned(s.leases, l), e) + LeaseHolds(s.leases[l], e) == LeaseRefs(s.leases, e)
    {
      LeaseRefsSet(s.leases, l, s.leases[l].(released := true), e);
    }
  }

  lemma GiveBackKept(s: Sys, p: nat)
    requires Inv(s) && Enabled(s, GiveBack(p))
    ensures Inv(Apply(s, GiveBack(p)))
  {
    hide Links, MapOk;
    var j := s.jobs[p];
    GiveBackLinks(s.table.entries, s.leases, s.jobs, p);
    var l := j.got[|j.got| - 1];
    var j' := j.(got := j.got[..|j.got| - 1]);
    var J' := s.jobs[p := j'];
    forall e: nat ensures JobRefs(J', e) == JobRefs(s.jobs, e) { JobRefsSet(s.jobs, p, j', e); }
    ReturnedRefs(s, l, J');
    var s' := s.(leases := Returned(s.leases, l), jobs := J');
    assert SweepOk(s') && EntriesOk(s');
    DropKept(s', s.leases[l].entry);
    assert Apply(s, GiveBack(p)) == s'.(table := Drop(s'.table, s.leases[l].entry));
  }

  // Callers that arrive.

  /** Changes that leave keys and marks alone leave the map right. */
  lemma MapKept(t: Table, E': seq<Entry>)
    requires MapOk(t) && |E'| == |t.entries|
    requires forall e :: 0 <= e < |E'| ==> E'[e].key == t.entries[e].key && E'[e].evicted == t.entries[e].evicted
    ensures MapOk(t.(entries := E'))
  {
    forall e | 0 <= e < |E'| ensures InMap(t.(entries := E'), e) <==> !E'[e].evicted {
      assert InMap(t, e) <==> !t.entries[e].evicted;
    }
  }

  /** As RefsOk, but one reference to `e` is held that the entry does not count yet. */
  ghost predicate RefsOneUnder(s: Sys, e: nat) {
    forall x :: 0 <= x < |s.table.entries| && s.table.entries[x].phase != Failed ==>
      s.table.entries[x].refs + One(x == e) == JobRefs(s.jobs, x) + LeaseRefs(s.leases, x)
  }

  function Joining(t: Table, e: nat): Table
    requires e < |t.entries|
  {
    t.(entries := t.entries[e := t.entries[e].(refs := t.entries[e].refs + 1)])
  }

  lemma JoinedKept(s: Sys, e: nat)
    requires e < |s.table.entries| && !s.table.entries[e].evicted && RefsOneUnder(s, e)
    requires MapOk(s.table) && EntriesOk(s) && Links(s.table.entries, s.leases, s.jobs) && SweepOk(s)
    ensures Inv(s.(table := Joining(s.table, e)))
  {
    hide Links;
    var x := s.table.entries[e];
    var s' := s.(table := Joining(s.table, e));
    assert EntryOk(x, s.table.closed, s.tick);
    assert EntriesOk(s') by {
      assert EntryOk(s'.table.entries[e], s.table.closed, s.tick);
    }
    MapKept(s.table, s'.table.entries);
    assert RefsOk(s');
    assert SweepOk(s');
    LinksKept(s.table.entries, s'.table.entries, s.leases, s.jobs);
  }

  lemma WaiterLinks(E: seq<Entry>, L: seq<Lease>, J: seq<Job>, e: nat)
    requires Links(E, L, J) && e < |E|
    ensures Links(E, L, J + [Waiting(e)])
  {
  }

  lemma FreshLinks(E: seq<Entry>, L: seq<Lease>, J: seq<Job>, x: Entry, J': seq<Job>)
    requires Links(E, L, J) && JobsOk(E + [x], J') && BorrowOk(E, L, J')
    requires x.phase == Dialing && |J'| >= |J|
    requires forall p ::
      0 <= p < |J| && J[p].Route? ==> J'[p].Route? && J'[p].target == J[p].target && J'[p].got == J[p].got
    ensures Links(E + [x], L, J')
  {
    var E' := E + [x];
    forall e | 0 <= e < |E'| && E'[e].phase == Live
      ensures OnHops(E', L, E'[e].held, e, E'[e].key.userId, E'[e].route)
    {
      assert OnHops(E, L, E[e].held, e, E[e].key.userId, E[e].route);
    }
    forall p | 0 <= p < |J'| && J'[p].Route?
      ensures OnHops(E', L, J'[p].got, J'[p].target, J'[p].user, J'[p].hops)
    {
      assert OnHops(E, L, J'[p].got, J'[p].target, J'[p].user, J'[p].hops);
    }
  }

  lemma FreshMap(t: Table, x: Entry)
    requires MapOk(t) && !t.closed && !x.evicted && x.key !in t.conns
    ensures MapOk(Table(t.conns[x.key := |t.entries|], t.entries + [x], false))
  {
    var t' := Table(t.conns[x.key := |t.entries|], t.entries + [x], false);
    forall e | 0 <= e < |t'.entries| ensures InMap(t', e) <==> !t'.entries[e].evicted {
      if e < |t.entries| { assert InMap(t, e) <==> !t.entries[e].evicted; }
    }
  }

  lemma FreshRefs(s: Sys, x: Entry, J': seq<Job>)
    requires Inv(s) && x.phase == Dialing && x.refs == 1
    requires forall e: nat :: JobRefs(J', e) == JobRefs(s.jobs, e) + One(e == |s.table.entries|)
    ensures RefsOk(s.(table := Table(s.table.conns[x.key := |s.table.entries|], s.table.entries + [x], false), jobs :=
      J'))
  {
    hide MapOk, EntriesOk, SweepOk;
    NoRefsBeyond(s, |s.table.entries|);
    hide Links;
  }

  lemma FreshEntries(s: Sys, x: Entry, J': seq<Job>)
    requires EntriesOk(s) && SweepOk(s) && !s.table.closed && EntryOk(x, false, s.tick) && x.byClose == Idle
    ensures var s' :=
      s.(table := Table(s.table.conns[x.key := |s.table.entries|], s.table.entries + [x], false), jobs := J');
            EntriesOk(s') && SweepOk(s')
  {
    hide EntryOk;
  }

  lemma FreshKept(s: Sys, x: Entry, J': seq<Job>)
    requires Inv(s) && x.phase == Dialing && !x.evicted && x.refs == 1 && x.key !in s.table.conns && !s.table.closed
    requires EntryOk(x, false, s.tick) && x.byClose == Idle
    requires JobsOk(s.table.entries + [x], J') && BorrowOk(s.table.entries, s.leases, J') && |J'| >= |s.jobs|
    requires forall p :: 0 <= p < |s.jobs| && s.jobs[p].Route? ==>
               J'[p].Route? && J'[p].target == s.jobs[p].target && J'[p].got == s.jobs[p].got
    requires forall e: nat :: JobRefs(J', e) == JobRefs(s.jobs, e) + One(e == |s.table.entries|)
    ensures Inv(s.(table := Table(s.table.conns[x.key := |s.table.entries|], s.table.entries + [x], false), jobs := J'))
  {
    hide Links, JobsOk, BorrowOk, MapOk, RefsOk, EntriesOk, SweepOk, EntryOk;
    FreshMap(s.table, x);
    FreshRefs(s, x, J');
    FreshEntries(s, x, J');
    FreshLinks(s.table.entries, s.leases, s.jobs, x, J');
  }

  lemma CallJoined(s: Sys, e: nat)
    requires Inv(s) && e < |s.table.entries| && !s.table.entries[e].evicted
    ensures Inv(s.(table := Joining(s.table, e), jobs := s.jobs + [Waiting(e)]))
  {
    var s' := s.(jobs := s.jobs + [Waiting(e)]);
    assert RefsOneUnder(s', e) by {
      forall x: nat { JobRefsAdd(s.jobs, Waiting(e), x); }
    }
    WaiterLinks(s.table.entries, s.leases, s.jobs, e);
    assert EntriesOk(s') && SweepOk(s');
    JoinedKept(s', e);
  }

  lemma CallJobs(E: seq<Entry>, L: seq<Lease>, J: seq<Job>, x: Entry, j: Job)
    requires Links(E, L, J) && j.Route? && j.target == |E| && j.got == [] && JobOk(E + [x], |J|, j)
    ensures JobsOk(E + [x], J + [j]) && BorrowOk(E, L, J + [j])
  {
    forall p | 0 <= p < |J| ensures JobOk(E + [x], p, J[p]) { assert JobOk(E, p, J[p]); }
  }

  lemma CallFresh(s: Sys, user: string, hops: seq<string>, id: string)
    requires Inv(s) && !s.table.closed && PathKey(user, hops, id) !in s.table.conns
    ensures var x := NewEntry(PathKey(user, hops, id), |s.jobs|, hops, true, []);
            var n := |s.table.entries|;
            Inv(s.(table := Table(s.table.conns[x.key := n], s.table.entries + [x], false),
                   jobs := s.jobs + [Route(n, user, hops, [], Between)]))
  {
    hide Links, MapOk, RefsOk, EntriesOk, SweepOk;
    var E := s.table.entries;
    var x := NewEntry(PathKey(user, hops, id), |s.jobs|, hops, true, []);
    var j := Route(|E|, user, hops, [], Between);
    forall e: nat ensures JobRefs(s.jobs + [j], e) == JobRefs(s.jobs, e) + One(e == |E|) { JobRefsAdd(s.jobs, j, e); }
    CallJobs(E, s.leases, s.jobs, x, j);
    FreshKept(s, x, s.jobs + [j]);
  }

  lemma CallKept(s: Sys, user: string, hops: seq<string>, id: string)
    requires Inv(s)
    ensures Inv(Apply(s, Call(user, hops, id)))
  {
    hide Links, RefsOk, EntriesOk, SweepOk;
    var key := PathKey(user, hops, id);
    if !s.table.closed {
      if key in s.table.conns {
        assert InMap(s.table, s.table.conns[key]);
        CallJoined(s, s.table.conns[key]);
      } else {
        CallFresh(s, user, hops, id);
      }
    }
  }

  /** A hop step that keeps the route's target and leases. */
  lemma StageRefs(s: Sys, p: nat, stage: Stage)
    requires p < |s.jobs| && s.jobs[p].Route? && (s.jobs[p].stage == Between || s.jobs[p].stage == Unwinding)
    ensures forall e: nat :: JobRefs(s.jobs[p := s.jobs[p].(stage := stage)], e)
                             == JobRefs(s.jobs, e) + One((stage.AwaitingHop? || stage.DialingHop?) && stage.hop == e)
  {
    forall e: nat
      ensures JobRefs(s.jobs[p := s.jobs[p].(stage := stage)], e)
              == JobRefs(s.jobs, e) + One((stage.AwaitingHop? || stage.DialingHop?) && stage.hop == e)
    {
      JobRefsSet(s.jobs, p, s.jobs[p].(stage := stage), e);
    }
  }

  lemma AbandonKept(s: Sys, p: nat)
    requires Inv(s) && Enabled(s, Abandon(p))
    ensures Inv(Apply(s, Abandon(p)))
  {
    StageRefs(s, p, Unwinding);
    assert JobOk(s.table.entries, p, s.jobs[p]);
    JobKept(s.table.entries, s.leases, s.jobs, p, s.jobs[p].(stage := Unwinding));
    var s' := Apply(s, Abandon(p));
    assert EntriesOk(s') && SweepOk(s') && RefsOk(s');
  }

  lemma NextHopJoined(s: Sys, p: nat, e: nat)
    requires Enabled(s, NextHop(p)) && e < |s.table.entries| && !s.table.entries[e].evicted
    requires var j := s.jobs[p]; s.table.entries[e].key == PathKey(j.user, j.hops[..|j.got|], j.hops[|j.got|])
    requires Inv(s)
    ensures Inv(SetJob(s, p, s.jobs[p].(stage := AwaitingHop(e))).(table := Joining(s.table, e)))
  {
    hide Links, MapOk;
    var j' := s.jobs[p].(stage := AwaitingHop(e));
    var s' := SetJob(s, p, j');
    StageRefs(s, p, AwaitingHop(e));
    JobAt(s, p);
    JobKept(s.table.entries, s.leases, s.jobs, p, j');
    assert EntriesOk(s') && SweepOk(s') && RefsOneUnder(s', e);
    JoinedKept(s', e);
  }

  lemma HopJobs(E: seq<Entry>, L: seq<Lease>, J: seq<Job>, x: Entry, p: nat)
    requires Links(E, L, J) && p < |J| && J[p].Route? && J[p].stage == Between
    requires x.phase == Dialing && x.dialler == p && JobOk(E + [x], p, J[p].(stage := DialingHop(|E|)))
    ensures JobsOk(E + [x], J[p := J[p].(stage := DialingHop(|E|))])
      && BorrowOk(E, L, J[p := J[p].(stage := DialingHop(|E|))])
  {
    var J' := J[p := J[p].(stage := DialingHop(|E|))];
    forall q | 0 <= q < |J'| ensures JobOk(E + [x], q, J'[q]) { assert JobOk(E, q, J[q]); }
  }

  lemma NextHopFresh(s: Sys, p: nat)
    requires Inv(s) && Enabled(s, NextHop(p)) && !s.table.closed
    requires var j := s.jobs[p]; PathKey(j.user, j.hops[..|j.got|], j.hops[|j.got|]) !in s.table.conns
    ensures var j := s.jobs[p];
            var n := |s.table.entries|;
            var x := NewEntry(PathKey(j.user, j.hops[..|j.got|], j.hops[|j.got|]), p, j.hops[..|j.got|], false,
                Through(s, j.got));
            Inv(SetJob(s, p, j.(stage := DialingHop(n))).(table :=
                Table(s.table.conns[x.key := n], s.table.entries + [x], false)))
  {
    hide Links, MapOk, RefsOk, EntriesOk, SweepOk;
    var j := s.jobs[p];
    var E := s.table.entries;
    var x := NewEntry(PathKey(j.user, j.hops[..|j.got|], j.hops[|j.got|]), p, j.hops[..|j.got|], false,
        Through(s, j.got));
    var J' := s.jobs[p := j.(stage := DialingHop(|E|))];
    StageRefs(s, p, DialingHop(|E|));
    JobAt(s, p);
    HopJobs(E, s.leases, s.jobs, x, p);
    FreshKept(s, x, J');
  }

  lemma NextHopKept(s: Sys, p: nat)
    requires Inv(s) && Enabled(s, NextHop(p))
    ensures Inv(Apply(s, NextHop(p)))
  {
    hide Links, RefsOk, EntriesOk, SweepOk;
    var j := s.jobs[p];
    var key := PathKey(j.user, j.hops[..|j.got|], j.hops[|j.got|]);
    if s.table.closed {
      AbandonKept(s, p);
    } else if key in s.table.conns {
      assert InMap(s.table, s.table.conns[key]);
      NextHopJoined(s, p, s.table.conns[key]);
    } else {
      NextHopFresh(s, p);
    }
  }

  // Callers that get a lease.

  lemma AddedHeld(E: seq<Entry>, L: seq<Lease>, x: Lease)
    requires HeldOk(E, L)
    ensures HeldOk(E, L + [x])
  {
    forall e | 0 <= e < |E| && E[e].phase == Live
      ensures OnHops(E, L + [x], E[e].held, e, E[e].key.userId, E[e].route)
    {
      assert OnHops(E, L, E[e].held, e, E[e].key.userId, E[e].route);
    }
  }

  lemma AddedBorrow(E: seq<Entry>, L: seq<Lease>, J: seq<Job>, x: Lease)
    requires BorrowOk(E, L, J)
    ensures BorrowOk(E, L + [x], J)
  {
    forall p | 0 <= p < |J| && J[p].Route?
      ensures OnHops(E, L + [x], J[p].got, J[p].target, J[p].user, J[p].hops)
    {
      assert OnHops(E, L, J[p].got, J[p].target, J[p].user, J[p].hops);
    }
  }

  lemma GrantLinks(E: seq<Entry>, L: seq<Lease>, J: seq<Job>, x: Lease)
    requires Links(E, L, J) && x.entry < |E| && E[x.entry].phase == Live && x.owner == Caller
    ensures Links(E, L + [x], J)
  {
    AddedHeld(E, L, x);
    AddedBorrow(E, L, J, x);
  }

  lemma WaiterWakesRefs(s: Sys, p: nat)
    requires RefsOk(s) && Enabled(s, WaiterWakes(p))
    ensures RefsOk(Apply(s, WaiterWakes(p)))
  {
    var e := s.jobs[p].on;
    forall x: nat { JobRefsSet(s.jobs, p, Gone, x); }
    forall x: nat { LeaseRefsAdd(s.leases, Lease(e, Caller, false), x); }
  }

  lemma WaiterWakesKept(s: Sys, p: nat)
    requires Inv(s) && Enabled(s, WaiterWakes(p))
    ensures Inv(Apply(s, WaiterWakes(p)))
  {
    hide Links, RefsOk, MapOk;
    var e := s.jobs[p].on;
    var s' := Apply(s, WaiterWakes(p));
    WaiterWakesRefs(s, p);
    JobKept(s.table.entries, s.leases, s.jobs, p, Gone);
    if s.table.entries[e].phase == Live {
      GrantLinks(s.table.entries, s.leases, s'.jobs, Lease(e, Caller, false));
    }
    assert EntriesOk(s') && SweepOk(s');
  }

  /** The next hop's lease extends what the route has taken. */
  lemma Extended(E: seq<Entry>, L: seq<Lease>, q: seq<nat>, t: nat, user: string, route: seq<string>, e: nat)
    requires OnHops(E, L, q, t, user, route) && |q| < |route|
    requires e < |E| && E[e].key == PathKey(user, route[..|q|], route[|q|])
    ensures OnHops(E, L + [Lease(e, Hop(t), false)], q + [|L|], t, user, route)
  {
  }

  lemma HopGrantBorrow(E: seq<Entry>, L: seq<Lease>, J: seq<Job>, p: nat)
    requires BorrowOk(E, L, J) && p < |J| && J[p].Route? && J[p].stage.AwaitingHop? && JobOk(E, p, J[p])
    ensures BorrowOk(E, L + [Lease(J[p].stage.hop, Hop(J[p].target), false)],
                     J[p := J[p].(got := J[p].got + [|L|], stage := Between)])
  {
    var j := J[p];
    Extended(E, L, j.got, j.target, j.user, j.hops, j.stage.hop);
    AddedBorrow(E, L, J, Lease(j.stage.hop, Hop(j.target), false));
  }

  lemma HopGrantJobs(E: seq<Entry>, J: seq<Job>, p: nat, n: nat)
    requires JobsOk(E, J) && p < |J| && J[p].Route? && J[p].stage.AwaitingHop?
    ensures JobsOk(E, J[p := J[p].(got := J[p].got + [n], stage := Between)])
  {
    var J' := J[p := J[p].(got := J[p].got + [n], stage := Between)];
    forall q | 0 <= q < |J| ensures JobOk(E, q, J'[q]) { assert JobOk(E, q, J[q]); }
  }

  lemma HopGrantOwners(E: seq<Entry>, L: seq<Lease>, J: seq<Job>, p: nat)
    requires OwnersOk(E, L, J) && p < |J| && J[p].Route? && J[p].stage.AwaitingHop? && JobOk(E, p, J[p])
    ensures OwnersOk(E, L + [Lease(J[p].stage.hop, Hop(J[p].target), false)],
                     J[p := J[p].(got := J[p].got + [|L|], stage := Between)])
  {
  }

  lemma HopGrantLinks(E: seq<Entry>, L: seq<Lease>, J: seq<Job>, p: nat)
    requires Links(E, L, J) && p < |J| && J[p].Route? && J[p].stage.AwaitingHop?
    requires J[p].stage.hop < |E| && E[J[p].stage.hop].phase == Live
    ensures Links(E, L + [Lease(J[p].stage.hop, Hop(J[p].target), false)],
                  J[p := J[p].(got := J[p].got + [|L|], stage := Between)])
  {
    assert JobOk(E, p, J[p]);
    AddedHeld(E, L, Lease(J[p].stage.hop, Hop(J[p].target), false));
    HopGrantBorrow(E, L, J, p);
    HopGrantJobs(E, J, p, |L|);
    HopGrantOwners(E, L, J, p);
    hide HeldOk, BorrowOk, OwnersOk, JobsOk;
  }

  lemma HopReadyRefs(s: Sys, p: nat)
    requires RefsOk(s) && Enabled(s, HopReady(p))
    ensures RefsOk(Apply(s, HopReady(p)))
  {
    var j := s.jobs[p];
    var s' := Apply(s, HopReady(p));
    forall x: nat { JobRefsSet(s.jobs, p, s'.jobs[p], x); }
    forall x: nat { LeaseRefsAdd(s.leases, Lease(j.stage.hop, Hop(j.target), false), x); }
  }

  lemma HopReadyKept(s: Sys, p: nat)
    requires Inv(s) && Enabled(s, HopReady(p))
    ensures Inv(Apply(s, HopReady(p)))
  {
    hide Links, RefsOk, MapOk;
    var j := s.jobs[p];
    var s' := Apply(s, HopReady(p));
    HopReadyRefs(s, p);
    JobAt(s, p);
    if s.table.entries[j.stage.hop].phase == Live {
      HopGrantLinks(s.table.entries, s.leases, s.jobs, p);
    } else {
      JobKept(s.table.entries, s.leases, s.jobs, p, s'.jobs[p]);
    }
    assert EntriesOk(s') && SweepOk(s');
  }

  // Dials that end.

  /** A settled entry is never one that a lease or another dial refers to as dialling. */
  lemma SettledLinks(E: seq<Entry>, L: seq<Lease>, J: seq<Job>, p: nat, e: nat, ok: bool, held: seq<nat>, at: nat,
      j: Job)
    requires Links(E, L, J) && p < |J| && J[p].Route? && Dials(E, p, e)
    requires JobOk(E[e := Settled(E[e], ok, held, at)], p, j)
    requires if J[p].target == e then j == Waiting(e) && !J[p].stage.DialingHop?
             else J[p].stage == DialingHop(e) && j == J[p].(stage := AwaitingHop(e))
    ensures var E' := E[e := Settled(E[e], ok, held, at)];
            LeasesOk(E', L) && JobsOk(E', J[p := j]) && BorrowOk(E', L, J[p := j])
  {
    hide HeldOk, OwnersOk;
    var E' := E[e := Settled(E[e], ok, held, at)];
    var J' := J[p := j];
    assert JobsOk(E', J') by {
      forall q | 0 <= q < |J| && q != p ensures JobOk(E', q, J'[q]) { assert JobOk(E, q, J[q]); }
    }
    forall q | 0 <= q < |J'| && J'[q].Route?
      ensures OnHops(E', L, J'[q].got, J'[q].target, J'[q].user, J'[q].hops)
    {
      assert OnHops(E, L, J[q].got, J[q].target, J[q].user, J[q].hops);
    }
  }

  lemma SettledHeld(E: seq<Entry>, L: seq<Lease>, e: nat, ok: bool, held: seq<nat>, at: nat)
    requires HeldOk(E, L) && LeasesOk(E, L) && e < |E| && E[e].phase == Dialing
    requires E[e].byRelease == Idle && E[e].byClose == Idle
    requires ok ==> OnHops(E, L, held, e, E[e].key.userId, E[e].route)
                    && |held| == (if E[e].asTarget then |E[e].route| else 0)
                    && forall i :: 0 <= i < |held| ==> !L[held[i]].released && E[L[held[i]].entry].liveAt < at
    ensures HeldOk(E[e := Settled(E[e], ok, held, at)], L)
  {
    var E' := E[e := Settled(E[e], ok, held, at)];
    forall x | 0 <= x < |E'| && E'[x].phase == Live
      ensures OnHops(E', L, E'[x].held, x, E'[x].key.userId, E'[x].route)
    {
      assert x != e ==> OnHops(E, L, E[x].held, x, E[x].key.userId, E[x].route);
    }
  }

  lemma SettledOwners(E: seq<Entry>, L: seq<Lease>, J: seq<Job>, p: nat, e: nat, ok: bool, held: seq<nat>, at: nat,
      j: Job)
    requires OwnersOk(E, L, J) && p < |J| && J[p].Route? && Dials(E, p, e)
    requires if J[p].target == e then ok || held == [] else j.Route? && j.target == J[p].target && j.got == J[p].got
    requires J[p].target == e ==> J[p].got == held
    ensures OwnersOk(E[e := Settled(E[e], ok, held, at)], L, J[p := j])
  {
  }

  ghost predicate Settling(s: Sys, p: nat, e: nat, ok: bool, held: seq<nat>, j: Job) {
    && p < |s.jobs| && s.jobs[p].Route? && Dials(s.table.entries, p, e)
    && (s.jobs[p].target == e ==> j == Waiting(e) && !s.jobs[p].stage.DialingHop? && held == s.jobs[p].got
                                  && (if ok then |held| == |s.jobs[p].hops| else held == [])
                                  && !s.jobs[p].stage.AwaitingHop?)
    && (s.jobs[p].target != e ==>
          s.jobs[p].stage == DialingHop(e) && j == s.jobs[p].(stage := AwaitingHop(e)) && held == [])
  }

  lemma SettlingLinks(s: Sys, p: nat, e: nat, ok: bool, held: seq<nat>, j: Job)
    requires Settling(s, p, e, ok, held, j) && Links(s.table.entries, s.leases, s.jobs) && EntriesOk(s)
    ensures Links(s.table.entries[e := Settled(s.table.entries[e], ok, held, s.tick)], s.leases, s.jobs[p := j])
  {
    var E := s.table.entries;
    assert EntryOk(E[e], s.table.closed, s.tick);
    assert JobOk(E, p, s.jobs[p]);
    SettledLinks(E, s.leases, s.jobs, p, e, ok, held, s.tick, j);
    SettledOwners(E, s.leases, s.jobs, p, e, ok, held, s.tick, j);
    if ok {
      assert OnHops(E, s.leases, held, e, E[e].key.userId, E[e].route);
      forall i | 0 <= i < |held| ensures E[s.leases[held[i]].entry].liveAt < s.tick {
        assert EntryOk(E[s.leases[held[i]].entry], s.table.closed, s.tick);
      }
    }
    SettledHeld(E, s.leases, e, ok, held, s.tick);
  }

  lemma SettlingRefs(s: Sys, p: nat, e: nat, ok: bool, held: seq<nat>, j: Job)
    requires Settling(s, p, e, ok, held, j) && RefsOk(s)
    ensures s.table.entries[e].refs > 0
    ensures RefsOk(s.(table := Finish(s.table, e, ok, held, s.tick), tick := s.tick + 1, jobs := s.jobs[p := j]))
  {
    JobRefsMember(s.jobs, p, e);
    forall x: nat ensures JobRefs(s.jobs[p := j], x) == JobRefs(s.jobs, x) { JobRefsSet(s.jobs, p, j, x); }
  }

  lemma SettlingEntries(s: Sys, p: nat, e: nat, ok: bool, held: seq<nat>, j: Job)
    requires Settling(s, p, e, ok, held, j) && EntriesOk(s) && s.table.entries[e].refs > 0
    ensures EntriesOk(s.(table := Finish(s.table, e, ok, held, s.tick), tick := s.tick + 1, jobs := s.jobs[p := j]))
  {
    assert EntryOk(s.table.entries[e], s.table.closed, s.tick);
    forall x | 0 <= x < |s.table.entries| ensures EntryOk(s.table.entries[x], s.table.closed, s.tick + 1) {
      assert EntryOk(s.table.entries[x], s.table.closed, s.tick);
    }
  }

  /** Once a dial has ended, whoever ran it is in the position of a waiter. */
  lemma SettlingKept(s: Sys, p: nat, e: nat, ok: bool, held: seq<nat>, j: Job)
    requires Inv(s) && Settling(s, p, e, ok, held, j)
    ensures Inv(s.(table := Finish(s.table, e, ok, held, s.tick), tick := s.tick + 1, jobs := s.jobs[p := j]))
  {
    hide Links, RefsOk, EntriesOk;
    var s' := s.(table := Finish(s.table, e, ok, held, s.tick), tick := s.tick + 1, jobs := s.jobs[p := j]);
    FinishMap(s.table, e, ok, held, s.tick);
    SettlingRefs(s, p, e, ok, held, j);
    SettlingEntries(s, p, e, ok, held, j);
    SettlingLinks(s, p, e, ok, held, j);
    assert SweepOk(s');
  }

  lemma HopDialledKept(s: Sys, p: nat, ok: bool)
    requires Inv(s) && Enabled(s, HopDialled(p, ok))
    ensures Inv(Apply(s, HopDialled(p, ok)))
  {
    hide Links, RefsOk, EntriesOk, MapOk, SweepOk;
    var j := s.jobs[p];
    var h := j.stage.hop;
    JobAt(s, p);
    var j' := j.(stage := AwaitingHop(h));
    SettlingKept(s, p, h, ok, [], j');
    var s' := s.(table := Finish(s.table, h, ok, [], s.tick), tick := s.tick + 1, jobs := s.jobs[p := j']);
    HopReadyKept(s', p);
    assert Apply(s, HopDialled(p, ok)) == Apply(s', HopReady(p));
  }

  lemma TargetEndsKept(s: Sys, p: nat, ok: bool)
    requires Inv(s) && Enabled(s, if ok then TargetDialled(p) else DialFailed(p))
    ensures Inv(Apply(s, if ok then TargetDialled(p) else DialFailed(p)))
  {
    hide Links, RefsOk, EntriesOk, MapOk, SweepOk;
    var j := s.jobs[p];
    JobAt(s, p);
    SettlingKept(s, p, j.target, ok, j.got, Waiting(j.target));
    var s' := s.(table := Finish(s.table, j.target, ok, j.got, s.tick), tick := s.tick + 1, jobs :=
        s.jobs[p := Waiting(j.target)]);
    WaiterWakesKept(s', p);
    assert Apply(s, if ok then TargetDialled(p) else DialFailed(p)) == Apply(s', WaiterWakes(p));
  }

  // Connections that end.

  lemma DiedKept(s: Sys, e: nat)
    requires Inv(s) && Enabled(s, Died(e))
    ensures Inv(Apply(s, Died(e)))
  {
    hide Links, MapOk;
    var s' := Apply(s, Died(e));
    EvictMap(s.table, e);
    LinksKept(s.table.entries, s'.table.entries, s.leases, s.jobs);
    assert EntriesOk(s') by {
      assert EntryOk(s.table.entries[e], s.table.closed, s.tick);
    }
    assert RefsOk(s');
    assert SweepOk(s');
  }

  lemma ShutEntryOk(t: Table, e: nat, tick: nat)
    requires MapOk(t) && e < |t.entries| && EntryOk(t.entries[e], t.closed, tick)
    ensures EntryOk(ShutEntry(t, e), true, tick) && SameCore(t.entries[e], ShutEntry(t, e))
      && SameGave(t.entries[e], ShutEntry(t, e))
  {
    assert InMap(t, e) <==> !t.entries[e].evicted;
  }

  lemma ShutClosed(t: Table)
    ensures Shut(t).closed
  {
  }

  lemma CloseEntries(s: Sys)
    requires MapOk(s.table) && EntriesOk(s)
    ensures var E, E' := s.table.entries, Shut(s.table).entries;
            |E'| == |E|
            && forall e :: 0 <= e < |E| ==>
                 && EntryOk(E'[e], true, s.tick) && SameCore(E[e], E'[e])
                 && SameGave(E[e], E'[e]) && E'[e].refs == E[e].refs
  {
    forall e | 0 <= e < |s.table.entries|
      ensures EntryOk(ShutEntry(s.table, e), true, s.tick) && SameCore(s.table.entries[e], ShutEntry(s.table, e))
              && SameGave(s.table.entries[e], ShutEntry(s.table, e))
    {
      assert EntryOk(s.table.entries[e], s.table.closed, s.tick);
      ShutEntryOk(s.table, e, s.tick);
    }
  }

  lemma CloseSweep(s: Sys, order: seq<nat>)
    requires SweepOk(s) && CloseOrder(s.table, order)
    ensures SweepOk(s.(table := Shut(s.table), sweep := s.sweep + order))
  {
    var E' := Shut(s.table).entries;
    forall e | 0 <= e < |E'| && E'[e].byClose.Busy() ensures e in s.sweep + order {
      assert E'[e] == ShutEntry(s.table, e);
      if !InMap(s.table, e) { assert e in s.sweep; }
    }
  }

  lemma CloseKept(s: Sys, order: seq<nat>)
    requires Inv(s) && Enabled(s, Close(order))
    ensures Inv(Apply(s, Close(order)))
  {
    hide Links, MapOk, Shut, SweepOk, CloseOrder;
    var s' := Apply(s, Close(order));
    ShutMap(s.table);
    CloseEntries(s);
    CloseSweep(s, order);
    LinksKept(s.table.entries, s'.table.entries, s.leases, s.jobs);
    hide EntryOk;
    assert s'.table.closed by { ShutClosed(s.table); }
    assert RefsOk(s');
    assert EntriesOk(s');
  }

  /** One action of a tear-down, as a change to the progress of entry `e`. */
  function Progressed(x: Entry, close: bool, r: Progress): Entry {
    if close then x.(byClose := r) else x.(byRelease := r)
  }

  function ProgressOf(x: Entry, close: bool): Progress { if close then x.byClose else x.byRelease }

  /** Closing the client, and stopping once every lease has been given back. */
  lemma ProgressOk(x: Entry, close: bool, closes: nat, r: Progress, closed: bool, tick: nat)
    requires EntryOk(x, closed, tick) && x.phase == Live
    requires var q := ProgressOf(x, close);
             || (q == Closing && r == Returning(|x.held|) && closes == x.closes + 1)
             || (q == Returning(0) && r == Finished && closes == x.closes)
    ensures var y := Progressed(x.(closes := closes), close, r);
            EntryOk(y, closed, tick) && SameCore(x, y) && SameGave(x, y)
            && (y.byClose.Busy() ==> x.byClose.Busy()) && y.refs == x.refs && y.evicted == x.evicted
  {
  }

  /** Closing the client, and stopping once every lease has been given back. */
  lemma ProgressKept(s: Sys, e: nat, close: bool, closes: nat, r: Progress)
    requires Inv(s) && e < |s.table.entries| && s.table.entries[e].phase == Live
    requires var x := s.table.entries[e]; var q := ProgressOf(x, close);
             || (q == Closing && r == Returning(|x.held|) && closes == x.closes + 1)
             || (q == Returning(0) && r == Finished && closes == x.closes)
    ensures Inv(s.(table :=
      s.table.(entries := s.table.entries[e := Progressed(s.table.entries[e].(closes := closes), close, r)])))
  {
    hide Links, MapOk, EntryOk;
    var x := s.table.entries[e];
    var y := Progressed(x.(closes := closes), close, r);
    var s' := s.(table := s.table.(entries := s.table.entries[e := y]));
    ProgressOk(x, close, closes, r, s.table.closed, s.tick);
    hide ProgressOf, Progressed;
    MapKept(s.table, s'.table.entries);
    LinksKept(s.table.entries, s'.table.entries, s.leases, s.jobs);
    assert EntriesOk(s');
    assert RefsOk(s');
    assert SweepOk(s');
  }

  function Advanced(s: Sys, e: nat, close: bool, n: nat): Table
    requires e < |s.table.entries|
  {
    s.table.(entries := s.table.entries[e := Progressed(s.table.entries[e], close, Returning(n))])
  }

  lemma AdvancedOk(x: Entry, close: bool, n: nat, closed: bool, tick: nat)
    requires EntryOk(x, closed, tick) && x.phase == Live && ProgressOf(x, close) == Returning(n + 1)
    ensures var y := Progressed(x, close, Returning(n));
            EntryOk(y, closed, tick) && SameCore(x, y) && y.refs == x.refs && y.evicted == x.evicted
            && (y.byClose.Busy() ==> x.byClose.Busy()) && n < |x.held|
            && forall i :: 0 <= i < |x.held| ==>
                 (y.byRelease.Gave(i) || y.byClose.Gave(i) <==> i == n || x.byRelease.Gave(i) || x.byClose.Gave(i))
  {
  }

  /** Progress of one entry moves no lease of any list. */
  lemma OnHopsKept(E: seq<Entry>, e: nat, y: Entry, L: seq<Lease>, q: seq<nat>, t: nat, user: string,
      route: seq<string>)
    requires OnHops(E, L, q, t, user, route) && e < |E| && SameCore(E[e], y)
    ensures OnHops(E[e := y], L, q, t, user, route)
  {
  }

  lemma ReturnedOnHops(E: seq<Entry>, L: seq<Lease>, l: nat, q: seq<nat>, t: nat, user: string, route: seq<string>)
    requires l < |L| && OnHops(E, L, q, t, user, route)
    ensures OnHops(E, Returned(L, l), q, t, user, route)
    ensures forall i :: 0 <= i < |q| ==> Returned(L, l)[q[i]].entry == L[q[i]].entry
    ensures forall i :: 0 <= i < |q| ==> Returned(L, l)[q[i]].released == (q[i] == l || L[q[i]].released)
  {
  }

  lemma AdvancedHeld(E: seq<Entry>, L: seq<Lease>, e: nat, close: bool, n: nat)
    requires HeldOk(E, L) && LeasesOk(E, L) && e < |E| && E[e].phase == Live && n < |E[e].held|
    requires var x, y := E[e], Progressed(E[e], close, Returning(n));
             SameCore(x, y) && forall i :: 0 <= i < |x.held| ==>
               (y.byRelease.Gave(i) || y.byClose.Gave(i) <==> i == n || x.byRelease.Gave(i) || x.byClose.Gave(i))
    ensures E[e].held[n] < |L| && HeldOk(E[e := Progressed(E[e], close, Returning(n))], Returned(L, E[e].held[n]))
  {
    var l := E[e].held[n];
    var y := Progressed(E[e], close, Returning(n));
    var E' := E[e := y];
    assert Distinct(E[e].held) && L[l].owner == Hop(e);
    var L' := Returned(L, l);
    forall x | 0 <= x < |E| && E[x].phase == Live
      ensures OnHops(E', L', E'[x].held, x, E'[x].key.userId, E'[x].route)
      ensures forall i :: 0 <= i < |E[x].held| ==>
                L'[E[x].held[i]].entry == L[E[x].held[i]].entry
                && (L'[E[x].held[i]].released == (L[E[x].held[i]].released || (x == e && i == n)))
    {
      ReturnedOnHops(E, L, l, E[x].held, x, E[x].key.userId, E[x].route);
      OnHopsKept(E, e, y, L', E[x].held, x, E[x].key.userId, E[x].route);
    }
    hide OnHops, Progressed;
  }

  lemma AdvancedBorrow(E: seq<Entry>, L: seq<Lease>, J: seq<Job>, l: nat)
    requires BorrowOk(E, L, J) && JobsOk(E, J) && OwnersOk(E, L, J) && l < |L| && L[l].owner.Hop?
    requires L[l].owner.target < |E| && E[L[l].owner.target].phase == Live
    ensures BorrowOk(E, Returned(L, l), J) && OwnersOk(E, Returned(L, l), J)
  {
    forall p | 0 <= p < |J| && J[p].Route?
      ensures OnHops(E, Returned(L, l), J[p].got, J[p].target, J[p].user, J[p].hops)
      ensures forall i :: 0 <= i < |J[p].got| ==> !Returned(L, l)[J[p].got[i]].released
    {
      assert JobOk(E, p, J[p]);
      ReleasedElsewhere(E, L, l, J[p].got, J[p].target, J[p].user, J[p].hops);
    }
  }

  /** The last lease not given back yet goes back. */
  lemma AdvancedLinks(E: seq<Entry>, L: seq<Lease>, J: seq<Job>, e: nat, close: bool, n: nat)
    requires Links(E, L, J) && e < |E| && E[e].phase == Live && n < |E[e].held|
    requires var x, y := E[e], Progressed(E[e], close, Returning(n));
             SameCore(x, y) && forall i :: 0 <= i < |x.held| ==>
               (y.byRelease.Gave(i) || y.byClose.Gave(i) <==> i == n || x.byRelease.Gave(i) || x.byClose.Gave(i))
    ensures E[e].held[n] < |L| && Links(E[e := Progressed(E[e], close, Returning(n))], Returned(L, E[e].held[n]), J)
  {
    var l := E[e].held[n];
    var E' := E[e := Progressed(E[e], close, Returning(n))];
    assert OnHops(E, L, E[e].held, e, E[e].key.userId, E[e].route);
    AdvancedHeld(E, L, e, close, n);
    AdvancedBorrow(E, L, J, l);
    hide HeldOk;
    assert LeasesOk(E', Returned(L, l));
    assert JobsOk(E', J) by {
      forall p | 0 <= p < |J| ensures JobOk(E', p, J[p]) { assert JobOk(E, p, J[p]); }
    }
    assert BorrowOk(E', Returned(L, l), J) by {
      forall p | 0 <= p < |J| && J[p].Route?
        ensures OnHops(E', Returned(L, l), J[p].got, J[p].target, J[p].user, J[p].hops)
      {
        assert OnHops(E, Returned(L, l), J[p].got, J[p].target, J[p].user, J[p].hops);
      }
    }
    assert OwnersOk(E', Returned(L, l), J);
  }

  lemma HeldAt(s: Sys, e: nat, n: nat)
    requires Links(s.table.entries, s.leases, s.jobs) && e < |s.table.entries| && s.table.entries[e].phase == Live
    requires n < |s.table.entries[e].held|
    ensures var x, l := s.table.entries[e], s.table.entries[e].held[n];
            l < |s.leases| && s.leases[l].entry < |s.table.entries| && s.leases[l].entry != e
            && (s.leases[l].released <==> x.byRelease.Gave(n) || x.byClose.Gave(n))
  {
  }

  lemma ReturnsLease(s: Sys, e: nat, close: bool, n: nat)
    requires Inv(s) && e < |s.table.entries| && s.table.entries[e].phase == Live
    requires n < |s.table.entries[e].held| && ValidLease(s, s.table.entries[e].held[n])
    requires var l := s.table.entries[e].held[n]; !s.leases[l].released && s.leases[l].entry != e
    requires var x, y := s.table.entries[e], Progressed(s.table.entries[e], close, Returning(n));
             EntryOk(y, s.table.closed, s.tick) && SameCore(x, y) && y.refs == x.refs && y.evicted == x.evicted
             && (y.byClose.Busy() ==> x.byClose.Busy())
             && forall i :: 0 <= i < |x.held| ==>
                 (y.byRelease.Gave(i) || y.byClose.Gave(i) <==> i == n || x.byRelease.Gave(i) || x.byClose.Gave(i))
    ensures var s' := ReleaseLease(s, s.table.entries[e].held[n]);
            e < |s'.table.entries| && Inv(s'.(table := Advanced(s', e, close, n)))
  {
    hide Links, MapOk, EntryOk, EntriesOk, SweepOk, RefsOk, Drop, ReleaseLease, Advanced;
    var l := s.table.entries[e].held[n];
    var E' := s.table.entries[e := Progressed(s.table.entries[e], close, Returning(n))];
    MapKept(s.table, E');
    AdvancedLinks(s.table.entries, s.leases, s.jobs, e, close, n);
    var s1 := s.(table := s.table.(entries := E'));
    StillCounted(s, e, Progressed(s.table.entries[e], close, Returning(n)), Returned(s.leases, l));
    ReturnedRefs(s1, l, s.jobs);
    DropKept(s1.(leases := Returned(s.leases, l)), s.leases[l].entry);
    ReturnsSame(s, e, close, n);
  }

  lemma StillCounted(s: Sys, e: nat, y: Entry, L: seq<Lease>)
    requires EntriesOk(s) && SweepOk(s) && RefsOk(s) && e < |s.table.entries| && EntryOk(y, s.table.closed, s.tick)
    requires y.refs == s.table.entries[e].refs && y.phase == s.table.entries[e].phase
      && (y.byClose.Busy() ==> s.table.entries[e].byClose.Busy())
    ensures var s' := s.(table := s.table.(entries := s.table.entries[e := y]));
            EntriesOk(s') && SweepOk(s') && RefsOk(s') && EntriesOk(s'.(leases := L)) && SweepOk(s'.(leases := L))
  {
    hide EntryOk;
  }

  lemma ReturnsSame(s: Sys, e: nat, close: bool, n: nat)
    requires e < |s.table.entries| && n < |s.table.entries[e].held| && ValidLease(s, s.table.entries[e].held[n])
    requires var l := s.table.entries[e].held[n]; !s.leases[l].released && s.leases[l].entry != e
    ensures var l := s.table.entries[e].held[n];
            var s' := ReleaseLease(s, l);
            var E' := s.table.entries[e := Progressed(s.table.entries[e], close, Returning(n))];
            && e < |s'.table.entries|
            && s'.(table := Advanced(s', e, close, n))
                == s.(leases := Returned(s.leases, l), table := Drop(s.table.(entries := E'), s.leases[l].entry))
  {
    var l := s.table.entries[e].held[n];
    var s' := ReleaseLease(s, l);
    var E' := s.table.entries[e := Progressed(s.table.entries[e], close, Returning(n))];
    assert Drop(s.table.(entries := E'), s.leases[l].entry).entries == Advanced(s', e, close, n).entries;
  }

  lemma ReturnKept(s: Sys, e: nat, close: bool, n: nat)
    requires Inv(s) && e < |s.table.entries| && s.table.entries[e].phase == Live
    requires ProgressOf(s.table.entries[e], close) == Returning(n + 1)
    ensures n < |s.table.entries[e].held| && ValidLease(s, s.table.entries[e].held[n])
    ensures var s' := ReleaseLease(s, s.table.entries[e].held[n]);
            e < |s'.table.entries| && Inv(s'.(table := Advanced(s', e, close, n)))
  {
    hide Links, MapOk, EntryOk;
    var x := s.table.entries[e];
    AdvancedOk(x, close, n, s.table.closed, s.tick);
    HeldAt(s, e, n);
    if s.leases[x.held[n]].released {
      var s' := s.(table := Advanced(s, e, close, n));
      MapKept(s.table, s'.table.entries);
      LinksKept(s.table.entries, s'.table.entries, s.leases, s.jobs);
      assert EntriesOk(s') && SweepOk(s') && RefsOk(s');
    } else {
      ReturnsLease(s, e, close, n);
    }
  }

  lemma TearDownKept(s: Sys, e: nat)
    requires Inv(s) && Enabled(s, TearDown(e))
    ensures Inv(Apply(s, TearDown(e)))
  {
    hide Links, MapOk, RefsOk, SweepOk;
    var x := s.table.entries[e];
    assert EntryOk(x, s.table.closed, s.tick);
    var s' := Apply(s, TearDown(e));
    match x.byRelease {
      case Closing =>
        ProgressKept(s, e, false, x.closes + 1, Returning(|x.held|));
        assert s'.table.entries
            == s.table.entries[e := Progressed(x.(closes := x.closes + 1), false, Returning(|x.held|))];
      case Returning(n) =>
        if n == 0 {
          ProgressKept(s, e, false, x.closes, Finished);
          assert x.(closes := x.closes) == x;
        } else {
          ReturnKept(s, e, false, n - 1);
        }
    }
  }

  lemma SweepPops(s: Sys)
    requires SweepOk(s) && s.sweep != [] && !s.table.entries[s.sweep[0]].byClose.Busy()
    ensures SweepOk(s.(sweep := s.sweep[1..]))
  {
    forall y | 0 <= y < |s.table.entries| && s.table.entries[y].byClose.Busy() ensures y in s.sweep[1..] {
      assert y in s.sweep && y != s.sweep[0];
    }
  }

  lemma SweepNextKept(s: Sys)
    requires Inv(s) && Enabled(s, SweepNext)
    ensures Inv(Apply(s, SweepNext))
  {
    hide Links, MapOk, RefsOk, SweepOk;
    var e := s.sweep[0];
    var x := s.table.entries[e];
    assert EntryOk(x, s.table.closed, s.tick);
    var s' := Apply(s, SweepNext);
    match x.byClose {
      case Closing =>
        ProgressKept(s, e, true, x.closes + 1, Returning(|x.held|));
        assert s'.table.entries
            == s.table.entries[e := Progressed(x.(closes := x.closes + 1), true, Returning(|x.held|))];
      case Returning(n) =>
        if n == 0 {
          ProgressKept(s, e, true, x.closes, Finished);
          assert x.(closes := x.closes) == x;
        } else {
          ReturnKept(s, e, true, n - 1);
        }
      case _ =>
        SweepPops(s);
        assert EntriesOk(s');
        SweepRefs(s);
    }
  }

  lemma SweepRefs(s: Sys)
    requires RefsOk(s) && s.sweep != []
    ensures RefsOk(s.(sweep := s.sweep[1..]))
  {
  }

  /** Every step keeps the invariant. */
  lemma StepKeeps(s: Sys, a: Step)
    requires Inv(s) && Enabled(s, a)
    ensures Inv(Apply(s, a))
  {
    hide Inv, Apply;
    match a {
      case Call(user, hops, id) => CallKept(s, user, hops, id);
      case WaiterWakes(p) => WaiterWakesKept(s, p);
      case WaiterCancelled(p) => WaiterCancelledKept(s, p);
      case NextHop(p) => NextHopKept(s, p);
      case HopReady(p) => HopReadyKept(s, p);
      case HopCancelled(p) => HopCancelledKept(s, p);
      case HopDialled(p, ok) => HopDialledKept(s, p, ok);
      case Abandon(p) => AbandonKept(s, p);
      case TargetDialled(p) => TargetEndsKept(s, p, true);
      case GiveBack(p) => GiveBackKept(s, p);
      case DialFailed(p) => TargetEndsKept(s, p, false);
      case CallerReleases(l) => CallerReleasesKept(s, l);
      case Died(e) => DiedKept(s, e);
      case Close(order) => CloseKept(s, order);
      case TearDown(e) => TearDownKept(s, e);
      case SweepNext => SweepNextKept(s);
    }
  }

  lemma InitOk()
    ensures Inv(Init)
  {
  }

  /** So it holds in every state of every run. */
  lemma {:induction false} Always(run: seq<Sys>, steps: seq<Step>, i: nat)
    requires IsRun(run, steps) && i < |run|
    ensures Inv(run[i])
  {
    hide Apply, Inv, Enabled;
    if i == 0 {
      InitOk();
    } else {
      Always(run, steps, i - 1);
      StepKeeps(run[i - 1], steps[i - 1]);
    }
  }
}
