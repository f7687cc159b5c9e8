/**
 Every interleaving of the callers of the shared connection pool.

 A caller of `Dialer.Acquire` either waits for an entry or dials it; a caller that dials a
 route first acquires each hop in turn, keeping the leases it gets. Each critical section is
 one step, and so is each client close and each lease given back outside the lock.
 */
module PoolRun {
  import opened PoolTable

  /** Who a lease was handed to: a caller, or the dial of the given target entry. */
  datatype Owner = Caller | Hop(target: nat)

  datatype Lease = Lease(entry: nat, owner: Owner, released: bool)

  datatype Stage = Between | AwaitingHop(hop: nat) | DialingHop(hop: nat) | Unwinding

  datatype Job =
    | Gone
    | Waiting(on: nat)
    | Route(target: nat, user: string, hops: seq<string>, got: seq<nat>, stage: Stage)

  datatype Sys = Sys(table: Table, leases: seq<Lease>, jobs: seq<Job>, sweep: seq<nat>, tick: nat)

  const Init := Sys(Table(map[], [], false), [], [], [], 0)

  datatype Step =
    | Call(user: string, hops: seq<string>, id: string)
    | WaiterWakes(p: nat)
    | WaiterCancelled(p: nat)
    | NextHop(p: nat)
    | HopReady(p: nat)
    | HopCancelled(p: nat)
    | HopDialled(p: nat, ok: bool)
    | Abandon(p: nat)
    | TargetDialled(p: nat)
    | GiveBack(p: nat)
    | DialFailed(p: nat)
    | CallerReleases(l: nat)
    | Died(e: nat)
    | Close(order: seq<nat>)
    | TearDown(e: nat)
    | SweepNext

  predicate ValidEntry(s: Sys, e: nat) { e < |s.table.entries| }
  predicate ValidLease(s: Sys, l: nat) { l < |s.leases| && ValidEntry(s, s.leases[l].entry) }

  /** Lease.Release: guarded by a once, so only the first call drops a reference. */
  function ReleaseLease(s: Sys, l: nat): Sys
    requires ValidLease(s, l)
  {
    if s.leases[l].released then s
    else s.(leases := s.leases[l := s.leases[l].(released := true)], table := Drop(s.table, s.leases[l].entry))
  }

  predicate AtStage(s: Sys, p: nat) { p < |s.jobs| && s.jobs[p].Route? && ValidEntry(s, s.jobs[p].target) }

  ghost predicate Enabled(s: Sys, a: Step) {
    match a
    case Call(_, _, _) => true
    case WaiterWakes(p) =>
      p < |s.jobs| && s.jobs[p].Waiting? && ValidEntry(s, s.jobs[p].on)
          && s.table.entries[s.jobs[p].on].phase != Dialing
    case WaiterCancelled(p) => p < |s.jobs| && s.jobs[p].Waiting? && ValidEntry(s, s.jobs[p].on)
    case NextHop(p) => AtStage(s, p) && s.jobs[p].stage == Between && |s.jobs[p].got| < |s.jobs[p].hops|
    case HopReady(p) =>
      AtStage(s, p) && s.jobs[p].stage.AwaitingHop? && ValidEntry(s, s.jobs[p].stage.hop)
      && s.table.entries[s.jobs[p].stage.hop].phase != Dialing
    case HopCancelled(p) => AtStage(s, p) && s.jobs[p].stage.AwaitingHop? && ValidEntry(s, s.jobs[p].stage.hop)
    case HopDialled(p, _) => AtStage(s, p) && s.jobs[p].stage.DialingHop? && ValidEntry(s, s.jobs[p].stage.hop)
    case Abandon(p) => AtStage(s, p) && s.jobs[p].stage == Between
    case TargetDialled(p) => AtStage(s, p) && s.jobs[p].stage == Between && |s.jobs[p].got| == |s.jobs[p].hops|
    case GiveBack(p) =>
      AtStage(s, p) && s.jobs[p].stage == Unwinding && s.jobs[p].got != []
          && ValidLease(s, s.jobs[p].got[|s.jobs[p].got| - 1])
    case DialFailed(p) => AtStage(s, p) && s.jobs[p].stage == Unwinding && s.jobs[p].got == []
    case CallerReleases(l) => ValidLease(s, l) && s.leases[l].owner == Caller
    case Died(e) => ValidEntry(s, e) && s.table.entries[e].phase == Live
    case Close(order) => CloseOrder(s.table, order)
    case TearDown(e) => ValidEntry(s, e) && s.table.entries[e].byRelease.Busy()
        && CanRun(s, e, s.table.entries[e].byRelease)
    case SweepNext =>
      s.sweep != [] && ValidEntry(s, s.sweep[0]) && CanRun(s, s.sweep[0], s.table.entries[s.sweep[0]].byClose)
  }

  predicate CanRun(s: Sys, e: nat, r: Progress)
    requires ValidEntry(s, e)
  {
    var held := s.table.entries[e].held;
    r.Returning? ==>
        r.left <= |held| && (r.left > 0 ==> ValidLease(s, held[r.left - 1]) && s.leases[held[r.left - 1]].entry != e)
  }

  /** One action of a tear-down: close the client, give one lease back (the last first), or stop. */
  function RunOne(s: Sys, e: nat, r: Progress): (Sys, Progress)
    requires ValidEntry(s, e) && CanRun(s, e, r)
  {
    match r
    case Idle => (s, Idle)
    case Finished => (s, Finished)
    case Closing =>
      var x := s.table.entries[e];
      (s.(table := s.table.(entries := s.table.entries[e := x.(closes := x.closes + 1)])), Returning(|x.held|))
    case Returning(n) =>
      if n == 0 then (s, Finished) else (ReleaseLease(s, s.table.entries[e].held[n - 1]), Returning(n - 1))
  }

  function SetJob(s: Sys, p: nat, j: Job): Sys
    requires p < |s.jobs|
  {
    s.(jobs := s.jobs[p := j])
  }

  function Grant(s: Sys, e: nat, owner: Owner): Sys {
    s.(leases := s.leases + [Lease(e, owner, false)])
  }

  /** What the next dial goes through: the client of the lease taken last, or this host. */
  function Through(s: Sys, got: seq<nat>): seq<nat> {
    if got == [] || got[|got| - 1] >= |s.leases| then [] else [s.leases[got[|got| - 1]].entry]
  }

  function Apply(s: Sys, a: Step): Sys
    requires Enabled(s, a)
  {
    match a
    case Call(user, hops, id) =>
      var (t, r) := Enter(s.table, user, hops, id, |s.jobs|, true, []);
      (match r
       case Refused => s
       case Joined(e) => s.(table := t, jobs := s.jobs + [Waiting(e)])
       case Fresh(e) => s.(table := t, jobs := s.jobs + [Route(e, user, hops, [], Between)]))
    case WaiterWakes(p) =>
      var e := s.jobs[p].on;
      var s' := SetJob(s, p, Gone);
      if s.table.entries[e].phase == Live then Grant(s', e, Caller) else s'
    case WaiterCancelled(p) => SetJob(s, p, Gone).(table := Drop(s.table, s.jobs[p].on))
    case NextHop(p) =>
      var j := s.jobs[p];
      var (t, r) := Enter(s.table, j.user, j.hops[..|j.got|], j.hops[|j.got|], p, false, Through(s, j.got));
      (match r
       case Refused => SetJob(s, p, j.(stage := Unwinding))
       case Joined(e) => SetJob(s, p, j.(stage := AwaitingHop(e))).(table := t)
       case Fresh(e) => SetJob(s, p, j.(stage := DialingHop(e))).(table := t))
    case HopReady(p) =>
      var j := s.jobs[p];
      if s.table.entries[j.stage.hop].phase == Live then
        Grant(SetJob(s, p, j.(got := j.got + [|s.leases|], stage := Between)), j.stage.hop, Hop(j.target))
      else SetJob(s, p, j.(stage := Unwinding))
    case HopCancelled(p) =>
      SetJob(s, p, s.jobs[p].(stage := Unwinding)).(table := Drop(s.table, s.jobs[p].stage.hop))
    case HopDialled(p, ok) =>
      var j := s.jobs[p];
      var s' := s.(table := Finish(s.table, j.stage.hop, ok, [], s.tick), tick := s.tick + 1);
      if ok then Grant(SetJob(s', p, j.(got := j.got + [|s.leases|], stage := Between)), j.stage.hop, Hop(j.target))
      else SetJob(s', p, j.(stage := Unwinding))
    case Abandon(p) => SetJob(s, p, s.jobs[p].(stage := Unwinding))
    case TargetDialled(p) =>
      var j := s.jobs[p];
      Grant(SetJob(s.(table := Finish(s.table, j.target, true, j.got, s.tick), tick := s.tick + 1), p, Gone), j.target,
          Caller)
    case GiveBack(p) =>
      var j := s.jobs[p];
      SetJob(ReleaseLease(s, j.got[|j.got| - 1]), p, j.(got := j.got[..|j.got| - 1]))
    case DialFailed(p) =>
      SetJob(s.(table := Finish(s.table, s.jobs[p].target, false, [], s.tick), tick := s.tick + 1), p, Gone)
    case CallerReleases(l) => ReleaseLease(s, l)
    case Died(e) => s.(table := Watch(s.table, e))
    case Close(order) => s.(table := Shut(s.table), sweep := s.sweep + order)
    case TearDown(e) =>
      var (s', r) := RunOne(s, e, s.table.entries[e].byRelease);
      s'.(table := s'.table.(entries := s'.table.entries[e := s'.table.entries[e].(byRelease := r)]))
    case SweepNext =>
      var e := s.sweep[0];
      if !s.table.entries[e].byClose.Busy() then s.(sweep := s.sweep[1..])
      else
        var (s', r) := RunOne(s, e, s.table.entries[e].byClose);
        s'.(table := s'.table.(entries := s'.table.entries[e := s'.table.entries[e].(byClose := r)]))
  }

  /** A run: states that follow one another by steps, from the empty pool. */
  ghost predicate IsRun(run: seq<Sys>, steps: seq<Step>) {
    && |run| == |steps| + 1
    && run[0] == Init
    && forall i :: 0 <= i < |steps| ==> Enabled(run[i], steps[i]) && run[i + 1] == Apply(run[i], steps[i])
  }
}
