/** The file manager on top of the connection pool: its leases are leases of the pool. */
module Layers {
  import ConnKeys
  import PoolTable
  import Pool = PoolRun
  import PoolInv
  import PoolDrain
  import FileTable
  import Files = FileRun

  /** `link` says which lease of the pool each lease of the file manager is. */
  datatype Both = Both(pool: Pool.Sys, files: Files.Sys, link: seq<nat>)

  const Start := Both(Pool.Init, Files.Init, [])

  /** A step of one layer alone, or of both: a dial that is granted a lease, and a lease given back. */
  datatype Move =
    | InPool(a: Pool.Step)
    | InFiles(b: Files.Step)
    | Granted(a: Pool.Step, j: nat)
    | GivenBack(b: Files.Step)

  /** The lease that a step of the file manager gives back. */
  function LeaseOf(s: Files.Sys, b: Files.Step): nat
    requires Files.Enabled(s, b) && (b.SftpFails? || b.Releases?)
  {
    if b.SftpFails? then s.jobs[b.j].lease else s.t.all[s.tasks[b.i].id].lease
  }

  ghost predicate Possible(x: Both, m: Move) {
    match m
    case InPool(a) => Pool.Enabled(x.pool, a) && (a.CallerReleases? ==> a.l !in x.link)
    case InFiles(b) => Files.Enabled(x.files, b) && !b.DialOk? && !b.SftpFails? && !b.Releases?
    case Granted(a, j) =>
      && Pool.Enabled(x.pool, a) && (a.WaiterWakes? || a.TargetDialled?) && Files.Enabled(x.files, Files.DialOk(j))
      && |Pool.Apply(x.pool, a).leases| == |x.pool.leases| + 1
    case GivenBack(b) =>
      && Files.Enabled(x.files, b) && (b.SftpFails? || b.Releases?) && LeaseOf(x.files, b) < |x.link|
      && Pool.Enabled(x.pool, Pool.CallerReleases(x.link[LeaseOf(x.files, b)]))
  }

  ghost function Next(x: Both, m: Move): Both
    requires Possible(x, m)
  {
    match m
    case InPool(a) => x.(pool := Pool.Apply(x.pool, a))
    case InFiles(b) => x.(files := Files.Apply(x.files, b))
    case Granted(a, j) =>
      Both(Pool.Apply(x.pool, a), Files.Apply(x.files, Files.DialOk(j)), x.link + [|x.pool.leases|])
    case GivenBack(b) =>
      x.(pool := Pool.Apply(x.pool, Pool.CallerReleases(x.link[LeaseOf(x.files, b)])), files := Files.Apply(x.files, b))
  }

  /** Each lease of the file manager is a caller's lease of the pool, its own, given back in both or in neither. */
  ghost predicate Linked(x: Both) {
    && |x.link| == |x.files.leases|
    && (forall l :: 0 <= l < |x.link| ==>
          && x.link[l] < |x.pool.leases| && x.pool.leases[x.link[l]].owner == Pool.Caller
          && (x.pool.leases[x.link[l]].released <==> x.files.leases[l].released > 0))
    && (forall l, m :: 0 <= l < m < |x.link| ==> x.link[l] != x.link[m])
  }

  ghost predicate Inv(x: Both) { PoolInv.Inv(x.pool) && Files.Inv(x.files) && Linked(x) }

  /** Only its own release gives back a caller's lease. */
  lemma CallersOwn(s: Pool.Sys, a: Pool.Step, l: nat)
    requires PoolInv.Inv(s) && Pool.Enabled(s, a) && l < |s.leases| && s.leases[l].owner == Pool.Caller
      && a != Pool.CallerReleases(l)
    ensures l < |Pool.Apply(s, a).leases| && Pool.Apply(s, a).leases[l] == s.leases[l]
  {
    hide PoolInv.RefsOk, PoolInv.MapOk, PoolInv.SweepOk, PoolInv.Links, PoolInv.EntriesOk, PoolTable.Enter,
         PoolTable.Finish, PoolTable.Drop,
         PoolTable.Watch, PoolTable.Shut, Pool.RunOne;
    match a {
      case GiveBack(p) => BorrowedNotCallers(s, p, l);
      case TearDown(e) => HeldNotCallers(s, e, s.table.entries[e].byRelease, l);
      case SweepNext => HeldNotCallers(s, s.sweep[0], s.table.entries[s.sweep[0]].byClose, l);
      case _ =>
    }
  }

  lemma BorrowedNotCallers(s: Pool.Sys, p: nat, l: nat)
    requires PoolInv.Links(s.table.entries, s.leases, s.jobs) && p < |s.jobs| && s.jobs[p].Route? && s.jobs[p].got != []
    requires l < |s.leases| && s.leases[l].owner == Pool.Caller
    ensures s.jobs[p].got[|s.jobs[p].got| - 1] != l
  {
    hide PoolInv.JobsOk, PoolInv.HeldOk, PoolInv.OwnersOk, PoolInv.LeasesOk;
    var j := s.jobs[p];
    assert PoolInv.OnHops(s.table.entries, s.leases, j.got, j.target, j.user, j.hops);
  }

  lemma HeldNotCallers(s: Pool.Sys, e: nat, r: PoolTable.Progress, l: nat)
    requires PoolInv.Links(s.table.entries, s.leases, s.jobs) && PoolInv.EntriesOk(s) && e < |s.table.entries|
      && Pool.CanRun(s, e, r)
    requires l < |s.leases| && s.leases[l].owner == Pool.Caller
    ensures l < |Pool.RunOne(s, e, r).0.leases| && Pool.RunOne(s, e, r).0.leases[l] == s.leases[l]
  {
    hide PoolInv.JobsOk, PoolInv.BorrowOk, PoolInv.OwnersOk, PoolInv.LeasesOk;
    var x := s.table.entries[e];
    assert PoolInv.EntryOk(x, s.table.closed, s.tick);
    if r.Returning? && r.left > 0 {
      assert x.held != [];
      assert PoolInv.OnHops(s.table.entries, s.leases, x.held, e, x.key.userId, x.route);
    }
  }

  /** A step of the file manager that neither takes nor gives back leaves what has been given back alone. */
  lemma FilesAlone(s: Files.Sys, b: Files.Step)
    requires Files.Enabled(s, b) && !b.DialOk? && !b.SftpFails? && !b.Releases?
    ensures |Files.Apply(s, b).leases| == |s.leases|
    ensures forall l :: 0 <= l < |s.leases| ==> Files.Apply(s, b).leases[l].released == s.leases[l].released
  {
  }

  lemma PoolMove(x: Both, a: Pool.Step)
    requires Inv(x) && Possible(x, InPool(a))
    ensures Linked(Next(x, InPool(a)))
  {
    hide Files.Inv, PoolInv.Inv, Pool.Apply, Pool.Enabled;
    forall l | 0 <= l < |x.link|
      ensures x.link[l] < |Pool.Apply(x.pool, a).leases|
        && Pool.Apply(x.pool, a).leases[x.link[l]] == x.pool.leases[x.link[l]]
    {
      assert x.link[l] in x.link;
      CallersOwn(x.pool, a, x.link[l]);
    }
  }

  lemma GrantMove(x: Both, a: Pool.Step, j: nat)
    requires Inv(x) && Possible(x, Granted(a, j))
    ensures Linked(Next(x, Granted(a, j)))
  {
    hide Files.Inv, PoolInv.Inv;
    var s' := Pool.Apply(x.pool, a);
    var n := |x.pool.leases|;
    GrantIs(x.pool, a);
    hide Pool.Apply, Pool.Enabled;
    forall l | 0 <= l < |x.link| ensures x.link[l] < |s'.leases| && s'.leases[x.link[l]] == x.pool.leases[x.link[l]] {
      CallersOwn(x.pool, a, x.link[l]);
    }
    assert s'.leases[n].owner == Pool.Caller && !s'.leases[n].released;
  }

  lemma GrantIs(s: Pool.Sys, a: Pool.Step)
    requires Pool.Enabled(s, a) && (a.WaiterWakes? || a.TargetDialled?) && |Pool.Apply(s, a).leases| == |s.leases| + 1
    ensures var l := Pool.Apply(s, a).leases[|s.leases|]; l.owner == Pool.Caller && !l.released
  {
  }

  lemma FilesBack(s: Files.Sys, b: Files.Step)
    requires Files.Enabled(s, b) && (b.SftpFails? || b.Releases?)
    ensures var m := LeaseOf(s, b);
            && m < |s.leases| == |Files.Apply(s, b).leases| && Files.Apply(s, b).leases[m].released > 0
            && forall l ::
                0 <= l < |s.leases| && l != m ==> Files.Apply(s, b).leases[l].released == s.leases[l].released
  {
  }

  lemma PoolBack(s: Pool.Sys, l: nat)
    requires Pool.Enabled(s, Pool.CallerReleases(l))
    ensures l < |s.leases| && s.leases[l].owner == Pool.Caller
    ensures Pool.Apply(s, Pool.CallerReleases(l)).leases == s.leases[l := s.leases[l].(released := true)]
  {
  }

  lemma BackMove(x: Both, b: Files.Step)
    requires Linked(x) && Possible(x, GivenBack(b))
    ensures Linked(Next(x, GivenBack(b)))
  {
    hide Files.Apply, Files.Enabled, Pool.Apply, Pool.Enabled, LeaseOf;
    var m := LeaseOf(x.files, b);
    FilesBack(x.files, b);
    PoolBack(x.pool, x.link[m]);
    forall l | 0 <= l < |x.link| && l != m ensures x.link[l] != x.link[m] { }
  }

  lemma MoveKeeps(x: Both, m: Move)
    requires Inv(x) && Possible(x, m)
    ensures Inv(Next(x, m))
  {
    hide PoolInv.Inv, Files.Inv, Pool.Apply, Pool.Enabled, Files.Apply, Files.Enabled, Linked;
    match m {
      case InPool(a) =>
        PoolInv.StepKeeps(x.pool, a);
        PoolMove(x, a);
      case InFiles(b) =>
        Files.StepKeeps(x.files, b);
        FilesMove(x, b);
      case Granted(a, j) =>
        PoolInv.StepKeeps(x.pool, a);
        Files.StepKeeps(x.files, Files.DialOk(j));
        GrantMove(x, a, j);
      case GivenBack(b) =>
        PoolInv.StepKeeps(x.pool, Pool.CallerReleases(x.link[LeaseOf(x.files, b)]));
        Files.StepKeeps(x.files, b);
        BackMove(x, b);
    }
  }

  lemma FilesMove(x: Both, b: Files.Step)
    requires Linked(x) && Possible(x, InFiles(b))
    ensures Linked(Next(x, InFiles(b)))
  {
    FilesAlone(x.files, b);
    hide Files.Apply, Files.Enabled;
  }

  ghost predicate IsRun(run: seq<Both>, moves: seq<Move>) {
    && |run| == |moves| + 1 && run[0] == Start
    && forall i :: 0 <= i < |moves| ==> Possible(run[i], moves[i]) && run[i + 1] == Next(run[i], moves[i])
  }

  lemma StartOk()
    ensures Inv(Start)
  {
    hide PoolInv.Inv, Files.Inv;
    PoolInv.InitOk();
    Files.InitOk();
  }

  lemma {:induction false} Always(run: seq<Both>, moves: seq<Move>, i: nat)
    requires IsRun(run, moves) && i < |run|
    ensures Inv(run[i])
  {
    hide Inv, Possible, Next;
    if i == 0 {
      StartOk();
    } else {
      Always(run, moves, i - 1);
      MoveKeeps(run[i - 1], moves[i - 1]);
    }
  }

  /** A file session in the map keeps its connection up: live, referred to and, while the pool is open, not closed. */
  lemma SessionKeepsConnection(run: seq<Both>, moves: seq<Move>, i: nat, k: FileTable.Key)
    requires IsRun(run, moves) && i < |run| && k in run[i].files.t.open
    ensures var x := run[i];
            var id := x.files.t.open[k];
            && id < |x.files.t.all| && x.files.t.all[id].lease < |x.link|
            && var l := x.link[x.files.t.all[id].lease];
               && l < |x.pool.leases| && !x.pool.leases[l].released && x.pool.leases[l].entry < |x.pool.table.entries|
               && var c := x.pool.table.entries[x.pool.leases[l].entry];
                  c.phase == PoolTable.Live && c.refs > 0 && (!x.pool.table.closed ==> c.closes == 0)
  {
    hide IsRun;
    Always(run, moves, i);
    var x := run[i];
    SessionLease(x.files, k);
    var l := x.link[x.files.t.all[x.files.t.open[k]].lease];
    LeaseKeeps(x.pool, l);
  }

  lemma SessionLease(s: Files.Sys, k: FileTable.Key)
    requires Files.Inv(s) && k in s.t.open
    ensures s.t.open[k] < |s.t.all| && s.t.all[s.t.open[k]].lease < |s.leases|
      && s.leases[s.t.all[s.t.open[k]].lease].released == 0
  {
    assert Files.SessionOk(s, s.t.open[k]);
  }

  lemma LeaseKeeps(s: Pool.Sys, l: nat)
    requires PoolInv.Inv(s) && l < |s.leases| && !s.leases[l].released
    ensures s.leases[l].entry < |s.table.entries|
    ensures var c := s.table.entries[s.leases[l].entry];
            c.phase == PoolTable.Live && c.refs > 0 && (!s.table.closed ==> c.closes == 0)
  {
    hide PoolInv.MapOk, PoolInv.SweepOk, PoolInv.Links;
    PoolDrain.LeaseLive(s, l);
    PoolInv.LeaseRefsMember(s.leases, l, s.leases[l].entry);
    assert PoolInv.EntryOk(s.table.entries[s.leases[l].entry], s.table.closed, s.tick);
  }

  /**
   Nobody is inside either layer, no file session is open, and the pool's other callers have given back what they had.
   */
  ghost predicate AllDone(x: Both) {
    && Files.Quiet(x.files) && x.files.t.open == map[]
    && (forall p :: 0 <= p < |x.pool.jobs| ==> x.pool.jobs[p] == Pool.Gone)
    && (forall l ::
        0 <= l < |x.pool.leases| && x.pool.leases[l].owner == Pool.Caller && l !in x.link ==> x.pool.leases[l].released)
  }

  /** Then nothing of the pool is in the way of its draining: every lease the file manager took is back. */
  lemma AllDoneDrains(run: seq<Both>, moves: seq<Move>, i: nat)
    requires IsRun(run, moves) && i < |run| && AllDone(run[i])
    ensures PoolDrain.CallersDone(run[i].pool)
  {
    hide IsRun, PoolInv.Inv;
    Always(run, moves, i);
    var x := run[i];
    forall l | 0 <= l < |x.pool.leases| && x.pool.leases[l].owner == Pool.Caller ensures x.pool.leases[l].released {
      if l in x.link {
        var m :| 0 <= m < |x.link| && x.link[m] == l;
        FileLeaseBack(x.files, m);
      }
    }
  }

  lemma FileLeaseBack(s: Files.Sys, l: nat)
    requires Files.Inv(s) && Files.Quiet(s) && s.t.open == map[] && l < |s.leases|
    ensures s.leases[l].released == 1
  {
    assert Files.LeaseOk(s, l);
    match s.leases[l].owner {
      case Opening(j) => assert false;
      case Held(id) =>
        assert Files.SessionOk(s, id);
        if Files.Tasked(s, id) { var n :| 0 <= n < |s.tasks| && s.tasks[n].id == id; assert Files.TaskOk(s, n); }
      case Given =>
    }
  }

  // The session that outlives Shutdown.

  lemma Go(run: seq<Both>, moves: seq<Move>, m: Move) returns (run': seq<Both>, moves': seq<Move>)
    requires IsRun(run, moves) && Possible(run[|run| - 1], m)
    ensures IsRun(run', moves') && |run'| == |moves'| + 1 && run'[|run'| - 1] == Next(run[|run| - 1], m)
  {
    hide Possible, Next;
    run', moves' := run + [Next(run[|run| - 1], m)], moves + [m];
  }

  /** Somebody is inside Open when the manager shuts down, and dials. */
  lemma ShutWhileDialling(user: string, id: string) returns (run: seq<Both>, moves: seq<Move>)
    ensures IsRun(run, moves) && |run| > 0
    ensures run[|run| - 1]
            == Both(Pool.Sys(PoolTable.Table(map[ConnKeys.PathKey(user, [], id) := 0],
                                             [PoolTable.NewEntry(ConnKeys.PathKey(user, [], id), 0, [], true, [])],
                                                 false), [],
                             [Pool.Route(0, user, [], [], Pool.Between)], [], 0),
                    Files.Sys(FileTable.Table(map[], [], true), [Files.Dialling(FileTable.Key(user, id))], [], [],
                        true), [])
  {
    var k := FileTable.Key(user, id);
    var key := ConnKeys.PathKey(user, [], id);
    run, moves := [Start], [];
    assert IsRun(run, moves);
    hide IsRun;
    run, moves := Go(run, moves, InFiles(Files.Open(k, 0)));
    var f1 := Files.Sys(FileTable.Table(map[], [], false), [Files.Dialling(k)], [], [], true);
    assert run[|run| - 1] == Both(Pool.Init, f1, []);
    Files.ShutNothing(f1);
    run, moves := Go(run, moves, InFiles(Files.Shutdown([])));
    var f2 := f1.(t := FileTable.Table(map[], [], true));
    assert run[|run| - 1] == Both(Pool.Init, f2, []);
    run, moves := Go(run, moves, InPool(Pool.Call(user, [], id)));
  }

  lemma Dialled(s: Pool.Sys, x: PoolTable.Entry, user: string)
    requires s == Pool.Sys(PoolTable.Table(map[x.key := 0], [x], false), [],
      [Pool.Route(0, user, [], [], Pool.Between)], [], 0)
    ensures Pool.Enabled(s, Pool.TargetDialled(0))
    ensures Pool.Apply(s, Pool.TargetDialled(0))
            == Pool.Sys(PoolTable.Table(map[x.key := 0], [x.(phase := PoolTable.Live, held := [], liveAt := 0)], false),
                        [Pool.Lease(0, Pool.Caller, false)], [Pool.Gone], [], 1)
  {
  }

  /**
   A run in which it keeps a connection: the manager is shut, nobody is inside either layer, and the connection is up
   and referred to.
   */
  lemma LeakKeepsConnection(user: string, id: string) returns (run: seq<Both>, moves: seq<Move>)
    ensures IsRun(run, moves)
    ensures var x := run[|moves|];
            && x.files.t.closed && !x.files.reaping && Files.Quiet(x.files) && x.pool.jobs == [Pool.Gone]
                && |x.pool.table.entries| == 1
            && x.pool.table.entries[0].phase == PoolTable.Live && x.pool.table.entries[0].refs == 1
                && x.pool.table.entries[0].closes == 0
  {
    hide Pool.Apply, Pool.Enabled, IsRun;
    run, moves := ShutWhileDialling(user, id);
    var x := run[|run| - 1];
    var k := FileTable.Key(user, id);
    Dialled(x.pool, x.pool.table.entries[0], user);
    var p := Pool.Apply(x.pool, Pool.TargetDialled(0));
    run, moves := Go(run, moves, Granted(Pool.TargetDialled(0), 0));
    var f1 := x.files.(jobs := [Files.Connected(k, 0)], leases := [Files.Lease(Files.Opening(0), 0)]);
    assert run[|run| - 1] == Both(p, f1, [0]);
    run, moves := Go(run, moves, InFiles(Files.Installs(0, 0)));
    var t := FileTable.Table(map[k := 0], [FileTable.Session(k, 0, false, 0)], true);
    var f2 := Files.Sys(t, [Files.Over], [Files.Lease(Files.Held(0), 0)], [], true);
    assert run[|run| - 1] == Both(p, f2, [0]);
    run, moves := Go(run, moves, InFiles(Files.ReaperStops));
    assert run[|run| - 1] == Both(p, f2.(reaping := false), [0]);
  }
}
