/** When a file session was last used, and what the reaper makes of it. */
module FileUse {
  import opened FileTable
  import opened FileRun

  /** The step answers a caller with the session: it has just been made, was already open, or has been found. */
  ghost predicate Uses(s: Sys, a: Step, id: nat) {
    match a
    case Open(k, _) => !s.t.closed && k in s.t.open && s.t.open[k] == id && id < |s.t.all| && !s.t.all[id].closed
    case Get(k, _) => k in s.t.open && s.t.open[k] == id && id < |s.t.all| && !s.t.all[id].closed
    case Installs(_, _) => id == |s.t.all|
    case _ => false
  }

  /** The clock at the last of the first `i` steps that used the session. */
  ghost function LastUse(run: seq<Sys>, steps: seq<Step>, i: nat, id: nat): int
    requires i <= |steps| && i < |run|
  {
    if i == 0 then 0
    else if Uses(run[i - 1], steps[i - 1], id) then steps[i - 1].now
    else LastUse(run, steps, i - 1, id)
  }

  lemma TakeOutUses(s: Sys, order: seq<Key>)
    requires forall i :: 0 <= i < |order| ==> order[i] in s.t.open
    ensures TakeOut(s, order).t.all == s.t.all
  {
  }

  lemma StepUses(s: Sys, a: Step, id: nat)
    requires Enabled(s, a) && id < |Apply(s, a).t.all|
    ensures !Uses(s, a, id) ==> id < |s.t.all|
    ensures Apply(s, a).t.all[id].lastUsed == if Uses(s, a, id) then a.now else s.t.all[id].lastUsed
  {
    hide TakeOut, IdleKeys;
    match a {
      case Close(k) => if k in s.t.open { TakeOutUses(s, [k]); }
      case Reap(now, order) => KeysOf(order, IdleKeys(s.t, now), s, now); TakeOutUses(s, order);
      case Shutdown(order) => TakeOutUses(s, order);
      case _ =>
    }
  }

  lemma KeysOf(order: seq<Key>, keys: set<Key>, s: Sys, now: int)
    requires Orders(order, keys) && keys == IdleKeys(s.t, now)
    ensures forall i :: 0 <= i < |order| ==> order[i] in s.t.open
  {
  }

  /** What a session has on record is the last time anything used it. */
  lemma {:induction false} OnRecord(run: seq<Sys>, steps: seq<Step>, i: nat, id: nat)
    requires IsRun(Init, run, steps) && i < |run| && id < |run[i].t.all|
    ensures run[i].t.all[id].lastUsed == LastUse(run, steps, i, id)
  {
    hide Apply, Enabled, Uses;
    if i > 0 {
      StepUses(run[i - 1], steps[i - 1], id);
      if !Uses(run[i - 1], steps[i - 1], id) { OnRecord(run, steps, i - 1, id); }
    }
  }

  /**
   The reaper takes out of the map exactly the sessions that nobody has used for more than fifteen
   minutes, and has each of them closed.
   */
  lemma ReapsExactly(run: seq<Sys>, steps: seq<Step>, i: nat, k: Key)
    requires IsRun(Init, run, steps) && i < |steps| && steps[i].Reap? && k in run[i].t.open
    ensures var s, s', id := run[i], run[i + 1], run[i].t.open[k];
            if steps[i].now - LastUse(run, steps, i, id) <= 900
            then k in s'.t.open && s'.t.open[k] == id && forall n ::
                |s.tasks| <= n < |s'.tasks| ==> s'.tasks[n] != Task(id, Pending)
            else k !in s'.t.open && exists n :: |s.tasks| <= n < |s'.tasks| && s'.tasks[n] == Task(id, Pending)
  {
    hide Inv;
    var s, id := run[i], run[i].t.open[k];
    InMapHolds(run, steps, i, k);
    OnRecord(run, steps, i, id);
    assert Enabled(s, steps[i]) && run[i + 1] == Apply(s, steps[i]);
    ReapTakes(run, steps, i, k);
  }

  lemma ReapTakes(run: seq<Sys>, steps: seq<Step>, i: nat, k: Key)
    requires IsRun(Init, run, steps) && i < |steps| && steps[i].Reap? && k in run[i].t.open
    ensures var s, s', id := run[i], run[i + 1], run[i].t.open[k];
            if k in IdleKeys(s.t, steps[i].now)
            then k !in s'.t.open && exists n :: |s.tasks| <= n < |s'.tasks| && s'.tasks[n] == Task(id, Pending)
            else k in s'.t.open && s'.t.open[k] == id && forall n ::
                |s.tasks| <= n < |s'.tasks| ==> s'.tasks[n] != Task(id, Pending)
  {
    hide Inv, IdleKeys;
    var s, id, order := run[i], run[i].t.open[k], steps[i].order;
    assert Enabled(s, steps[i]) && run[i + 1] == Apply(s, steps[i]);
    KeysOf(order, IdleKeys(s.t, steps[i].now), s, steps[i].now);
    assert run[i + 1].tasks == s.tasks + NewTasks(s.t.open, order);
    if k in IdleKeys(s.t, steps[i].now) {
      var n :| 0 <= n < |order| && order[n] == k;
      assert run[i + 1].tasks[|s.tasks| + n] == Task(id, Pending);
    } else {
      var tasks := run[i + 1].tasks;
      forall n | |s.tasks| <= n < |tasks| ensures tasks[n] != Task(id, Pending) {
        var k' := order[n - |s.tasks|];
        InMapHolds(run, steps, i, k);
        InMapHolds(run, steps, i, k');
      }
    }
  }

  /** The clock does not run backwards between uses. */
  ghost predicate Onward(steps: seq<Step>) {
    forall i, j :: 0 <= i < j < |steps| && Timed(steps[i]) && Timed(steps[j]) ==> steps[i].now <= steps[j].now
  }

  predicate Timed(a: Step) { a.Open? || a.Get? || a.Installs? || a.Reap? }

  lemma {:induction false} UsedLater(run: seq<Sys>, steps: seq<Step>, h: nat, i: nat, id: nat)
    requires h < i <= |steps| && i < |run| && Onward(steps) && Uses(run[h], steps[h], id)
    ensures LastUse(run, steps, i, id) >= steps[h].now
  {
    hide Uses;
    assert Timed(steps[h]) by { UsesTimed(run[h], steps[h], id); }
    if Uses(run[i - 1], steps[i - 1], id) {
      UsesTimed(run[i - 1], steps[i - 1], id);
    } else if h < i - 1 {
      UsedLater(run, steps, h, i - 1, id);
    }
  }

  lemma UsesTimed(s: Sys, a: Step, id: nat)
    requires Uses(s, a, id)
    ensures Timed(a)
  {
  }

  /** So a session that was handed to somebody in the last fifteen minutes is left alone. */
  lemma UsedIsKept(run: seq<Sys>, steps: seq<Step>, h: nat, i: nat, id: nat)
    requires IsRun(Init, run, steps) && Onward(steps) && h < i < |steps| && Uses(run[h], steps[h], id)
    requires steps[i].Reap? && steps[i].now - steps[h].now <= 900 && InMap(run[i], id)
    ensures InMap(run[i + 1], id)
  {
    hide Apply, Enabled, Uses;
    UsedLater(run, steps, h, i, id);
    ReapsExactly(run, steps, i, run[i].t.all[id].key);
    ReapKeepsRecords(run[i], steps[i]);
  }

  lemma ReapKeepsRecords(s: Sys, a: Step)
    requires Enabled(s, a) && a.Reap?
    ensures Apply(s, a).t.all == s.t.all
  {
  }

  /** Opening a host that is open gives the same session and dials nothing; otherwise it dials. */
  lemma OpensOnce(run: seq<Sys>, steps: seq<Step>, i: nat)
    requires IsRun(Init, run, steps) && i < |steps| && steps[i].Open?
    ensures var s, s', k := run[i], run[i + 1], steps[i].k;
            if s.t.closed then s' == s
            else if k in s.t.open then
              && Uses(s, steps[i], s.t.open[k])
              && s'.t.open == s.t.open && s'.jobs == s.jobs && s'.leases == s.leases && s'.tasks == s.tasks
            else s' == s.(jobs := s.jobs + [Dialling(k)])
  {
    hide Inv;
    var s, k := run[i], steps[i].k;
    assert Enabled(s, steps[i]) && run[i + 1] == Apply(s, steps[i]);
    if k in s.t.open { InMapHolds(run, steps, i, k); }
  }

  /** Closing one takes it and nothing else out of the map, and has it closed. */
  lemma ClosesIt(run: seq<Sys>, steps: seq<Step>, i: nat, k: Key)
    requires IsRun(Init, run, steps) && i < |steps| && steps[i] == Close(k)
    ensures var s, s' := run[i], run[i + 1];
            && s'.t.open == s.t.open - {k} && s'.t.all == s.t.all
            && s'.tasks == if k in s.t.open then s.tasks + [Task(s.t.open[k], Pending)] else s.tasks
  {
    assert Enabled(run[i], steps[i]) && run[i + 1] == Apply(run[i], steps[i]);
    assert (set x | x in [k]) == {k};
  }

  /** An Open whose dial fails, or whose host refuses SFTP, is over, and has given back the connection it had. */
  lemma OpenFails(run: seq<Sys>, steps: seq<Step>, i: nat)
    requires IsRun(Init, run, steps) && i < |steps| && (steps[i].DialFails? || steps[i].SftpFails?)
    ensures var s, s', j := run[i], run[i + 1], steps[i].j;
            && j < |s.jobs| && s'.jobs == s.jobs[j := Over] && s'.t == s.t
            && (steps[i].DialFails? ==> s'.leases == s.leases)
            && (steps[i].SftpFails? ==>
                  s.jobs[j].Connected? && s.jobs[j].lease < |s.leases| && s'.leases[s.jobs[j].lease].released == 1)
  {
    hide Inv;
    assert Enabled(run[i], steps[i]) && run[i + 1] == Apply(run[i], steps[i]);
    if steps[i].SftpFails? { LeaseHeld(run, steps, i, steps[i].j); }
  }

  lemma LeaseHeld(run: seq<Sys>, steps: seq<Step>, i: nat, j: nat)
    requires IsRun(Init, run, steps) && i < |run| && j < |run[i].jobs| && run[i].jobs[j].Connected?
    ensures run[i].jobs[j].lease < |run[i].leases| && run[i].leases[run[i].jobs[j].lease].released == 0
  {
    InitOk();
    Always(Init, run, steps, i);
    assert JobOk(run[i], j);
  }

  lemma OneSession(k: Key, used: int) returns (s: Sys)
    ensures s == Sys(Table(map[k := 0], [Session(k, 0, false, used)], false), [Over], [Lease(Held(0), 0)], [], true)
    ensures forall now :: IdleKeys(s.t, now) == if now - used > 900 then {k} else {}
  {
    s := Sys(Table(map[k := 0], [Session(k, 0, false, used)], false), [Over], [Lease(Held(0), 0)], [], true);
  }

  /** Opened at the start and got at 14 minutes. */
  lemma Got(k: Key) returns (run: seq<Sys>, steps: seq<Step>)
    ensures IsRun(Init, run, steps) && steps == [Open(k, 0), DialOk(0), Installs(0, 0), Get(k, 14 * 60)]
    ensures |run| == 5
    ensures run[4]
      == Sys(Table(map[k := 0], [Session(k, 0, false, 14 * 60)], false), [Over], [Lease(Held(0), 0)], [], true)
  {
    run, steps := [Init], [];
    assert IsRun(Init, run, steps);
    hide IsRun;
    run, steps := Go(run, steps, Open(k, 0));
    run, steps := Go(run, steps, DialOk(0));
    assert run[|run| - 1] == Sys(Table(map[], [], false), [Connected(k, 0)], [Lease(Opening(0), 0)], [], true);
    run, steps := Go(run, steps, Installs(0, 0));
    var s := OneSession(k, 0);
    assert run[|run| - 1] == s;
    run, steps := Go(run, steps, Get(k, 14 * 60));
    assert steps == [Open(k, 0), DialOk(0), Installs(0, 0), Get(k, 14 * 60)];
  }

  /** It is still there at 16, and taken out once it has not been used for more than fifteen. */
  lemma GotInTime(k: Key) returns (run: seq<Sys>, steps: seq<Step>)
    ensures IsRun(Init, run, steps) && |run| == 7
    ensures steps == [Open(k, 0), DialOk(0), Installs(0, 0), Get(k, 14 * 60), Reap(16 * 60, []), Reap(29 * 60 + 1, [k])]
    ensures run[5].t.open == map[k := 0] && run[6].t.open == map[]
  {
    hide IsRun, IdleKeys;
    run, steps := Got(k);
    var u := OneSession(k, 14 * 60);
    var run5, steps5 := Go(run, steps, Reap(16 * 60, []));
    assert TakeOut(u, []) == u;
    assert run5[5] == u && |run5| == 6 by { assert IsRun(Init, run5, steps5); assert |steps5| == 5; }
    run, steps := Go(run5, steps5, Reap(29 * 60 + 1, [k]));
    assert run[5] == run5[5];
    assert |steps| == 6;
  }

  // Losing the race to open.

  /** An Open that comes second is answered with the session that won. */
  ghost predicate LostTo(s: Sys, a: Step, id: nat) {
    && a.Installs? && a.j < |s.jobs| && s.jobs[a.j].Connected? && s.jobs[a.j].key in s.t.open
    && s.t.open[s.jobs[a.j].key] == id && id < |s.t.all|
  }

  /** That is the one way of being handed a session that does not mark it used. */
  lemma MarkedExactly(s: Sys, a: Step, id: nat)
    requires Enabled(s, a) && (Uses(s, a, id) || LostTo(s, a, id))
    ensures id < |Apply(s, a).t.all|
    ensures Apply(s, a).t.all[id].lastUsed == a.now
      <==> Uses(s, a, id) || (id < |s.t.all| && s.t.all[id].lastUsed == a.now)
  {
    StepUsed(s, a, id);
    StepUses(s, a, id);
  }

  lemma StepUsed(s: Sys, a: Step, id: nat)
    requires Enabled(s, a) && (Uses(s, a, id) || LostTo(s, a, id))
    ensures id < |Apply(s, a).t.all|
  {
  }

  /** Two callers inside Open for one host. */
  lemma TwoInside(k: Key) returns (run: seq<Sys>, steps: seq<Step>)
    ensures IsRun(Init, run, steps) && |run| == 6
    ensures steps == [Open(k, 0), Open(k, 0), DialOk(0), Installs(0, 0), DialOk(1)]
    ensures run[5] == Sys(Table(map[k := 0], [Session(k, 0, false, 0)], false), [Over, Connected(k, 1)],
                          [Lease(Held(0), 0), Lease(Opening(1), 0)], [], true)
  {
    run, steps := [Init], [];
    assert IsRun(Init, run, steps);
    hide IsRun;
    run, steps := Go(run, steps, Open(k, 0));
    run, steps := Go(run, steps, Open(k, 0));
    assert run[|run| - 1] == Sys(Table(map[], [], false), [Dialling(k), Dialling(k)], [], [], true);
    run, steps := Go(run, steps, DialOk(0));
    assert run[|run| - 1]
      == Sys(Table(map[], [], false), [Connected(k, 0), Dialling(k)], [Lease(Opening(0), 0)], [], true);
    run, steps := Go(run, steps, Installs(0, 0));
    var t := Table(map[k := 0], [Session(k, 0, false, 0)], false);
    assert run[|run| - 1] == Sys(t, [Over, Dialling(k)], [Lease(Held(0), 0)], [], true);
    run, steps := Go(run, steps, DialOk(1));
    assert steps == [Open(k, 0), Open(k, 0), DialOk(0), Installs(0, 0), DialOk(1)];
  }

  /** The second comes out after almost a quarter of an hour, and two seconds later the session is taken from it. */
  lemma LoserReaped(k: Key) returns (run: seq<Sys>, steps: seq<Step>)
    ensures IsRun(Init, run, steps) && |run| == 8 && |steps| == 7
    ensures steps[5] == Installs(1, 899) && LostTo(run[5], steps[5], 0)
    ensures steps[6] == Reap(901, [k]) && run[6].t.open == map[k := 0] && run[7].t.open == map[]
  {
    hide IsRun, IdleKeys;
    var run5, steps5 := TwoInside(k);
    var run6, steps6 := Go(run5, steps5, Installs(1, 899));
    var t := Table(map[k := 0], [Session(k, 0, false, 0), Session(k, 1, false, 899)], false);
    assert |run6| == 7 && |steps6| == 6 by { assert IsRun(Init, run6, steps6); }
    assert run6[5] == run5[5] && run6[6].t == t && run6[6].reaping;
    OneIdle(t, k);
    run, steps := Go(run6, steps6, Reap(901, [k]));
    assert run[5] == run6[5] && run[6] == run6[6] && steps[5] == steps6[5];
    assert |steps| == 7;
  }

  lemma OneIdle(t: Table, k: Key)
    requires t.open == map[k := 0] && |t.all| == 2 && t.all[0].lastUsed == 0
    ensures IdleKeys(t, 901) == {k} && Orders([k], IdleKeys(t, 901)) && Without(t, {k}).open == map[]
    ensures (set x | x in [k]) == {k}
  {
  }
}
