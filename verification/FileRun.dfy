/** Every interleaving of Open, Get, Close, the reaper and Shutdown over the manager of file sessions. */
module FileRun {
  import opened FileTable

  /** One call of Open past its first critical section. */
  datatype Job = Dialling(key: Key) | Connected(key: Key, lease: nat) | Over

  /**
   Who answers for a connection lease: a call of Open, a session, or nobody because SFTP was refused and it was given
   back.
   */
  datatype Owner = Opening(job: nat) | Held(id: nat) | Given

  datatype Lease = Lease(owner: Owner, released: nat)

  datatype Stage = Pending | Releasing | Finished

  /** One call of Session.close. */
  datatype Task = Task(id: nat, stage: Stage)

  datatype Sys = Sys(t: Table, jobs: seq<Job>, leases: seq<Lease>, tasks: seq<Task>, reaping: bool)

  const Init := Sys(Table(map[], [], false), [], [], [], true)

  datatype Step =
    | Open(k: Key, now: int)
    | DialOk(j: nat)
    | DialFails(j: nat)
    | SftpFails(j: nat)
    | Installs(j: nat, now: int)
    | Get(k: Key, now: int)
    | Close(k: Key)
    | Reap(now: int, order: seq<Key>)
    | Shutdown(order: seq<Key>)
    | ReaperStops
    | Marks(i: nat)
    | Releases(i: nat)

  ghost predicate Orders(order: seq<Key>, keys: set<Key>) {
    (forall i, j :: 0 <= i < j < |order| ==> order[i] != order[j])
    && (forall i :: 0 <= i < |order| ==> order[i] in keys) && (forall k :: k in keys ==> k in order)
  }

  ghost predicate Enabled(s: Sys, a: Step) {
    match a
    case Open(_, _) => Indexed(s.t)
    case DialOk(j) => j < |s.jobs| && s.jobs[j].Dialling?
    case DialFails(j) => j < |s.jobs| && s.jobs[j].Dialling?
    case SftpFails(j) => j < |s.jobs| && s.jobs[j].Connected? && s.jobs[j].lease < |s.leases|
    case Installs(j, _) => j < |s.jobs| && s.jobs[j].Connected? && s.jobs[j].lease < |s.leases|
    case Get(_, _) => Indexed(s.t)
    case Close(_) => true
    case Reap(now, order) => s.reaping && Orders(order, IdleKeys(s.t, now))
    case Shutdown(order) => !s.t.closed && Orders(order, s.t.open.Keys)
    case ReaperStops => s.t.closed
    case Marks(i) => i < |s.tasks| && s.tasks[i].stage == Pending && s.tasks[i].id < |s.t.all|
    case Releases(i) =>
      i < |s.tasks| && s.tasks[i].stage == Releasing && s.tasks[i].id < |s.t.all|
          && s.t.all[s.tasks[i].id].lease < |s.leases|
  }

  ghost function NewTasks(open: map<Key, nat>, order: seq<Key>): seq<Task>
    requires forall i :: 0 <= i < |order| ==> order[i] in open
  {
    seq(|order|, i requires 0 <= i < |order| => Task(open[order[i]], Pending))
  }

  /** Take sessions out of the map and have each closed. */
  ghost function TakeOut(s: Sys, order: seq<Key>): Sys
    requires forall i :: 0 <= i < |order| ==> order[i] in s.t.open
  {
    s.(t := Without(s.t, set k | k in order), tasks := s.tasks + NewTasks(s.t.open, order))
  }

  ghost function GiveBack(s: Sys, lease: nat, owner: Owner): Sys
    requires lease < |s.leases|
  {
    s.(leases := s.leases[lease := Lease(owner, s.leases[lease].released + 1)])
  }

  ghost function Apply(s: Sys, a: Step): Sys
    requires Enabled(s, a)
  {
    match a
    case Open(k, now) =>
      var (t, r) := Begin(s.t, k, now);
      if r.MustDial? then s.(t := t, jobs := s.jobs + [Dialling(k)]) else s.(t := t)
    case DialOk(j) => s.(jobs := s.jobs[j := Connected(s.jobs[j].key, |s.leases|)], leases :=
        s.leases + [Lease(Opening(j), 0)])
    case DialFails(j) => s.(jobs := s.jobs[j := Over])
    case SftpFails(j) => GiveBack(s, s.jobs[j].lease, Given).(jobs := s.jobs[j := Over])
    case Installs(j, now) =>
      var job := s.jobs[j];
      var (t, r) := Install(s.t, job.key, job.lease, now);
      s.(t := t, jobs := s.jobs[j := Over], leases := s.leases[job.lease := s.leases[job.lease].(owner := Held(r.id))],
         tasks := if r.Lost? then s.tasks + [Task(r.id, Pending)] else s.tasks)
    case Get(k, now) => s.(t := Found(s.t, k, now))
    case Close(k) => if k in s.t.open then TakeOut(s, [k]) else s
    case Reap(now, order) => TakeOut(s, order)
    case Shutdown(order) => var u := TakeOut(s, order); u.(t := u.t.(closed := true))
    case ReaperStops => s.(reaping := false)
    case Marks(i) =>
      var (t, first) := Mark(s.t, s.tasks[i].id);
      s.(t := t, tasks := s.tasks[i := s.tasks[i].(stage := if first then Releasing else Finished)])
    case Releases(i) =>
      var l := s.t.all[s.tasks[i].id].lease;
      GiveBack(s, l, s.leases[l].owner).(tasks := s.tasks[i := s.tasks[i].(stage := Finished)])
  }

  // What every step keeps.

  ghost predicate Tasked(s: Sys, id: nat) { exists i :: 0 <= i < |s.tasks| && s.tasks[i].id == id }

  ghost predicate InMap(s: Sys, id: nat)
  { id < |s.t.all| && s.t.all[id].key in s.t.open && s.t.open[s.t.all[id].key] == id }

  ghost predicate MapOk(s: Sys) {
    forall k :: k in s.t.open ==> s.t.open[k] < |s.t.all| && s.t.all[s.t.open[k]].key == k && !Tasked(s, s.t.open[k])
  }

  /**
   Each session answers for a lease of its own; one that nobody is closing is in the map, open, its lease not given
   back.
   */
  ghost predicate SessionOk(s: Sys, id: nat) {
    && id < |s.t.all| && s.t.all[id].lease < |s.leases| && s.leases[s.t.all[id].lease].owner == Held(id)
    && (!Tasked(s, id) ==> InMap(s, id) && !s.t.all[id].closed && s.leases[s.t.all[id].lease].released == 0)
  }

  ghost predicate TaskOk(s: Sys, i: nat) {
    && i < |s.tasks| && s.tasks[i].id < |s.t.all| && s.t.all[s.tasks[i].id].lease < |s.leases|
    && s.t.all[s.tasks[i].id].closed == !s.tasks[i].stage.Pending?
    && s.leases[s.t.all[s.tasks[i].id].lease].released == if s.tasks[i].stage.Finished? then 1 else 0
  }

  ghost predicate OneTaskEach(s: Sys) { forall i, j :: 0 <= i < j < |s.tasks| ==> s.tasks[i].id != s.tasks[j].id }

  ghost predicate JobOk(s: Sys, j: nat) {
    j < |s.jobs|
        && (s.jobs[j].Connected? ==> s.jobs[j].lease < |s.leases| && s.leases[s.jobs[j].lease] == Lease(Opening(j), 0))
  }

  ghost predicate LeaseOk(s: Sys, l: nat) {
    l < |s.leases| &&
    match s.leases[l].owner
    case Opening(j) => j < |s.jobs| && s.jobs[j].Connected? && s.jobs[j].lease == l
    case Held(id) => id < |s.t.all| && s.t.all[id].lease == l
    case Given => s.leases[l].released == 1
  }

  ghost predicate Inv(s: Sys) {
    && MapOk(s) && OneTaskEach(s)
    && (forall id :: 0 <= id < |s.t.all| ==> SessionOk(s, id))
    && (forall i :: 0 <= i < |s.tasks| ==> TaskOk(s, i))
    && (forall j :: 0 <= j < |s.jobs| ==> JobOk(s, j))
    && (forall l :: 0 <= l < |s.leases| ==> LeaseOk(s, l))
  }

  /** Changes that touch neither the map, the closing nor the leases. */
  lemma TouchKeeps(s: Sys, id: nat, now: int)
    requires Inv(s) && id < |s.t.all|
    ensures Inv(s.(t := Touch(s.t, id, now)))
  {
    var u := s.(t := Touch(s.t, id, now));
    forall x | 0 <= x < |u.t.all| ensures SessionOk(u, x)
    { assert SessionOk(s, x); assert Tasked(u, x) == Tasked(s, x); }
    forall i | 0 <= i < |u.tasks| ensures TaskOk(u, i) { assert TaskOk(s, i); }
    forall j | 0 <= j < |u.jobs| ensures JobOk(u, j) { assert JobOk(s, j); }
    forall l | 0 <= l < |u.leases| ensures LeaseOk(u, l) { assert LeaseOk(s, l); }
    assert MapOk(u) by { forall k | k in u.t.open ensures !Tasked(u, u.t.open[k]) { assert !Tasked(s, s.t.open[k]); } }
  }

  lemma OpenKeeps(s: Sys, k: Key, now: int)
    requires Inv(s) && Enabled(s, Open(k, now))
    ensures Inv(Apply(s, Open(k, now)))
  {
    var u := Apply(s, Open(k, now));
    if k in s.t.open {
      assert SessionOk(s, s.t.open[k]);
      assert !s.t.all[s.t.open[k]].closed;
    }
    if !s.t.closed && k in s.t.open {
      TouchKeeps(s, s.t.open[k], now);
    } else if !s.t.closed {
      assert u == s.(jobs := s.jobs + [Dialling(k)]);
      MoreJobs(s, Dialling(k));
    }
  }

  lemma MoreJobs(s: Sys, job: Job)
    requires Inv(s) && job.Dialling?
    ensures Inv(s.(jobs := s.jobs + [job]))
  {
    var u := s.(jobs := s.jobs + [job]);
    forall x | 0 <= x < |u.t.all| ensures SessionOk(u, x)
    { assert SessionOk(s, x); assert Tasked(u, x) == Tasked(s, x); }
    forall i | 0 <= i < |u.tasks| ensures TaskOk(u, i) { assert TaskOk(s, i); }
    forall j | 0 <= j < |u.jobs| ensures JobOk(u, j) { if j < |s.jobs| { assert JobOk(s, j); } }
    forall l | 0 <= l < |u.leases| ensures LeaseOk(u, l) { assert LeaseOk(s, l); }
    assert MapOk(u) by { forall k | k in u.t.open ensures !Tasked(u, u.t.open[k]) { assert !Tasked(s, s.t.open[k]); } }
  }

  lemma DialKeeps(s: Sys, j: nat)
    requires Inv(s) && Enabled(s, DialOk(j))
    ensures Inv(Apply(s, DialOk(j))) && Inv(Apply(s, DialFails(j)))
  {
    var u := Apply(s, DialOk(j));
    var v := Apply(s, DialFails(j));
    forall x | 0 <= x < |s.t.all| ensures SessionOk(u, x) && SessionOk(v, x) {
      assert SessionOk(s, x);
      assert Tasked(u, x) == Tasked(s, x) == Tasked(v, x);
    }
    forall i | 0 <= i < |s.tasks| ensures TaskOk(u, i) && TaskOk(v, i)
    { assert TaskOk(s, i); assert SessionOk(s, s.tasks[i].id); }
    forall i | 0 <= i < |s.jobs| ensures JobOk(u, i) && JobOk(v, i) { assert JobOk(s, i); }
    forall l | 0 <= l < |s.leases| ensures LeaseOk(u, l) && LeaseOk(v, l) { assert LeaseOk(s, l); }
    assert LeaseOk(u, |s.leases|);
    assert MapOk(u) && MapOk(v) by {
      forall k | k in s.t.open ensures !Tasked(u, s.t.open[k]) && !Tasked(v, s.t.open[k])
      { assert !Tasked(s, s.t.open[k]); }
    }
  }

  lemma SftpFailsKeeps(s: Sys, j: nat)
    requires Inv(s) && Enabled(s, SftpFails(j))
    ensures Inv(Apply(s, SftpFails(j)))
  {
    var u := Apply(s, SftpFails(j));
    var mine := s.jobs[j].lease;
    assert JobOk(s, j);
    forall x | 0 <= x < |u.t.all| ensures SessionOk(u, x)
    { assert SessionOk(s, x); assert Tasked(u, x) == Tasked(s, x); }
    forall i | 0 <= i < |u.tasks| ensures TaskOk(u, i) { assert TaskOk(s, i); assert SessionOk(s, s.tasks[i].id); }
    forall i | 0 <= i < |u.jobs| ensures JobOk(u, i) { assert JobOk(s, i); }
    forall l | 0 <= l < |u.leases| ensures LeaseOk(u, l) { assert LeaseOk(s, l); }
    assert MapOk(u) by { forall k | k in u.t.open ensures !Tasked(u, u.t.open[k]) { assert !Tasked(s, s.t.open[k]); } }
  }

  lemma UnusedId(s: Sys)
    requires Inv(s)
    ensures !Tasked(s, |s.t.all|)
  {
    forall i | 0 <= i < |s.tasks| ensures s.tasks[i].id != |s.t.all| { assert TaskOk(s, i); }
  }

  lemma InstallsKeeps(s: Sys, j: nat, now: int)
    requires Inv(s) && Enabled(s, Installs(j, now))
    ensures Inv(Apply(s, Installs(j, now)))
  {
    InstalledSessions(s, j, now);
    InstalledRest(s, j, now);
  }

  lemma InstalledSessions(s: Sys, j: nat, now: int)
    requires Inv(s) && Enabled(s, Installs(j, now))
    ensures var u := Apply(s, Installs(j, now)); MapOk(u) && forall x :: 0 <= x < |u.t.all| ==> SessionOk(u, x)
  {
    var u := Apply(s, Installs(j, now));
    var id := |s.t.all|;
    assert JobOk(s, j);
    UnusedId(s);
    forall x ensures Tasked(u, x) <==> Tasked(s, x) || (x == id && s.jobs[j].key in s.t.open)
    { TaskedAfter(s, u, x, j, now); }
    hide Tasked;
    forall x | 0 <= x < |u.t.all| ensures SessionOk(u, x) { if x < id { assert SessionOk(s, x); } }
  }

  lemma InstalledRest(s: Sys, j: nat, now: int)
    requires Inv(s) && Enabled(s, Installs(j, now))
    ensures var u := Apply(s, Installs(j, now));
            && OneTaskEach(u) && (forall i :: 0 <= i < |u.tasks| ==> TaskOk(u, i))
            && (forall i :: 0 <= i < |u.jobs| ==> JobOk(u, i)) && (forall l :: 0 <= l < |u.leases| ==> LeaseOk(u, l))
  {
    hide MapOk, Tasked, InMap;
    var u := Apply(s, Installs(j, now));
    assert JobOk(s, j);
    forall i | 0 <= i < |u.tasks| ensures TaskOk(u, i) {
      if i < |s.tasks| { assert TaskOk(s, i); assert SessionOk(s, s.tasks[i].id); }
    }
    forall i, l | 0 <= i < l < |u.tasks| ensures u.tasks[i].id != u.tasks[l].id { assert TaskOk(s, i); }
    forall i | 0 <= i < |u.jobs| ensures JobOk(u, i) { assert JobOk(s, i); }
    forall l | 0 <= l < |u.leases| ensures LeaseOk(u, l) { assert LeaseOk(s, l); }
  }

  lemma TaskedAfter(s: Sys, u: Sys, x: nat, j: nat, now: int)
    requires Enabled(s, Installs(j, now)) && u == Apply(s, Installs(j, now))
    ensures Tasked(u, x) <==> Tasked(s, x) || (x == |s.t.all| && s.jobs[j].key in s.t.open)
  {
    if Tasked(s, x) { var i :| 0 <= i < |s.tasks| && s.tasks[i].id == x; assert u.tasks[i].id == x; }
    if s.jobs[j].key in s.t.open { assert u.tasks[|s.tasks|].id == |s.t.all|; }
  }

  /** Taken out of the map and to be closed: exactly those. */
  lemma TakeOutKeeps(s: Sys, order: seq<Key>, keys: set<Key>)
    requires Inv(s) && Orders(order, keys) && keys <= s.t.open.Keys
    ensures Inv(TakeOut(s, order)) && TakeOut(s, order).t.open == s.t.open - keys
  {
    var u := TakeOut(s, order);
    assert (set k | k in order) == keys;
    forall x ensures Tasked(u, x) <==> Tasked(s, x) || exists k :: k in keys && s.t.open[k] == x
    { TakenTasked(s, order, keys, x); }
    forall x | 0 <= x < |u.t.all| ensures SessionOk(u, x) { assert SessionOk(s, x); }
    forall i | 0 <= i < |u.tasks| ensures TaskOk(u, i) {
      if i < |s.tasks| {
        assert TaskOk(s, i);
      } else {
        assert order[i - |s.tasks|] in order;
        assert SessionOk(s, s.t.open[order[i - |s.tasks|]]);
      }
    }
    TakenOnce(s, order, keys);
    forall j | 0 <= j < |u.jobs| ensures JobOk(u, j) { assert JobOk(s, j); }
    forall l | 0 <= l < |u.leases| ensures LeaseOk(u, l) { assert LeaseOk(s, l); }
    assert MapOk(u);
  }

  lemma TakenTasked(s: Sys, order: seq<Key>, keys: set<Key>, x: nat)
    requires Orders(order, keys) && keys <= s.t.open.Keys
    ensures Tasked(TakeOut(s, order), x) <==> Tasked(s, x) || exists k :: k in keys && s.t.open[k] == x
  {
    var u := TakeOut(s, order);
    if Tasked(s, x) { var i :| 0 <= i < |s.tasks| && s.tasks[i].id == x; assert u.tasks[i].id == x; }
    if k :| k in keys && s.t.open[k] == x {
      var i :| 0 <= i < |order| && order[i] == k;
      assert u.tasks[|s.tasks| + i].id == x;
    }
    if Tasked(u, x) && !Tasked(s, x) {
      var i :| 0 <= i < |u.tasks| && u.tasks[i].id == x;
      assert i >= |s.tasks|;
      assert order[i - |s.tasks|] in order;
    }
  }

  lemma TakenOnce(s: Sys, order: seq<Key>, keys: set<Key>)
    requires Inv(s) && Orders(order, keys) && keys <= s.t.open.Keys
    ensures OneTaskEach(TakeOut(s, order))
  {
    var u := TakeOut(s, order);
    var n := |s.tasks|;
    forall i, j | 0 <= i < j < |u.tasks| ensures u.tasks[i].id != u.tasks[j].id {
      if j >= n {
        assert order[j - n] in order;
        assert !Tasked(s, s.t.open[order[j - n]]);
        if i >= n {
          assert order[i - n] in order && order[i - n] != order[j - n];
        }
      }
    }
  }

  lemma MarksKeeps(s: Sys, i: nat)
    requires Inv(s) && Enabled(s, Marks(i))
    ensures Inv(Apply(s, Marks(i)))
  {
    var u := Apply(s, Marks(i));
    assert TaskOk(s, i);
    SameTasked(s, u);
    forall x | 0 <= x < |u.t.all| ensures SessionOk(u, x) {
      assert SessionOk(s, x);
      if x == s.tasks[i].id { assert Tasked(s, x); }
    }
    forall k | 0 <= k < |u.tasks| ensures TaskOk(u, k) { assert TaskOk(s, k); }
    forall j | 0 <= j < |u.jobs| ensures JobOk(u, j) { assert JobOk(s, j); }
    forall l | 0 <= l < |u.leases| ensures LeaseOk(u, l) { assert LeaseOk(s, l); }
    assert MapOk(u);
  }

  lemma SameTasked(s: Sys, u: Sys)
    requires |u.tasks| == |s.tasks| && forall i :: 0 <= i < |s.tasks| ==> u.tasks[i].id == s.tasks[i].id
    ensures forall x :: Tasked(u, x) <==> Tasked(s, x)
  {
    forall x ensures Tasked(u, x) <==> Tasked(s, x) {
      if Tasked(s, x) { var i :| 0 <= i < |s.tasks| && s.tasks[i].id == x; assert u.tasks[i].id == x; }
      if Tasked(u, x) { var i :| 0 <= i < |u.tasks| && u.tasks[i].id == x; assert s.tasks[i].id == x; }
    }
  }

  lemma ReleasesKeeps(s: Sys, i: nat)
    requires Inv(s) && Enabled(s, Releases(i))
    ensures Inv(Apply(s, Releases(i)))
  {
    var u := Apply(s, Releases(i));
    var id := s.tasks[i].id;
    assert TaskOk(s, i) && SessionOk(s, id);
    SameTasked(s, u);
    forall x | 0 <= x < |u.t.all| ensures SessionOk(u, x) {
      assert SessionOk(s, x);
      if x == id { assert Tasked(s, x); }
    }
    forall k | 0 <= k < |u.tasks| ensures TaskOk(u, k) { assert TaskOk(s, k) && SessionOk(s, s.tasks[k].id); }
    forall j | 0 <= j < |u.jobs| ensures JobOk(u, j) { assert JobOk(s, j); }
    forall l | 0 <= l < |u.leases| ensures LeaseOk(u, l) { assert LeaseOk(s, l); }
    assert MapOk(u);
  }

  lemma FlagKeeps(s: Sys, u: Sys)
    requires Inv(s) && u == s.(t := s.t.(closed := u.t.closed), reaping := u.reaping)
    ensures Inv(u)
  {
    SameTasked(s, u);
    forall x | 0 <= x < |u.t.all| ensures SessionOk(u, x) { assert SessionOk(s, x); }
    forall i | 0 <= i < |u.tasks| ensures TaskOk(u, i) { assert TaskOk(s, i); }
    forall j | 0 <= j < |u.jobs| ensures JobOk(u, j) { assert JobOk(s, j); }
    forall l | 0 <= l < |u.leases| ensures LeaseOk(u, l) { assert LeaseOk(s, l); }
  }

  lemma StepKeeps(s: Sys, a: Step)
    requires Inv(s) && Enabled(s, a)
    ensures Inv(Apply(s, a))
  {
    hide Inv;
    match a {
      case Open(k, now) => OpenKeeps(s, k, now);
      case DialOk(j) => DialKeeps(s, j);
      case DialFails(j) => assert Enabled(s, DialOk(j)); DialKeeps(s, j);
      case SftpFails(j) => SftpFailsKeeps(s, j);
      case Installs(j, now) => InstallsKeeps(s, j, now);
      case Get(k, now) => if k in s.t.open { TouchKeeps(s, s.t.open[k], now); }
      case Close(k) => if k in s.t.open { TakeOutKeeps(s, [k], {k}); }
      case Reap(now, order) => TakeOutKeeps(s, order, IdleKeys(s.t, now));
      case Shutdown(order) =>
        TakeOutKeeps(s, order, s.t.open.Keys);
        FlagKeeps(TakeOut(s, order), Apply(s, a));
      case ReaperStops => FlagKeeps(s, Apply(s, a));
      case Marks(i) => MarksKeeps(s, i);
      case Releases(i) => ReleasesKeeps(s, i);
    }
  }

  ghost predicate IsRun(start: Sys, run: seq<Sys>, steps: seq<Step>) {
    && |run| == |steps| + 1 && run[0] == start
    && forall i :: 0 <= i < |steps| ==> Enabled(run[i], steps[i]) && run[i + 1] == Apply(run[i], steps[i])
  }

  lemma InitOk()
    ensures Inv(Init)
  {
  }

  lemma {:induction false} Always(start: Sys, run: seq<Sys>, steps: seq<Step>, i: nat)
    requires Inv(start) && IsRun(start, run, steps) && i < |run|
    ensures Inv(run[i])
  {
    hide Inv, Apply, Enabled;
    if i > 0 {
      Always(start, run, steps, i - 1);
      StepKeeps(run[i - 1], steps[i - 1]);
    }
  }

  // What that means.

  /** A session in the map is open, and holds one lease that nobody has given back. */
  lemma InMapHolds(run: seq<Sys>, steps: seq<Step>, i: nat, k: Key)
    requires IsRun(Init, run, steps) && i < |run| && k in run[i].t.open
    ensures var s := run[i];
            var id := s.t.open[k];
            && id < |s.t.all| && s.t.all[id].key == k && !s.t.all[id].closed
            && s.t.all[id].lease < |s.leases| && s.leases[s.t.all[id].lease] == Lease(Held(id), 0)
  {
    InitOk();
    Always(Init, run, steps, i);
    assert SessionOk(run[i], run[i].t.open[k]);
  }

  /** No lease is given back twice, and none while its session is in the map or still being opened. */
  lemma AtMostOnce(run: seq<Sys>, steps: seq<Step>, i: nat, l: nat)
    requires IsRun(Init, run, steps) && i < |run| && l < |run[i].leases|
    ensures run[i].leases[l].released <= 1
    ensures run[i].leases[l].released == 1 && run[i].leases[l].owner.Held? ==>
              run[i].leases[l].owner.id < |run[i].t.all| && run[i].t.all[run[i].leases[l].owner.id].closed
                  && !InMap(run[i], run[i].leases[l].owner.id)
    ensures run[i].leases[l].owner.Opening? ==> run[i].leases[l].released == 0
  {
    InitOk();
    Always(Init, run, steps, i);
    var s := run[i];
    assert LeaseOk(s, l);
    match s.leases[l].owner {
      case Opening(j) => assert JobOk(s, j);
      case Held(id) =>
        assert SessionOk(s, id);
        if Tasked(s, id) { var n :| 0 <= n < |s.tasks| && s.tasks[n].id == id; assert TaskOk(s, n); }
      case Given =>
    }
  }

  /** Nobody is inside Open or Session.close. */
  ghost predicate Quiet(s: Sys) {
    (forall j :: 0 <= j < |s.jobs| ==> s.jobs[j].Over?) && (forall i ::
        0 <= i < |s.tasks| ==> s.tasks[i].stage.Finished?)
  }

  /** Then every lease has been given back exactly once, except those of the sessions in the map. */
  lemma NothingKept(run: seq<Sys>, steps: seq<Step>, i: nat, l: nat)
    requires IsRun(Init, run, steps) && i < |run| && Quiet(run[i]) && l < |run[i].leases|
    ensures var s := run[i];
            if s.leases[l].owner.Held? && InMap(s, s.leases[l].owner.id) then s.leases[l].released == 0
                else s.leases[l].released == 1
  {
    InitOk();
    Always(Init, run, steps, i);
    var s := run[i];
    assert LeaseOk(s, l);
    match s.leases[l].owner {
      case Opening(j) => assert false;
      case Held(id) =>
        assert SessionOk(s, id);
        if Tasked(s, id) { var n :| 0 <= n < |s.tasks| && s.tasks[n].id == id; assert TaskOk(s, n); }
      case Given =>
    }
  }

  // Shutting down.

  /** Shut, with nothing open and nobody part-way through opening. */
  ghost predicate ShutForGood(s: Sys) {
    s.t.closed && s.t.open == map[] && forall j :: 0 <= j < |s.jobs| ==> s.jobs[j].Over?
  }

  lemma ShutStays(s: Sys, a: Step)
    requires ShutForGood(s) && Enabled(s, a)
    ensures ShutForGood(Apply(s, a))
  {
    match a {
      case Reap(now, order) =>
        assert Apply(s, a).t.open == map[];
      case _ =>
    }
  }

  lemma {:induction false} ShutRunStays(s: Sys, run: seq<Sys>, steps: seq<Step>, i: nat)
    requires ShutForGood(s) && IsRun(s, run, steps) && i < |run|
    ensures ShutForGood(run[i])
  {
    hide ShutForGood, Apply, Enabled;
    if i > 0 {
      ShutRunStays(s, run, steps, i - 1);
      ShutStays(run[i - 1], steps[i - 1]);
    }
  }

  /** Some way of going on puts a session into the map. */
  ghost predicate CanReopen(s: Sys) {
    exists run: seq<Sys>, steps: seq<Step> :: IsRun(s, run, steps) && run[|steps|].t.open != map[]
  }

  lemma LateInstall(s: Sys, j: nat)
    requires Inv(s) && s.t.open == map[] && j < |s.jobs| && !s.jobs[j].Over?
    ensures CanReopen(s)
  {
    if s.jobs[j].Dialling? {
      var u := Apply(s, DialOk(j));
      var v := Apply(u, Installs(j, 0));
      assert v.t.open == map[s.jobs[j].key := |s.t.all|];
      var run, steps := [s, u, v], [DialOk(j), Installs(j, 0)];
      assert IsRun(s, run, steps);
    } else {
      assert JobOk(s, j);
      var v := Apply(s, Installs(j, 0));
      assert v.t.open == map[s.jobs[j].key := |s.t.all|];
      var run, steps := [s, v], [Installs(j, 0)];
      assert IsRun(s, run, steps);
    }
  }

  /**
   After Shutdown the map is empty, but it stays so only when nobody was inside Open at that moment:
   an Open that was past its first check installs its session all the same.
   */
  lemma ReopensExactly(s: Sys)
    requires Inv(s) && s.t.closed && s.t.open == map[]
    ensures CanReopen(s) <==> exists j :: 0 <= j < |s.jobs| && !s.jobs[j].Over?
  {
    if j :| 0 <= j < |s.jobs| && !s.jobs[j].Over? {
      LateInstall(s, j);
    } else if CanReopen(s) {
      var run: seq<Sys>, steps: seq<Step> :| IsRun(s, run, steps) && run[|steps|].t.open != map[];
      ShutRunStays(s, run, steps, |steps|);
    }
  }

  /**
   And such a session is closed by nothing but a Close of its own: the reaper has stopped, and a second Shutdown does
   nothing.
   */
  lemma LeftOpen(s: Sys, a: Step, k: Key)
    requires Inv(s) && s.t.closed && !s.reaping && k in s.t.open && Enabled(s, a) && a != Close(k)
    ensures k in Apply(s, a).t.open && Apply(s, a).t.open[k] == s.t.open[k]
  {
  }

  lemma Go(run: seq<Sys>, steps: seq<Step>, a: Step) returns (run': seq<Sys>, steps': seq<Step>)
    requires IsRun(Init, run, steps) && Enabled(run[|run| - 1], a)
    ensures IsRun(Init, run', steps') && |run'| == |steps'| + 1 && run'[|run'| - 1] == Apply(run[|run| - 1], a)
    ensures run <= run' && steps' == steps + [a]
  {
    hide Apply, Enabled;
    run', steps' := run + [Apply(run[|run| - 1], a)], steps + [a];
  }

  /** Shut while somebody is inside Open. */
  lemma ShutWhileOpening(k: Key) returns (run: seq<Sys>, steps: seq<Step>)
    ensures IsRun(Init, run, steps) && |run| == |steps| + 1
    ensures run[|run| - 1] == Sys(Table(map[], [], true), [Dialling(k)], [], [], true)
  {
    run, steps := [Init], [];
    assert IsRun(Init, run, steps);
    hide IsRun;
    run, steps := Go(run, steps, Open(k, 0));
    assert run[|run| - 1] == Sys(Table(map[], [], false), [Dialling(k)], [], [], true);
    ShutNothing(run[|run| - 1]);
    run, steps := Go(run, steps, Shutdown([]));
  }

  /** A run that ends shut, the reaper stopped, nobody inside, and a session open. */
  lemma ShutdownLeaks(k: Key) returns (run: seq<Sys>, steps: seq<Step>)
    ensures IsRun(Init, run, steps) && run[|steps|].t.closed && !run[|steps|].reaping && Quiet(run[|steps|])
      && run[|steps|].t.open == map[k := 0]
  {
    run, steps := ShutWhileOpening(k);
    hide IsRun;
    run, steps := Go(run, steps, DialOk(0));
    assert run[|run| - 1] == Sys(Table(map[], [], true), [Connected(k, 0)], [Lease(Opening(0), 0)], [], true);
    run, steps := Go(run, steps, Installs(0, 0));
    var t := Table(map[k := 0], [Session(k, 0, false, 0)], true);
    assert run[|run| - 1] == Sys(t, [Over], [Lease(Held(0), 0)], [], true);
    run, steps := Go(run, steps, ReaperStops);
    assert run[|run| - 1] == Sys(t, [Over], [Lease(Held(0), 0)], [], false);
  }

  lemma ShutNothing(s: Sys)
    requires s.t.open == map[] && !s.t.closed
    ensures Enabled(s, Shutdown([])) && Apply(s, Shutdown([])) == s.(t := s.t.(closed := true))
  {
    assert TakeOut(s, []).tasks == s.tasks;
    assert TakeOut(s, []).t == s.t;
  }
}
