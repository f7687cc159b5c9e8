/**
 The throttle under attempts that overlap: a check and the failure it allows are separate, with anything in between.
 */
module ThrottleRace {
  import opened Throttle

  /** One call on the throttle, for any identifier; `Left` is an attempt that ends without recording a failure. */
  datatype Call =
    | Checked(key: Key, at: int)
    | Failed(key: Key, at: int)
    | Left(key: Key, at: int)
    | Succeeded(key: Key, at: int)
    | Swept(retain: int, at: int)

  /**
   The throttle, and for one identifier the failures since its last success and the attempts that passed and have not
   ended.
   */
  datatype Race = Race(s: State, log: seq<int>, flying: nat, now: int)

  ghost predicate Possible(r: Race, cfg: Config, k: Key, c: nat, e: Call) {
    && r.now <= e.at && (e.Swept? ==> e.retain >= cfg.window)
    && ((e.Failed? || e.Left?) && e.key == k ==> r.flying > 0)
    && Next(r, cfg, k, e).flying <= c
  }

  function Next(r: Race, cfg: Config, k: Key, e: Call): Race {
    match e
    case Checked(j, at) => r.(now := at, flying := if j == k && Check(r.s, cfg, k, at) == Allowed then r.flying + 1
        else r.flying)
    case Failed(j, at) =>
      Race(RecordFailure(r.s, j, at), if j == k then r.log + [at] else r.log, if j == k && r.flying > 0
          then r.flying - 1 else r.flying, at)
    case Left(j, at) => r.(now := at, flying := if j == k && r.flying > 0 then r.flying - 1 else r.flying)
    case Succeeded(j, at) => r.(s := RecordSuccess(r.s, j, at), log := if j == k then [] else r.log, now := at)
    case Swept(retain, at) => r.(s := Purge(r.s, retain, at), now := at)
  }

  /** A run with at most `c` attempts of `k` in flight at a time. */
  ghost predicate IsRun(run: seq<Race>, calls: seq<Call>, cfg: Config, k: Key, c: nat) {
    && |run| == |calls| + 1
    && forall i ::
        0 <= i < |calls| ==> Possible(run[i], cfg, k, c, calls[i]) && run[i + 1] == Next(run[i], cfg, k, calls[i])
  }

  ghost predicate Starts(r: Race, cfg: Config, k: Key) {
    r.s.recent == map[] && r.log == [] && r.flying == 0 && After(FailTimes(r.s.table, k), r.now - cfg.window) == []
  }

  /** How many failures a window can hold: the limit, and one more for each further attempt in flight. */
  function Most(cfg: Config, k: Key, c: nat): int { cfg.Limit(k.kind) - 1 + c }

  ghost predicate Tells(r: Race, cfg: Config, k: Key) {
    Agree(r.s, cfg, k, r.now) && After(r.log, r.now - cfg.window) == After(FailTimes(r.s.table, k), r.now - cfg.window)
  }

  /** What is in the window and what is in flight never add up to more. */
  ghost predicate Fits(r: Race, cfg: Config, k: Key, c: nat) {
    && r.flying <= c && (r.flying > 0 ==> |After(r.log, r.now - cfg.window)| + r.flying <= Most(cfg, k, c))
    && Bounded(r.log, cfg.window, Most(cfg, k, c))
  }

  lemma TellsLater(r: Race, cfg: Config, k: Key, at: int)
    requires Tells(r, cfg, k) && r.now <= at
    ensures Tells(r.(now := at), cfg, k)
  {
    hide After;
    AgreeMovesOn(r.s, cfg, k, r.now, at);
    AgreeLater(r.log, FailTimes(r.s.table, k), r.now - cfg.window, at - cfg.window);
  }

  lemma TellsKept(r: Race, cfg: Config, k: Key, c: nat, e: Call)
    requires Tells(r, cfg, k) && Possible(r, cfg, k, c, e) && k.identifier != ""
    ensures Tells(Next(r, cfg, k, e), cfg, k)
  {
    hide After, FailTimes, Cleared, NotBefore, Check;
    TellsLater(r, cfg, k, e.at);
    var cut := e.at - cfg.window;
    match e {
      case Checked(_, _) =>
      case Left(_, _) =>
      case Failed(j, at) =>
        FailureAgrees(r.s, cfg, j, k, at);
        FailTimesAdd(r.s.table, Row(j, at, true), k);
        AfterAdd(FailTimes(r.s.table, k), at, cut);
        AfterAdd(r.log, at, cut);
      case Succeeded(j, at) =>
        SuccessAgrees(r.s, cfg, j, k, at);
        ClearedTimes(r.s.table, j, k);
        FailTimesAdd(Cleared(r.s.table, j), Row(j, at, false), k);
      case Swept(retain, at) =>
        PurgeAgreesIff(r.s, cfg, retain, k, at);
        NotBeforeTimes(r.s.table, at - retain, cut, k);
    }
  }

  lemma {:induction false} AfterShrinks(ts: seq<int>, cut: int, cut': int)
    requires cut <= cut'
    ensures |After(ts, cut')| <= |After(ts, cut)|
  {
    if ts != [] { AfterShrinks(ts[..|ts| - 1], cut, cut'); }
  }

  lemma RecordFits(r: Race, cfg: Config, k: Key, c: nat, at: int)
    requires Fits(r, cfg, k, c) && r.now <= at && r.flying > 0
    ensures Bounded(r.log + [at], cfg.window, Most(cfg, k, c))
    ensures |After(r.log + [at], at - cfg.window)| + r.flying - 1 <= Most(cfg, k, c)
  {
    hide After, InWindow;
    AfterShrinks(r.log, r.now - cfg.window, at - cfg.window);
    AfterAdd(r.log, at, at - cfg.window);
    forall x ensures InWindow(r.log + [at], cfg.window, x) <= Most(cfg, k, c) {
      InWindowAdd(r.log, at, cfg.window, x);
      if x >= at { InWindowAfter(r.log, cfg.window, x, at - cfg.window); }
    }
  }

  lemma FitsKept(r: Race, cfg: Config, k: Key, c: nat, e: Call)
    requires cfg.Valid() && cfg.lockout >= cfg.window && k.identifier != "" && c >= 1
    requires Tells(r, cfg, k) && Fits(r, cfg, k, c) && Possible(r, cfg, k, c, e)
    ensures Fits(Next(r, cfg, k, e), cfg, k, c)
  {
    hide After, FailTimes, Check, InWindow, Counted, RecordFailure, RecordSuccess, Purge;
    AfterShrinks(r.log, r.now - cfg.window, e.at - cfg.window);
    match e {
      case Checked(j, at) =>
        if j == k && Check(r.s, cfg, k, at) == Allowed {
          TellsLater(r, cfg, k, at);
          SeesLog(r.(now := at), cfg, k);
          PassingMeansFew(r.s, cfg, k, at);
        }
      case Failed(j, at) => if j == k { RecordFits(r, cfg, k, c, at); }
      case Succeeded(j, _) => NothingFits(cfg, k, c, e.at - cfg.window);
      case _ =>
    }
  }

  lemma SeesLog(r: Race, cfg: Config, k: Key)
    requires Tells(r, cfg, k)
    ensures Counted(r.s, cfg.window, k, r.now) == After(r.log, r.now - cfg.window)
  {
    hide After;
  }

  lemma NothingFits(cfg: Config, k: Key, c: nat, cut: int)
    requires cfg.Valid() && c >= 1
    ensures Bounded([], cfg.window, Most(cfg, k, c)) && After([], cut) == []
  {
  }

  lemma {:induction false} AlwaysFits(run: seq<Race>, calls: seq<Call>, cfg: Config, k: Key, c: nat, i: nat)
    requires cfg.Valid() && cfg.lockout >= cfg.window && k.identifier != "" && c >= 1
    requires IsRun(run, calls, cfg, k, c) && Starts(run[0], cfg, k) && i < |run|
    ensures Tells(run[i], cfg, k) && Fits(run[i], cfg, k, c)
  {
    hide Tells, Fits, Possible, Next, Starts;
    if i == 0 {
      StartFits(run[0], cfg, k, c);
    } else {
      AlwaysFits(run, calls, cfg, k, c, i - 1);
      TellsKept(run[i - 1], cfg, k, c, calls[i - 1]);
      FitsKept(run[i - 1], cfg, k, c, calls[i - 1]);
    }
  }

  lemma StartFits(r: Race, cfg: Config, k: Key, c: nat)
    requires cfg.Valid() && c >= 1 && Starts(r, cfg, k)
    ensures Tells(r, cfg, k) && Fits(r, cfg, k, c)
  {
  }

  /**
   The rate bound with attempts that overlap: with a lockout no shorter than the window and at most
   `c` attempts in flight, no window holds more than the limit plus `c - 1` failures since the last
   success. With one attempt at a time that is the limit itself.
   */
  lemma RaceBound(run: seq<Race>, calls: seq<Call>, cfg: Config, k: Key, c: nat, i: nat)
    requires cfg.Valid() && cfg.lockout >= cfg.window && k.identifier != "" && c >= 1
    requires IsRun(run, calls, cfg, k, c) && Starts(run[0], cfg, k) && i < |run|
    ensures Bounded(run[i].log, cfg.window, cfg.Limit(k.kind) + c - 1)
  {
    hide IsRun, Starts, Bounded;
    AlwaysFits(run, calls, cfg, k, c, i);
  }

  // The bound is reached.

  const Nobody := Race(State(map[], []), [], 0, 0)

  lemma Go(run: seq<Race>, calls: seq<Call>, cfg: Config, k: Key, c: nat, e: Call)
      returns (run': seq<Race>, calls': seq<Call>)
    requires IsRun(run, calls, cfg, k, c) && Possible(run[|run| - 1], cfg, k, c, e)
    ensures IsRun(run', calls', cfg, k, c) && run'[0] == run[0] && run'[|run'| - 1] == Next(run[|run| - 1], cfg, k, e)
  {
    hide Possible, Next;
    run', calls' := run + [Next(run[|run| - 1], cfg, k, e)], calls + [e];
  }

  /** `done` failures at time zero on record, `flying` more attempts allowed. */
  ghost predicate At(run: seq<Race>, calls: seq<Call>, cfg: Config, k: Key, c: nat, done: nat, flying: nat) {
    && IsRun(run, calls, cfg, k, c) && run[0] == Nobody
    && run[|run| - 1].log == Zeros(done) && run[|run| - 1].flying == flying && run[|run| - 1].now == 0
  }

  lemma AllowOne(run: seq<Race>, calls: seq<Call>, cfg: Config, k: Key, c: nat, done: nat, flying: nat)
      returns (run': seq<Race>, calls': seq<Call>)
    requires cfg.Valid() && cfg.lockout >= cfg.window && k.identifier != "" && done < cfg.Limit(k.kind) && flying < c
    requires At(run, calls, cfg, k, c, done, flying)
    ensures At(run', calls', cfg, k, c, done, flying + 1)
  {
    hide IsRun, Tells, Fits, Check, Counted, Starts;
    RunLength(run, calls, cfg, k, c);
    NobodyStarts(cfg, k);
    var r := run[|run| - 1];
    AlwaysFits(run, calls, cfg, k, c, |run| - 1);
    SeesLog(r, cfg, k);
    ZerosPass(r.s, cfg, k, done, 0);
    run', calls' := Go(run, calls, cfg, k, c, Checked(k, 0));
  }

  lemma RunLength(run: seq<Race>, calls: seq<Call>, cfg: Config, k: Key, c: nat)
    requires IsRun(run, calls, cfg, k, c)
    ensures |run| > 0
  {
  }

  lemma NobodyStarts(cfg: Config, k: Key)
    ensures Starts(Nobody, cfg, k)
  {
  }

  lemma FailOne(run: seq<Race>, calls: seq<Call>, cfg: Config, k: Key, c: nat, done: nat, flying: nat)
      returns (run': seq<Race>, calls': seq<Call>)
    requires k.identifier != "" && 0 < flying <= c && At(run, calls, cfg, k, c, done, flying)
    ensures At(run', calls', cfg, k, c, done + 1, flying - 1)
  {
    hide IsRun;
    RunLength(run, calls, cfg, k, c);
    run', calls' := Go(run, calls, cfg, k, c, Failed(k, 0));
    assert Zeros(done + 1) == Zeros(done) + [0];
  }

  /** One after another. */
  lemma {:induction false} OneByOne(cfg: Config, k: Key, c: nat, n: nat) returns (run: seq<Race>, calls: seq<Call>)
    requires cfg.Valid() && cfg.lockout >= cfg.window && k.identifier != "" && c >= 1 && n <= cfg.Limit(k.kind)
    ensures At(run, calls, cfg, k, c, n, 0)
  {
    if n == 0 {
      run, calls := [Nobody], [];
    } else {
      hide At;
      run, calls := OneByOne(cfg, k, c, n - 1);
      run, calls := AllowOne(run, calls, cfg, k, c, n - 1, 0);
      run, calls := FailOne(run, calls, cfg, k, c, n - 1, 1);
    }
  }

  /** All at once. */
  lemma {:induction false} Together(cfg: Config, k: Key, c: nat, n: nat) returns (run: seq<Race>, calls: seq<Call>)
    requires cfg.Valid() && cfg.lockout >= cfg.window && k.identifier != "" && c >= 1 && n <= c
    ensures At(run, calls, cfg, k, c, cfg.Limit(k.kind) - 1, n)
  {
    hide At;
    if n == 0 {
      run, calls := OneByOne(cfg, k, c, cfg.Limit(k.kind) - 1);
    } else {
      run, calls := Together(cfg, k, c, n - 1);
      run, calls := AllowOne(run, calls, cfg, k, c, cfg.Limit(k.kind) - 1, n - 1);
    }
  }

  lemma {:induction false} AllFail(cfg: Config, k: Key, c: nat, n: nat) returns (run: seq<Race>, calls: seq<Call>)
    requires cfg.Valid() && cfg.lockout >= cfg.window && k.identifier != "" && c >= 1 && n <= c
    ensures At(run, calls, cfg, k, c, cfg.Limit(k.kind) - 1 + n, c - n)
  {
    hide At;
    if n == 0 {
      run, calls := Together(cfg, k, c, c);
    } else {
      run, calls := AllFail(cfg, k, c, n - 1);
      run, calls := FailOne(run, calls, cfg, k, c, cfg.Limit(k.kind) - 1 + n - 1, c - n + 1);
    }
  }

  /** For every number of attempts in flight there is a run in which some window holds exactly that many failures. */
  lemma RaceBoundReached(cfg: Config, k: Key, c: nat) returns (run: seq<Race>, calls: seq<Call>)
    requires cfg.Valid() && cfg.lockout >= cfg.window && k.identifier != "" && c >= 1
    ensures IsRun(run, calls, cfg, k, c) && Starts(run[0], cfg, k)
    ensures InWindow(run[|calls|].log, cfg.window, 0) == cfg.Limit(k.kind) + c - 1
  {
    run, calls := AllFail(cfg, k, c, c);
    NobodyStarts(cfg, k);
    ZerosInWindow(cfg.Limit(k.kind) - 1 + c, cfg.window, 0);
  }
}
