/** The login throttle: a sliding-window limiter with an in-process cache in front of a table. */
module Throttle {

  datatype Kind = Account | Address

  /** Which counter: the cache key, and the pair of columns that select rows of the table. */
  datatype Key = Key(kind: Kind, identifier: string)

  /** One row of login_attempts. */
  datatype Row = Row(key: Key, at: int, failure: bool)

  datatype Config = Config(maxPerAccount: int, maxPerAddress: int, window: int, lockout: int) {
    predicate Valid() {
      maxPerAccount >= 1 && maxPerAddress >= maxPerAccount && window > 0 && lockout > 0
    }
    function Limit(kind: Kind): int {
      if kind == Address then maxPerAddress else maxPerAccount
    }
  }

  /** What a process runs with unless it is told otherwise. */
  const Default := Config(5, 30, 15 * 60, 15 * 60)

  datatype State = State(recent: map<Key, seq<int>>, table: seq<Row>)

  datatype Verdict = Allowed | Limited(retryAfter: int)

  // Times.

  /** The times strictly after `cut`, in order. */
  function After(ts: seq<int>, cut: int): seq<int> {
    if ts == [] then []
    else if ts[|ts| - 1] > cut then After(ts[..|ts| - 1], cut) + [ts[|ts| - 1]]
    else After(ts[..|ts| - 1], cut)
  }

  /** The earliest of some times (zero for none, as the program's zero time). */
  function Earliest(ts: seq<int>): int {
    if ts == [] then 0
    else if |ts| == 1 then ts[0]
    else var m := Earliest(ts[..|ts| - 1]); if ts[|ts| - 1] < m then ts[|ts| - 1] else m
  }

  /** When the failures that the table records for `k` happened. */
  function FailTimes(table: seq<Row>, k: Key): seq<int> {
    if table == [] then []
    else
      var row := table[|table| - 1];
      if row.key == k && row.failure then FailTimes(table[..|table| - 1], k) + [row.at]
      else FailTimes(table[..|table| - 1], k)
  }

  lemma {:induction false} AfterExactly(ts: seq<int>, cut: int)
    ensures forall t :: multiset(After(ts, cut))[t] == if t > cut then multiset(ts)[t] else 0
  {
    if ts != [] {
      var init, t := ts[..|ts| - 1], ts[|ts| - 1];
      assert ts == init + [t];
      AfterExactly(init, cut);
    }
  }

  lemma {:induction false} EarliestExactly(ts: seq<int>)
    requires ts != []
    ensures Earliest(ts) in ts && forall t :: t in ts ==> Earliest(ts) <= t
  {
    var init, t := ts[..|ts| - 1], ts[|ts| - 1];
    assert ts == init + [t];
    if init != [] { EarliestExactly(init); }
  }

  lemma AfterAdd(ts: seq<int>, t: int, cut: int)
    ensures After(ts + [t], cut) == if t > cut then After(ts, cut) + [t] else After(ts, cut)
  {
    assert (ts + [t])[..|ts|] == ts;
  }

  lemma EarliestAdd(ts: seq<int>, t: int)
    ensures Earliest(ts + [t]) == if ts == [] || t < Earliest(ts) then t else Earliest(ts)
  {
    assert (ts + [t])[..|ts|] == ts;
  }

  lemma {:induction false} AfterAfter(ts: seq<int>, cut: int, cut': int)
    requires cut <= cut'
    ensures After(After(ts, cut), cut') == After(ts, cut')
  {
    if ts != [] {
      var init, t := ts[..|ts| - 1], ts[|ts| - 1];
      AfterAfter(init, cut, cut');
      if t > cut { AfterAdd(After(init, cut), t, cut'); }
    }
  }

  /** Lists that agree on what is recent go on agreeing as the window moves on. */
  lemma AgreeLater(a: seq<int>, b: seq<int>, cut: int, cut': int)
    requires After(a, cut) == After(b, cut) && cut <= cut'
    ensures After(a, cut') == After(b, cut')
  {
    AfterAfter(a, cut, cut');
    AfterAfter(b, cut, cut');
  }

  lemma FailTimesAdd(table: seq<Row>, row: Row, k: Key)
    ensures FailTimes(table + [row], k) == if row.key == k && row.failure then FailTimes(table, k) + [row.at]
      else FailTimes(table, k)
  {
    assert (table + [row])[..|table|] == table;
  }

  // Operations.

  function Cached(s: State, k: Key): seq<int> {
    if k in s.recent then s.recent[k] else []
  }

  /** countFailures: the cache answers when it has anything in the window, the table otherwise. */
  function Counted(s: State, window: int, k: Key, now: int): seq<int> {
    var cached := After(Cached(s, k), now - window);
    if cached != [] then cached else After(FailTimes(s.table, k), now - window)
  }

  function Check(s: State, cfg: Config, k: Key, now: int): Verdict {
    if k.identifier == "" then Allowed
    else
      var found := Counted(s, cfg.window, k, now);
      var retry := Earliest(found) + cfg.lockout - now;
      if |found| < cfg.Limit(k.kind) || retry <= 0 then Allowed else Limited(retry)
  }

  function RecordFailure(s: State, k: Key, now: int): State {
    if k.identifier == "" then s
    else State(s.recent[k := Cached(s, k) + [now]], s.table + [Row(k, now, true)])
  }

  /** The rows left when the failures of `k` are deleted. */
  function Cleared(table: seq<Row>, k: Key): seq<Row> {
    if table == [] then []
    else
      var row := table[|table| - 1];
      if row.key == k && row.failure then Cleared(table[..|table| - 1], k)
      else Cleared(table[..|table| - 1], k) + [row]
  }

  function RecordSuccess(s: State, k: Key, now: int): State {
    if k.identifier == "" then s
    else State(s.recent - {k}, Cleared(s.table, k) + [Row(k, now, false)])
  }

  /** The rows left when those before `cut` are deleted. */
  function NotBefore(table: seq<Row>, cut: int): seq<Row> {
    if table == [] then []
    else if table[|table| - 1].at < cut then NotBefore(table[..|table| - 1], cut)
    else NotBefore(table[..|table| - 1], cut) + [table[|table| - 1]]
  }

  function Purge(s: State, retain: int, now: int): State {
    State(map k | k in s.recent && After(s.recent[k], now - retain) != [] :: After(s.recent[k], now - retain),
          NotBefore(s.table, now - retain))
  }

  /** A success deletes the failures of its own key, and no other row. */
  lemma {:induction false} ClearedExactly(table: seq<Row>, k: Key)
    ensures forall r :: multiset(Cleared(table, k))[r] == if r.key == k && r.failure then 0 else multiset(table)[r]
  {
    if table != [] {
      var init, row := table[..|table| - 1], table[|table| - 1];
      assert table == init + [row];
      ClearedExactly(init, k);
    }
  }

  /** A purge deletes the rows before its cut-off, of either outcome, and no other. */
  lemma {:induction false} NotBeforeExactly(table: seq<Row>, cut: int)
    ensures forall r :: multiset(NotBefore(table, cut))[r] == if r.at < cut then 0 else multiset(table)[r]
  {
    if table != [] {
      var init, row := table[..|table| - 1], table[|table| - 1];
      assert table == init + [row];
      NotBeforeExactly(init, cut);
    }
  }

  lemma {:induction false} ClearedTimes(table: seq<Row>, k: Key, j: Key)
    ensures FailTimes(Cleared(table, k), j) == if j == k then [] else FailTimes(table, j)
  {
    if table != [] {
      var init, row := table[..|table| - 1], table[|table| - 1];
      ClearedTimes(init, k, j);
      if !(row.key == k && row.failure) { FailTimesAdd(Cleared(init, k), row, j); }
    }
  }

  lemma {:induction false} NotBeforeTimes(table: seq<Row>, cut: int, cut': int, k: Key)
    requires cut <= cut'
    ensures After(FailTimes(NotBefore(table, cut), k), cut') == After(FailTimes(table, k), cut')
  {
    if table != [] {
      var init, row := table[..|table| - 1], table[|table| - 1];
      NotBeforeTimes(init, cut, cut', k);
      if row.at >= cut { FailTimesAdd(NotBefore(init, cut), row, k); }
      if row.key == k && row.failure {
        AfterAdd(FailTimes(init, k), row.at, cut');
        AfterAdd(FailTimes(NotBefore(init, cut), k), row.at, cut');
      }
    }
  }

  // Runs.

  /**
   What happens to the throttle: an attempt (a check, and if it passes a failure recorded at
   `until`), a success, or a purge.
   */
  datatype Event =
    | Attempt(key: Key, at: int, until: int)
    | Success(key: Key, at: int)
    | Purged(retain: int, at: int)
  {
    function End(): int { if Attempt? then until else at }
  }

  function Apply(s: State, cfg: Config, e: Event): State {
    match e
    case Attempt(k, at, until) => if Check(s, cfg, k, at) == Allowed then RecordFailure(s, k, until) else s
    case Success(k, at) => RecordSuccess(s, k, at)
    case Purged(retain, at) => Purge(s, retain, at)
  }

  function Run(s: State, cfg: Config, events: seq<Event>): State {
    if events == [] then s
    else Apply(Run(s, cfg, events[..|events| - 1]), cfg, events[|events| - 1])
  }

  function EndOf(start: int, events: seq<Event>): int {
    if events == [] then start else events[|events| - 1].End()
  }

  /** The clock never runs back, and a purge keeps at least the window. */
  ghost predicate Proper(cfg: Config, start: int, events: seq<Event>) {
    forall i :: 0 <= i < |events| ==>
      && EndOf(start, events[..i]) <= events[i].at <= events[i].End()
      && (events[i].Purged? ==> events[i].retain >= cfg.window)
  }

  function LogNext(s: State, cfg: Config, e: Event, log: seq<int>, k: Key): seq<int> {
    match e
    case Attempt(j, at, until) =>
      if j == k && k.identifier != "" && Check(s, cfg, k, at) == Allowed then log + [until] else log
    case Success(j, _) => if j == k && k.identifier != "" then [] else log
    case Purged(_, _) => log
  }

  /** The failures recorded for `k` since its last success. */
  function Log(s: State, cfg: Config, events: seq<Event>, k: Key): seq<int> {
    if events == [] then []
    else
      var init := events[..|events| - 1];
      LogNext(Run(s, cfg, init), cfg, events[|events| - 1], Log(s, cfg, init, k), k)
  }

  /** Cache and table tell the same story about `k`, as far back as the window at `now` reaches. */
  ghost predicate Agree(s: State, cfg: Config, k: Key, now: int) {
    After(Cached(s, k), now - cfg.window) == After(FailTimes(s.table, k), now - cfg.window)
  }

  lemma AgreeMovesOn(s: State, cfg: Config, k: Key, now: int, later: int)
    requires Agree(s, cfg, k, now) && now <= later
    ensures Agree(s, cfg, k, later)
  {
    AgreeLater(Cached(s, k), FailTimes(s.table, k), now - cfg.window, later - cfg.window);
  }

  lemma FailureAgrees(s: State, cfg: Config, j: Key, k: Key, now: int)
    requires Agree(s, cfg, k, now)
    ensures Agree(RecordFailure(s, j, now), cfg, k, now)
  {
    hide After, FailTimes;
    FailTimesAdd(s.table, Row(j, now, true), k);
    AfterAdd(Cached(s, k), now, now - cfg.window);
    AfterAdd(FailTimes(s.table, k), now, now - cfg.window);
  }

  lemma SuccessAgrees(s: State, cfg: Config, j: Key, k: Key, now: int)
    requires Agree(s, cfg, k, now)
    ensures Agree(RecordSuccess(s, j, now), cfg, k, now)
  {
    hide After, FailTimes, Cleared;
    ClearedTimes(s.table, j, k);
    FailTimesAdd(Cleared(s.table, j), Row(j, now, false), k);
  }

  lemma {:induction false} AfterEarlier(ts: seq<int>, cut: int, cut': int)
    requires cut' <= cut
    ensures After(After(ts, cut), cut') == After(ts, cut)
  {
    if ts != [] {
      var init, t := ts[..|ts| - 1], ts[|ts| - 1];
      AfterEarlier(init, cut, cut');
      if t > cut { AfterAdd(After(init, cut), t, cut'); }
    }
  }

  /** What the table keeps in a purge includes the failures at the very cut-off. */
  lemma {:induction false} KeptTimes(table: seq<Row>, cut: int, k: Key)
    ensures FailTimes(NotBefore(table, cut), k) == After(FailTimes(table, k), cut - 1)
  {
    if table != [] {
      var init, row := table[..|table| - 1], table[|table| - 1];
      KeptTimes(init, cut, k);
      if row.at >= cut { FailTimesAdd(NotBefore(init, cut), row, k); }
      if row.key == k && row.failure { AfterAdd(FailTimes(init, k), row.at, cut - 1); }
    }
  }

  lemma {:induction false} TieAtCut(ts: seq<int>, cut: int)
    ensures if cut in ts then |After(ts, cut)| < |After(ts, cut - 1)| else After(ts, cut) == After(ts, cut - 1)
  {
    if ts != [] {
      var init, t := ts[..|ts| - 1], ts[|ts| - 1];
      TieAtCut(init, cut);
      assert cut in ts <==> cut in init || cut == t;
    }
  }

  /**
   A purge keeps cache and table in agreement exactly when it keeps the whole window or no failure
   happened at its very cut-off: the cache drops such a failure, the table keeps it.
   */
  lemma PurgeAgreesIff(s: State, cfg: Config, retain: int, k: Key, now: int)
    requires Agree(s, cfg, k, now)
    ensures Agree(Purge(s, retain, now), cfg, k, now)
      <==> retain >= cfg.window || now - retain !in FailTimes(s.table, k)
  {
    hide After, FailTimes, NotBefore;
    var times, cut, open := FailTimes(s.table, k), now - retain, now - cfg.window;
    PurgedCache(s, retain, k, now);
    if retain >= cfg.window {
      NotBeforeTimes(s.table, cut, open, k);
      AfterAfter(Cached(s, k), cut, open);
    } else {
      AgreeLater(Cached(s, k), times, open, cut);
      AfterEarlier(Cached(s, k), cut, open);
      KeptTimes(s.table, cut, k);
      AfterEarlier(times, cut - 1, open);
      TieAtCut(times, cut);
    }
  }

  lemma PurgedCache(s: State, retain: int, k: Key, now: int)
    ensures Cached(Purge(s, retain, now), k) == After(Cached(s, k), now - retain)
  {
  }

  lemma AgreeKept(s: State, cfg: Config, e: Event, k: Key, now: int)
    requires Agree(s, cfg, k, now) && now <= e.at <= e.End() && (e.Purged? ==> e.retain >= cfg.window)
    ensures Agree(Apply(s, cfg, e), cfg, k, e.End())
  {
    hide Agree, Purge, RecordFailure, RecordSuccess, Check;
    AgreeMovesOn(s, cfg, k, now, e.End());
    match e {
      case Attempt(j, _, until) => FailureAgrees(s, cfg, j, k, until);
      case Success(j, at) => SuccessAgrees(s, cfg, j, k, at);
      case Purged(retain, at) => PurgeAgreesIff(s, cfg, retain, k, at);
    }
  }

  lemma ProperPrefix(cfg: Config, start: int, events: seq<Event>)
    requires Proper(cfg, start, events) && events != []
    ensures var init, e := events[..|events| - 1], events[|events| - 1];
            && Proper(cfg, start, init) && EndOf(start, init) <= e.at <= e.End()
            && (e.Purged? ==> e.retain >= cfg.window)
  {
    var init := events[..|events| - 1];
    assert forall i :: 0 <= i < |init| ==> init[..i] == events[..i];
  }

  /**
   The cache refines the table. A process starts with an empty cache; if no failure of `k`
   was then in the window, the cached count and oldest time are the table's ever after.
   */
  lemma {:induction false} CacheAgrees(table: seq<Row>, cfg: Config, start: int, events: seq<Event>, k: Key, now: int)
    requires Proper(cfg, start, events) && EndOf(start, events) <= now
    requires After(FailTimes(table, k), start - cfg.window) == []
    ensures var s := Run(State(map[], table), cfg, events);
            Agree(s, cfg, k, now) && Counted(s, cfg.window, k, now) == After(FailTimes(s.table, k), now - cfg.window)
  {
    hide Proper, Apply, FailTimes;
    var s := State(map[], table);
    if events != [] {
      hide After;
      var init := events[..|events| - 1];
      ProperPrefix(cfg, start, events);
      CacheAgrees(table, cfg, start, init, k, EndOf(start, init));
      AgreeKept(Run(s, cfg, init), cfg, events[|events| - 1], k, EndOf(start, init));
    }
    AgreeMovesOn(Run(s, cfg, events), cfg, k, EndOf(start, events), now);
  }

  /** And that condition is needed: otherwise the first failure recorded hides the earlier ones. */
  lemma StaleStart(table: seq<Row>, cfg: Config, k: Key, now: int)
    requires cfg.Valid() && k.identifier != ""
    ensures var s := RecordFailure(State(map[], table), k, now);
            Counted(s, cfg.window, k, now) == After(FailTimes(s.table, k), now - cfg.window)
            <==> After(FailTimes(table, k), now - cfg.window) == []
  {
    FailTimesAdd(table, Row(k, now, true), k);
    AfterAdd(FailTimes(table, k), now, now - cfg.window);
    AfterAdd([], now, now - cfg.window);
    assert [] + [now] == [now];
  }

  /** One failure on record before the restart and one after: the cache counts one, the table two. */
  lemma StaleRestart(cfg: Config, k: Key)
    requires cfg.Valid() && k.identifier != ""
    ensures var s := RecordFailure(State(map[], [Row(k, 0, true)]), k, 0);
            Counted(s, cfg.window, k, 0) != After(FailTimes(s.table, k), 0 - cfg.window)
  {
    hide Counted, RecordFailure;
    var table := [Row(k, 0, true)];
    StaleStart(table, cfg, k, 0);
    FailTimesAdd([], Row(k, 0, true), k);
    assert [] + [Row(k, 0, true)] == table;
    AfterAdd([], 0, 0 - cfg.window);
    assert [] + [0] == [0];
  }

  lemma TwoFailures(k: Key)
    requires k.identifier != ""
    ensures var s := RecordFailure(RecordFailure(State(map[], []), k, 0), k, 1);
            Cached(s, k) == [0, 1] && FailTimes(s.table, k) == [0, 1]
  {
    var a, b := Row(k, 0, true), Row(k, 1, true);
    FailTimesAdd([], a, k);
    FailTimesAdd([a], b, k);
    assert [] + [a] == [a] && [a] + [b] == [a, b] && [] + [0] == [0] && [0] + [1] == [0, 1];
  }

  /** A run in which that happens, for every retention shorter than the window. */
  lemma ShortPurge(cfg: Config, k: Key, retain: int)
    requires cfg.Valid() && k.identifier != "" && 1 <= retain < cfg.window
    ensures var s := RecordFailure(RecordFailure(State(map[], []), k, 0), k, 1);
            Agree(s, cfg, k, retain) && !Agree(Purge(s, retain, retain), cfg, k, retain)
  {
    hide NotBefore, RecordFailure, Purge;
    var s := RecordFailure(RecordFailure(State(map[], []), k, 0), k, 1);
    TwoFailures(k);
    PurgeAgreesIff(s, cfg, retain, k, retain);
    assert retain - retain == [0, 1][0];
  }

  // The rate.

  /** The recorded times in the window that ends at `x`. */
  function InWindow(ts: seq<int>, window: int, x: int): nat {
    if ts == [] then 0
    else InWindow(ts[..|ts| - 1], window, x) + if x - window < ts[|ts| - 1] <= x then 1 else 0
  }

  ghost predicate Bounded(ts: seq<int>, window: int, limit: int) {
    forall x :: InWindow(ts, window, x) <= limit
  }

  lemma InWindowAdd(ts: seq<int>, t: int, window: int, x: int)
    ensures InWindow(ts + [t], window, x) == InWindow(ts, window, x) + if x - window < t <= x then 1 else 0
  {
    assert (ts + [t])[..|ts|] == ts;
  }

  /** A later window holds no more of what has happened than is recent now. */
  lemma {:induction false} InWindowAfter(ts: seq<int>, window: int, x: int, cut: int)
    requires cut <= x - window
    ensures InWindow(ts, window, x) <= |After(ts, cut)|
  {
    if ts != [] { InWindowAfter(ts[..|ts| - 1], window, x, cut); }
  }

  /** With a lockout no shorter than the window, only a count below the limit passes. */
  lemma PassingMeansFew(s: State, cfg: Config, k: Key, now: int)
    requires cfg.Valid() && cfg.lockout >= cfg.window && k.identifier != "" && Check(s, cfg, k, now) == Allowed
    ensures |Counted(s, cfg.window, k, now)| < cfg.Limit(k.kind)
  {
    var found := Counted(s, cfg.window, k, now);
    if found != [] {
      AfterOnly(Cached(s, k), now - cfg.window);
      AfterOnly(FailTimes(s.table, k), now - cfg.window);
      EarliestExactly(found);
    }
  }

  lemma AfterOnly(ts: seq<int>, cut: int)
    ensures forall t :: t in After(ts, cut) ==> t > cut
  {
    AfterExactly(ts, cut);
    assert forall t :: t in After(ts, cut) ==> multiset(After(ts, cut))[t] > 0;
  }

  lemma LogNextAgrees(s: State, cfg: Config, e: Event, log: seq<int>, k: Key, cut: int)
    requires After(log, cut) == After(FailTimes(s.table, k), cut)
    requires e.Purged? ==> e.at - e.retain <= cut
    ensures After(LogNext(s, cfg, e, log, k), cut) == After(FailTimes(Apply(s, cfg, e).table, k), cut)
  {
    hide After, FailTimes, Cleared, Check;
    match e {
      case Attempt(j, at, until) =>
        FailTimesAdd(s.table, Row(j, until, true), k);
        AfterAdd(FailTimes(s.table, k), until, cut);
        AfterAdd(log, until, cut);
      case Success(j, at) =>
        ClearedTimes(s.table, j, k);
        FailTimesAdd(Cleared(s.table, j), Row(j, at, false), k);
      case Purged(retain, at) =>
        NotBeforeTimes(s.table, at - retain, cut, k);
    }
  }

  /** What is recent in the table is what is recent among the failures since the last success. */
  lemma {:induction false} LogAgrees(table: seq<Row>, cfg: Config, start: int, events: seq<Event>, k: Key, now: int)
    requires Proper(cfg, start, events) && EndOf(start, events) <= now
    requires After(FailTimes(table, k), start - cfg.window) == []
    ensures After(Log(State(map[], table), cfg, events, k), now - cfg.window)
            == After(FailTimes(Run(State(map[], table), cfg, events).table, k), now - cfg.window)
  {
    hide Proper, FailTimes, Apply, LogNext;
    var s0 := State(map[], table);
    if events == [] {
      AgreeLater([], FailTimes(table, k), start - cfg.window, now - cfg.window);
    } else {
      hide After;
      var init, e := events[..|events| - 1], events[|events| - 1];
      ProperPrefix(cfg, start, events);
      LogAgrees(table, cfg, start, init, k, now);
      LogNextAgrees(Run(s0, cfg, init), cfg, e, Log(s0, cfg, init, k), k, now - cfg.window);
    }
  }

  /** So a check sees exactly the failures since the last success that are in the window. */
  lemma CheckSeesLog(table: seq<Row>, cfg: Config, start: int, events: seq<Event>, k: Key, now: int)
    requires Proper(cfg, start, events) && EndOf(start, events) <= now
    requires After(FailTimes(table, k), start - cfg.window) == []
    ensures Counted(Run(State(map[], table), cfg, events), cfg.window, k, now)
            == After(Log(State(map[], table), cfg, events, k), now - cfg.window)
  {
    CacheAgrees(table, cfg, start, events, k, now);
    LogAgrees(table, cfg, start, events, k, now);
  }

  /**
   The verdict: an account is refused when as many failures as its limit are in the window and the lockout
   that runs from the oldest of them is not over; an address in the same way, by the limit for addresses. The
   wait is what is left of that lockout.
   */
  lemma VerdictExactly(table: seq<Row>, cfg: Config, start: int, events: seq<Event>, k: Key, now: int)
    requires Proper(cfg, start, events) && EndOf(start, events) <= now
    requires After(FailTimes(table, k), start - cfg.window) == []
    ensures var recent := After(Log(State(map[], table), cfg, events, k), now - cfg.window);
            var verdict := Check(Run(State(map[], table), cfg, events), cfg, k, now);
            && (k.kind == Account ==>
                  (verdict.Limited? <==>
                     k.identifier != "" && |recent| >= cfg.maxPerAccount && Earliest(recent) + cfg.lockout > now))
            && (k.kind == Address ==>
                  (verdict.Limited? <==>
                     k.identifier != "" && |recent| >= cfg.maxPerAddress && Earliest(recent) + cfg.lockout > now))
            && (verdict.Limited? ==> verdict.retryAfter == Earliest(recent) + cfg.lockout - now)
  {
    hide Proper, Log, Run, After, FailTimes, Earliest, Counted;
    CheckSeesLog(table, cfg, start, events, k, now);
  }

  lemma CacheNext(s: State, cfg: Config, e: Event, log: seq<int>, k: Key, cut: int)
    requires After(Cached(s, k), cut) == After(log, cut) && k.identifier != ""
    requires e.Purged? ==> e.at - e.retain <= cut
    ensures After(Cached(Apply(s, cfg, e), k), cut) == After(LogNext(s, cfg, e, log, k), cut)
  {
    hide After, Check;
    match e {
      case Attempt(j, at, until) =>
        AfterAdd(Cached(s, k), until, cut);
        AfterAdd(log, until, cut);
      case Success(j, at) =>
      case Purged(retain, at) =>
        PurgedCache(s, retain, k, at);
        AfterAfter(Cached(s, k), at - retain, cut);
    }
  }

  /** Whatever was on record at the start, the cache holds what has been recorded since, as far back as the window. */
  lemma {:induction false} CacheTellsLog(table: seq<Row>, cfg: Config, start: int, events: seq<Event>, k: Key, now: int)
    requires Proper(cfg, start, events) && EndOf(start, events) <= now && k.identifier != ""
    ensures After(Cached(Run(State(map[], table), cfg, events), k), now - cfg.window)
            == After(Log(State(map[], table), cfg, events, k), now - cfg.window)
  {
    hide Proper, Apply, LogNext;
    if events != [] {
      hide After;
      var init, e := events[..|events| - 1], events[|events| - 1];
      ProperPrefix(cfg, start, events);
      CacheTellsLog(table, cfg, start, init, k, now);
      CacheNext(Run(State(map[], table), cfg, init), cfg, e, Log(State(map[], table), cfg, init, k), k,
          now - cfg.window);
    }
  }

  /** So a check that passes has seen fewer new failures than the limit. */
  lemma PassingSeesNew(table: seq<Row>, cfg: Config, start: int, events: seq<Event>, k: Key, now: int)
    requires cfg.Valid() && cfg.lockout >= cfg.window && Proper(cfg, start, events) && EndOf(start, events) <= now
      && k.identifier != ""
    requires Check(Run(State(map[], table), cfg, events), cfg, k, now) == Allowed
    ensures |After(Log(State(map[], table), cfg, events, k), now - cfg.window)| < cfg.Limit(k.kind)
  {
    hide Proper, Run, Log, After, Check;
    CacheTellsLog(table, cfg, start, events, k, now);
    PassingMeansFew(Run(State(map[], table), cfg, events), cfg, k, now);
  }

  /**
   The rate bound. With a lockout no shorter than the window, and failures recorded only after
   a passing check, no window holds more than the limit of failures since the process started and since
   the last success, whatever was on record at the start.
   */
  lemma {:induction false} RateBound(table: seq<Row>, cfg: Config, start: int, events: seq<Event>, k: Key)
    requires cfg.Valid() && cfg.lockout >= cfg.window && Proper(cfg, start, events)
    ensures Bounded(Log(State(map[], table), cfg, events, k), cfg.window, cfg.Limit(k.kind))
  {
    hide Proper, FailTimes, After, Check, Run;
    var s0 := State(map[], table);
    if events != [] {
      var init, e := events[..|events| - 1], events[|events| - 1];
      ProperPrefix(cfg, start, events);
      RateBound(table, cfg, start, init, k);
      var log := Log(s0, cfg, init, k);
      if e.Attempt? && e.key == k && k.identifier != "" && Check(Run(s0, cfg, init), cfg, k, e.at) == Allowed {
        PassingSeesNew(table, cfg, start, init, k, e.at);
        forall x ensures InWindow(log + [e.until], cfg.window, x) <= cfg.Limit(k.kind) {
          InWindowAdd(log, e.until, cfg.window, x);
          if x >= e.until { InWindowAfter(log, cfg.window, x, e.at - cfg.window); }
        }
      }
    }
  }

  // The wait.

  ghost predicate UpTo(ts: seq<int>, now: int) { forall i :: 0 <= i < |ts| ==> ts[i] <= now }

  lemma {:induction false} AllInWindow(ts: seq<int>, window: int, now: int)
    requires UpTo(ts, now)
    ensures InWindow(ts, window, now) == |After(ts, now - window)|
  {
    if ts != [] {
      AllInWindow(ts[..|ts| - 1], window, now);
    }
  }

  lemma {:induction false} LogPast(table: seq<Row>, cfg: Config, start: int, events: seq<Event>, k: Key)
    requires Proper(cfg, start, events)
    ensures UpTo(Log(State(map[], table), cfg, events, k), EndOf(start, events))
  {
    hide Proper, Run, Check;
    if events != [] {
      ProperPrefix(cfg, start, events);
      var init := events[..|events| - 1];
      LogPast(table, cfg, start, init, k);
    }
  }

  lemma {:induction false} SameOrFewer(ts: seq<int>, cut: int)
    ensures |After(ts, cut)| <= |ts| && (|After(ts, cut)| == |ts| ==> After(ts, cut) == ts)
  {
    if ts != [] { SameOrFewer(ts[..|ts| - 1], cut); }
  }

  /**
   Whoever is told to wait is never told later to wait longer: with a lockout no shorter than the window, a later
   check passes or asks for exactly what is left of the same wait.
   */
  lemma WaitOnlyShortens(table: seq<Row>, cfg: Config, start: int, events: seq<Event>, k: Key, now: int, later: int)
    requires cfg.Valid() && cfg.lockout >= cfg.window && Proper(cfg, start, events)
    requires EndOf(start, events) <= now <= later && After(FailTimes(table, k), start - cfg.window) == []
    requires Check(Run(State(map[], table), cfg, events), cfg, k, now).Limited?
    ensures var s := Run(State(map[], table), cfg, events);
            Check(s, cfg, k, later) == Allowed
            || Check(s, cfg, k, later) == Limited(Check(s, cfg, k, now).retryAfter - (later - now))
  {
    hide Proper, Log, Run, After, FailTimes, Earliest, Counted, InWindow;
    var log := Log(State(map[], table), cfg, events, k);
    CheckSeesLog(table, cfg, start, events, k, now);
    CheckSeesLog(table, cfg, start, events, k, later);
    RateBound(table, cfg, start, events, k);
    LogPast(table, cfg, start, events, k);
    AllInWindow(log, cfg.window, now);
    AfterAfter(log, now - cfg.window, later - cfg.window);
    SameOrFewer(After(log, now - cfg.window), later - cfg.window);
  }

  /** And going on trying while locked out changes nothing. */
  lemma {:induction false} RefusedInVain(s: State, cfg: Config, k: Key, events: seq<Event>)
    requires forall i :: 0 <= i < |events| ==>
               events[i].Attempt? && events[i].key == k && Check(s, cfg, k, events[i].at).Limited?
    ensures Run(s, cfg, events) == s
  {
    if events != [] { RefusedInVain(s, cfg, k, events[..|events| - 1]); }
  }

  lemma {:induction false} InWindowAppend(a: seq<int>, b: seq<int>, window: int, x: int)
    ensures InWindow(a + b, window, x) == InWindow(a, window, x) + InWindow(b, window, x)
    ensures InWindow(a, window, x) <= |a|
  {
    if b == [] {
      assert a + b == a;
      if a != [] { InWindowAppend(a[..|a| - 1], [], window, x); assert a[..|a| - 1] + [] == a[..|a| - 1]; }
    } else {
      var n := |b| - 1;
      InWindowAppend(a, b[..n], window, x);
      assert a + b == (a + b[..n]) + [b[n]];
      InWindowAdd(a + b[..n], b[n], window, x);
    }
  }

  /**
   Across a restart: with the failures that were in the window when the process started, no window holds
   more than their number and the limit together.
   */
  lemma RestartBound(table: seq<Row>, cfg: Config, start: int, events: seq<Event>, k: Key)
    requires cfg.Valid() && cfg.lockout >= cfg.window && Proper(cfg, start, events)
    ensures var before := After(FailTimes(table, k), start - cfg.window);
            Bounded(before + Log(State(map[], table), cfg, events, k), cfg.window, |before| + cfg.Limit(k.kind))
  {
    hide Proper, FailTimes, After, InWindow, Log;
    var before, log := After(FailTimes(table, k), start - cfg.window), Log(State(map[], table), cfg, events, k);
    RateBound(table, cfg, start, events, k);
    forall x ensures InWindow(before + log, cfg.window, x) <= |before| + cfg.Limit(k.kind) {
      InWindowAppend(before, log, cfg.window, x);
    }
  }

  // The bound needs that lockout.

  function Zeros(n: nat): seq<int> { if n == 0 then [] else Zeros(n - 1) + [0] }

  function Burst(k: Key, n: nat): seq<Event> { if n == 0 then [] else Burst(k, n - 1) + [Attempt(k, 0, 0)] }

  lemma {:induction false} ZerosAfter(n: nat, cut: int)
    requires cut < 0
    ensures |Zeros(n)| == n && After(Zeros(n), cut) == Zeros(n)
    ensures n > 0 ==> Earliest(Zeros(n)) == 0
  {
    hide After, Earliest;
    if n > 0 {
      ZerosAfter(n - 1, cut);
      AfterAdd(Zeros(n - 1), 0, cut);
      EarliestAdd(Zeros(n - 1), 0);
    } else {
      AfterNone(cut);
    }
  }

  lemma {:induction false} ZerosInWindow(n: nat, window: int, x: int)
    requires x - window < 0 <= x
    ensures InWindow(Zeros(n), window, x) == n
  {
    if n > 0 {
      ZerosInWindow(n - 1, window, x);
      InWindowAdd(Zeros(n - 1), 0, window, x);
    }
  }

  lemma ProperAdd(cfg: Config, start: int, events: seq<Event>, e: Event)
    requires Proper(cfg, start, events) && EndOf(start, events) <= e.at <= e.End()
      && (e.Purged? ==> e.retain >= cfg.window)
    ensures Proper(cfg, start, events + [e]) && EndOf(start, events + [e]) == e.End()
  {
    var all := events + [e];
    assert forall i :: 0 <= i < |events| ==> all[..i] == events[..i] && all[i] == events[i];
    assert all[..|events|] == events;
  }

  lemma LogAdd(s: State, cfg: Config, events: seq<Event>, k: Key, at: int)
    requires k.identifier != "" && Check(Run(s, cfg, events), cfg, k, at) == Allowed
    ensures Log(s, cfg, events + [Attempt(k, at, at)], k) == Log(s, cfg, events, k) + [at]
  {
    assert (events + [Attempt(k, at, at)])[..|events|] == events;
  }

  /** While the recent failures are zeros, a check at a time the lockout has reached passes. */
  lemma ZerosPass(s: State, cfg: Config, k: Key, n: nat, now: int)
    requires cfg.Valid() && 0 <= now < cfg.window && Counted(s, cfg.window, k, now) == After(Zeros(n), now - cfg.window)
    requires n < cfg.Limit(k.kind) || now >= cfg.lockout
    ensures Check(s, cfg, k, now) == Allowed
  {
    hide Counted, After, Zeros, Earliest;
    ZerosAfter(n, now - cfg.window);
  }

  lemma {:induction false} BurstPasses(cfg: Config, k: Key, n: nat)
    requires cfg.Valid() && k.identifier != "" && n <= cfg.Limit(k.kind)
    ensures Proper(cfg, 0, Burst(k, n)) && EndOf(0, Burst(k, n)) == 0
    ensures Log(State(map[], []), cfg, Burst(k, n), k) == Zeros(n)
  {
    hide Proper, Log, Run, Check, Counted;
    if n == 0 {
      assert Proper(cfg, 0, []) by { ProperNone(cfg); }
      assert Log(State(map[], []), cfg, [], k) == [] by { LogNone(cfg, k); }
    } else {
      BurstPasses(cfg, k, n - 1);
      CheckSeesLog([], cfg, 0, Burst(k, n - 1), k, 0);
      ZerosPass(Run(State(map[], []), cfg, Burst(k, n - 1)), cfg, k, n - 1, 0);
      LogAdd(State(map[], []), cfg, Burst(k, n - 1), k, 0);
      ProperAdd(cfg, 0, Burst(k, n - 1), Attempt(k, 0, 0));
    }
  }

  lemma ProperNone(cfg: Config)
    ensures Proper(cfg, 0, [])
  {
  }

  lemma LogNone(cfg: Config, k: Key)
    ensures Log(State(map[], []), cfg, [], k) == []
  {
  }

  /** A lockout shorter than the window lets one failure too many through. */
  lemma BoundBroken(cfg: Config, k: Key) returns (events: seq<Event>)
    requires cfg.Valid() && k.identifier != "" && cfg.lockout < cfg.window
    ensures Proper(cfg, 0, events)
    ensures !Bounded(Log(State(map[], []), cfg, events, k), cfg.window, cfg.Limit(k.kind))
  {
    hide Proper, Log, Run, Check, Counted;
    var limit, at := cfg.Limit(k.kind), cfg.lockout;
    var burst := Burst(k, limit);
    BurstPasses(cfg, k, limit);
    CheckSeesLog([], cfg, 0, burst, k, at);
    ZerosPass(Run(State(map[], []), cfg, burst), cfg, k, limit, at);
    LogAdd(State(map[], []), cfg, burst, k, at);
    ProperAdd(cfg, 0, burst, Attempt(k, at, at));
    events := burst + [Attempt(k, at, at)];
    ZerosInWindow(limit, cfg.window, at);
    InWindowAdd(Zeros(limit), at, cfg.window, at);
    assert InWindow(Log(State(map[], []), cfg, events, k), cfg.window, at) == limit + 1;
  }

  /**
   With the limits a process starts with, the fifth failure locks an account and the thirtieth an address,
   for what is left of a quarter of an hour, and none before.
   */
  lemma DefaultLocks(k: Key, n: nat, now: int)
    requires k.identifier != "" && 0 <= now < 900 && n <= if k.kind == Address then 30 else 5
    ensures Proper(Default, 0, Burst(k, n)) && Log(State(map[], []), Default, Burst(k, n), k) == Zeros(n)
    ensures Check(Run(State(map[], []), Default, Burst(k, n)), Default, k, now)
            == if n == (if k.kind == Address then 30 else 5) then Limited(900 - now) else Allowed
  {
    hide Proper, Log, Run, Counted, After, FailTimes, Burst, Earliest;
    BurstPasses(Default, k, n);
    assert After(FailTimes([], k), 0 - Default.window) == [] by { NoTimes(k, 0 - Default.window); }
    CheckSeesLog([], Default, 0, Burst(k, n), k, now);
    ZerosAfter(n, now - Default.window);
  }

  lemma NoTimes(k: Key, cut: int)
    ensures After(FailTimes([], k), cut) == []
  {
  }

  /** As many failures of `k` at time zero. */
  function ZeroRows(k: Key, n: nat): seq<Row> { if n == 0 then [] else ZeroRows(k, n - 1) + [Row(k, 0, true)] }

  lemma {:induction false} ZeroTimes(k: Key, n: nat)
    ensures FailTimes(ZeroRows(k, n), k) == Zeros(n)
  {
    if n > 0 {
      ZeroTimes(k, n - 1);
      FailTimesAdd(ZeroRows(k, n - 1), Row(k, 0, true), k);
    }
  }

  lemma FirstLook(cfg: Config, k: Key, m: nat)
    requires cfg.Valid()
    ensures Counted(Run(State(map[], ZeroRows(k, m)), cfg, []), cfg.window, k, 0) == After(Zeros(m), 0 - cfg.window)
  {
    hide After, FailTimes, Zeros;
    ZeroTimes(k, m);
    assert After([], 0 - cfg.window) == [] by { AfterNone(0 - cfg.window); }
  }

  lemma AfterNone(cut: int)
    ensures After([], cut) == []
  {
  }

  /** What a later look counts, once the cache has something. */
  lemma NextLook(table: seq<Row>, cfg: Config, events: seq<Event>, k: Key, n: nat)
    requires cfg.Valid() && k.identifier != "" && Proper(cfg, 0, events) && EndOf(0, events) == 0 && n > 0
    requires Log(State(map[], table), cfg, events, k) == Zeros(n)
    ensures Counted(Run(State(map[], table), cfg, events), cfg.window, k, 0) == After(Zeros(n), 0 - cfg.window)
  {
    hide Proper, After, Run, Log, Zeros;
    CacheTellsLog(table, cfg, 0, events, k, 0);
    ZerosAfter(n, 0 - cfg.window);
  }

  lemma {:induction false} BurstAfterRestart(cfg: Config, k: Key, m: nat, n: nat)
    requires cfg.Valid() && k.identifier != "" && n <= cfg.Limit(k.kind) && m < cfg.Limit(k.kind)
    ensures Proper(cfg, 0, Burst(k, n)) && EndOf(0, Burst(k, n)) == 0
    ensures Log(State(map[], ZeroRows(k, m)), cfg, Burst(k, n), k) == Zeros(n)
  {
    hide Proper, Log, Run, Check, Counted, ZeroRows;
    var s := State(map[], ZeroRows(k, m));
    if n == 0 {
      assert Proper(cfg, 0, []) by { ProperNone(cfg); }
      assert Log(s, cfg, [], k) == [] by { LogStarts(s, cfg, k); }
    } else {
      BurstAfterRestart(cfg, k, m, n - 1);
      if n == 1 {
        FirstLook(cfg, k, m);
        ZerosPass(Run(s, cfg, []), cfg, k, m, 0);
      } else {
        NextLook(s.table, cfg, Burst(k, n - 1), k, n - 1);
        ZerosPass(Run(s, cfg, Burst(k, n - 1)), cfg, k, n - 1, 0);
      }
      LogAdd(s, cfg, Burst(k, n - 1), k, 0);
      ProperAdd(cfg, 0, Burst(k, n - 1), Attempt(k, 0, 0));
    }
  }

  lemma LogStarts(s: State, cfg: Config, k: Key)
    ensures Log(s, cfg, [], k) == []
  {
  }

  /** With fewer than the limit on record before a restart, as many as the limit more are let through at once. */
  lemma RestartReached(cfg: Config, k: Key, m: nat)
    requires cfg.Valid() && k.identifier != "" && m < cfg.Limit(k.kind)
    ensures var table, events := ZeroRows(k, m), Burst(k, cfg.Limit(k.kind));
            var before := After(FailTimes(table, k), 0 - cfg.window);
            && Proper(cfg, 0, events) && |before| == m
            && InWindow(before + Log(State(map[], table), cfg, events, k), cfg.window, 0) == m + cfg.Limit(k.kind)
  {
    hide Proper, Log, FailTimes, After, InWindow, Burst;
    var limit := cfg.Limit(k.kind);
    ZeroTimes(k, m);
    ZerosAfter(m, 0 - cfg.window);
    BurstAfterRestart(cfg, k, m, limit);
    InWindowAppend(Zeros(m), Zeros(limit), cfg.window, 0);
    ZerosInWindow(m, cfg.window, 0);
    ZerosInWindow(limit, cfg.window, 0);
  }

  /** On a fresh installation the rate is bounded in every run exactly when the lockout covers the window. */
  lemma RateBoundedIff(cfg: Config, k: Key)
    requires cfg.Valid() && k.identifier != ""
    ensures (forall events :: Proper(cfg, 0, events) ==>
               Bounded(Log(State(map[], []), cfg, events, k), cfg.window, cfg.Limit(k.kind)))
            <==> cfg.lockout >= cfg.window
  {
    hide Proper, Log, Bounded;
    if cfg.lockout >= cfg.window {
      forall events | Proper(cfg, 0, events)
        ensures Bounded(Log(State(map[], []), cfg, events, k), cfg.window, cfg.Limit(k.kind))
      {
        RateBound([], cfg, 0, events, k);
      }
    } else {
      var events := BoundBroken(cfg, k);
    }
  }

  // The program's fields, and the methods that change them.

  class Limiter {
    const cfg: Config
    var recent: map<Key, seq<int>>
    var table: seq<Row>

    ghost function View(): State
      reads this
    {
      State(recent, table)
    }

    constructor (cfg: Config, table: seq<Row>)
      requires cfg.Valid()
      ensures this.cfg == cfg && View() == State(map[], table)
    {
      this.cfg, recent, this.table := cfg, map[], table;
    }

    /** The number of failures in the window, and when the oldest of them happened. */
    method CountFailures(k: Key, now: int) returns (n: nat, oldest: int)
      ensures var found := Counted(View(), cfg.window, k, now);
              n == |found| && oldest == Earliest(found)
    {
      var cutoff := now - cfg.window;
      n, oldest := 0, 0;
      if k in recent {
        n, oldest := CountAfter(recent[k], cutoff);
        if n > 0 {
          return;
        }
      }
      n, oldest := CountRows(k, cutoff);
    }

    method CountAfter(times: seq<int>, cutoff: int) returns (n: nat, oldest: int)
      ensures n == |After(times, cutoff)| && oldest == Earliest(After(times, cutoff))
    {
      n, oldest := 0, 0;
      for i := 0 to |times|
        invariant n == |After(times[..i], cutoff)| && oldest == Earliest(After(times[..i], cutoff))
      {
        AfterAdd(times[..i], times[i], cutoff);
        assert times[..i + 1] == times[..i] + [times[i]];
        if times[i] > cutoff {
          EarliestAdd(After(times[..i], cutoff), times[i]);
          if n == 0 || times[i] < oldest {
            oldest := times[i];
          }
          n := n + 1;
        }
      }
      assert times[..|times|] == times;
    }

    /** The query: COUNT and MIN over the failures of `k` after the cutoff. */
    method CountRows(k: Key, cutoff: int) returns (n: nat, oldest: int)
      ensures var found := After(FailTimes(table, k), cutoff);
              n == |found| && oldest == Earliest(found)
    {
      var times := [];
      for i := 0 to |table|
        invariant times == FailTimes(table[..i], k)
      {
        assert table[..i + 1][..i] == table[..i];
        if table[i].key == k && table[i].failure {
          times := times + [table[i].at];
        }
      }
      assert table[..|table|] == table;
      n, oldest := CountAfter(times, cutoff);
    }

    method CheckAttempt(k: Key, now: int) returns (v: Verdict)
      ensures v == Check(View(), cfg, k, now)
      ensures var found := Counted(View(), cfg.window, k, now);
              && (v.Limited? <==>
                    && k.identifier != "" && Earliest(found) + cfg.lockout > now
                    && |found| >= match k.kind case Account => cfg.maxPerAccount case Address => cfg.maxPerAddress)
              && (v.Limited? ==> v.retryAfter == Earliest(found) + cfg.lockout - now)
    {
      if k.identifier == "" {
        return Allowed;
      }
      var failures, oldest := CountFailures(k, now);
      var limit := cfg.maxPerAccount;
      if k.kind == Address {
        limit := cfg.maxPerAddress;
      }
      if failures < limit {
        return Allowed;
      }
      var retry := oldest + cfg.lockout - now;
      if retry <= 0 {
        return Allowed;
      }
      return Limited(retry);
    }

    method Failed(k: Key, now: int)
      modifies this
      ensures View() == RecordFailure(old(View()), k, now)
      ensures k.identifier == "" ==> View() == old(View())
      ensures k.identifier != "" ==>
                && table == old(table) + [Row(k, now, true)] && recent.Keys == old(recent).Keys + {k}
                && recent[k] == (if k in old(recent) then old(recent)[k] else []) + [now]
                && forall j :: j in recent && j != k ==> recent[j] == old(recent)[j]
    {
      if k.identifier != "" {
        recent := recent[k := (if k in recent then recent[k] else []) + [now]];
        table := table + [Row(k, now, true)];
      }
    }

    method Succeeded(k: Key, now: int)
      modifies this
      ensures View() == RecordSuccess(old(View()), k, now)
      ensures k.identifier == "" ==> View() == old(View())
      ensures k.identifier != "" ==>
                && recent == old(recent) - {k} && table != [] && table[|table| - 1] == Row(k, now, false)
                && forall r :: multiset(table[..|table| - 1])[r]
                               == if r.key == k && r.failure then 0 else multiset(old(table))[r]
    {
      if k.identifier != "" {
        recent := recent - {k};
        var kept := [];
        for i := 0 to |table|
          invariant recent == old(recent) - {k} && table == old(table) && kept == Cleared(table[..i], k)
        {
          assert table[..i + 1][..i] == table[..i];
          if !(table[i].key == k && table[i].failure) {
            kept := kept + [table[i]];
          }
        }
        assert table[..|table|] == table;
        ClearedExactly(table, k);
        table := kept + [Row(k, now, false)];
        assert table[..|table| - 1] == kept;
      }
    }

    method PurgeOld(retain: int, now: int) returns (deleted: nat)
      modifies this
      ensures View() == Purge(old(View()), retain, now) && deleted == |old(table)| - |table|
      ensures forall r :: multiset(table)[r] == if r.at < now - retain then 0 else multiset(old(table))[r]
      ensures forall k :: k in recent <==> k in old(recent) && After(old(recent)[k], now - retain) != []
      ensures forall k :: k in recent ==> recent[k] == After(old(recent)[k], now - retain)
    {
      var cutoff := now - retain;
      var pruned := map[];
      var rest := recent.Keys;
      while rest != {}
        invariant rest <= recent.Keys && recent == old(recent) && table == old(table)
        invariant pruned == map k | k in recent && k !in rest
          && After(recent[k], cutoff) != [] :: After(recent[k], cutoff)
        decreases rest
      {
        var k :| k in rest;
        var kept := After(recent[k], cutoff);
        if kept != [] {
          pruned := pruned[k := kept];
        }
        rest := rest - {k};
      }
      recent := pruned;
      var rows := [];
      for i := 0 to |table|
        invariant recent == pruned && table == old(table) && rows == NotBefore(table[..i], cutoff) && |rows| <= i
      {
        assert table[..i + 1][..i] == table[..i];
        if table[i].at >= cutoff {
          rows := rows + [table[i]];
        }
      }
      assert table[..|table|] == table;
      NotBeforeExactly(table, cutoff);
      deleted := |table| - |rows|;
      table := rows;
    }
  }

  /** A configuration that would disable the throttle is refused. */
  method NewLimiter(cfg: Config, table: seq<Row>) returns (l: Limiter?)
    ensures l != null <==>
      cfg.maxPerAccount >= 1 && cfg.maxPerAddress >= cfg.maxPerAccount && cfg.window > 0 && cfg.lockout > 0
    ensures l != null ==> fresh(l) && l.cfg == cfg && l.View() == State(map[], table)
  {
    l := null;
    if cfg.Valid() {
      l := new Limiter(cfg, table);
    }
  }
}
