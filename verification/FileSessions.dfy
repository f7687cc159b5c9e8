/** Open file sessions, and the critical sections of the manager that keeps them. */
module FileTable {

  datatype Key = Key(userId: string, sessionId: string)

  /** An open file session; `lease` is the connection it holds. */
  datatype Session = Session(key: Key, lease: nat, closed: bool, lastUsed: int)

  /** Sessions are never removed from `all`, so that an index is the identity a pointer is in the program. */
  datatype Table = Table(open: map<Key, nat>, all: seq<Session>, closed: bool)

  datatype Begun = Refused | Existing(id: nat) | MustDial

  datatype Installed = Won(id: nat) | Lost(id: nat, winner: nat)

  const IdleTimeout: int := 15 * 60

  ghost predicate Indexed(t: Table) { forall k :: k in t.open ==> t.open[k] < |t.all| }

  function Touch(t: Table, id: nat, now: int): Table
    requires id < |t.all|
  {
    t.(all := t.all[id := t.all[id].(lastUsed := now)])
  }

  /** The first critical section of Open. */
  function Begin(t: Table, k: Key, now: int): (Table, Begun)
    requires k in t.open ==> t.open[k] < |t.all|
  {
    if t.closed then (t, Refused)
    else if k in t.open then
      if !t.all[t.open[k]].closed then (Touch(t, t.open[k], now), Existing(t.open[k]))
      else (t.(open := t.open - {k}), MustDial)
    else (t, MustDial)
  }

  /** The second one. It does not ask whether the manager has been shut down since. */
  function Install(t: Table, k: Key, lease: nat, now: int): (Table, Installed) {
    var id := |t.all|;
    var more := t.(all := t.all + [Session(k, lease, false, now)]);
    if k in t.open then (more, Lost(id, t.open[k])) else (more.(open := t.open[k := id]), Won(id))
  }

  function Found(t: Table, k: Key, now: int): Table
    requires k in t.open ==> t.open[k] < |t.all|
  {
    if k in t.open && !t.all[t.open[k]].closed then Touch(t, t.open[k], now) else t
  }

  function Without(t: Table, keys: set<Key>): Table { t.(open := t.open - keys) }

  ghost predicate Idle(t: Table, k: Key, now: int) {
    k in t.open && t.open[k] < |t.all| && now - t.all[t.open[k]].lastUsed > IdleTimeout
  }

  ghost function IdleKeys(t: Table, now: int): set<Key> { set k | k in t.open && Idle(t, k, now) }

  /** The locked part of Session.close: only the first caller goes on to release. */
  function Mark(t: Table, id: nat): (Table, bool)
    requires id < |t.all|
  {
    if t.all[id].closed then (t, false) else (t.(all := t.all[id := t.all[id].(closed := true)]), true)
  }

  /** `ids` are the sessions open under `keys`. */
  ghost predicate Lists(open: map<Key, nat>, keys: set<Key>, ids: seq<nat>) {
    forall id :: id in ids <==> exists k :: k in keys && k in open && open[k] == id
  }

  lemma ListsNone(open: map<Key, nat>)
    ensures Lists(open, {}, [])
  {
  }

  lemma ListsMore(open: map<Key, nat>, keys: set<Key>, ids: seq<nat>, k: Key)
    requires Lists(open, keys, ids) && k in open
    ensures Lists(open, keys + {k}, ids + [open[k]])
  {
    forall id ensures id in ids + [open[k]] <==> exists x :: x in keys + {k} && x in open && open[x] == id {
      if id in ids { var x :| x in keys && x in open && open[x] == id; assert x in keys + {k}; }
      if id == open[k] { assert k in keys + {k}; }
    }
  }

  /** Of the idle sessions, those not still to be looked at are gone from the map. */
  ghost predicate ReapedSo(t: Table, now: int, left: set<Key>, gone: set<Key>, open: map<Key, nat>) {
    left <= t.open.Keys && gone == IdleKeys(t, now) - left && open == t.open - gone
  }

  lemma ReapsNone(t: Table, now: int)
    ensures ReapedSo(t, now, t.open.Keys, {}, t.open)
  {
  }

  lemma ReapsOne(t: Table, now: int, left: set<Key>, gone: set<Key>, open: map<Key, nat>, k: Key)
    requires ReapedSo(t, now, left, gone, open) && k in left && Indexed(t)
    ensures k in open && k in t.open && open[k] == t.open[k] < |t.all|
    ensures if now - t.all[t.open[k]].lastUsed > IdleTimeout then ReapedSo(t, now, left - {k}, gone + {k}, open - {k})
            else ReapedSo(t, now, left - {k}, gone, open)
  {
    assert k in IdleKeys(t, now) <==> now - t.all[t.open[k]].lastUsed > IdleTimeout;
  }

  lemma ReapsAll(t: Table, now: int, gone: set<Key>, open: map<Key, nat>)
    requires ReapedSo(t, now, {}, gone, open) && Indexed(t)
    ensures gone == IdleKeys(t, now) && open == t.open - gone && Indexed(Without(t, gone))
  {
  }

  /** Which keys that leaves. */
  lemma KeptSoFar(t: Table, now: int, gone: set<Key>, open: map<Key, nat>)
    requires gone == IdleKeys(t, now) && open == t.open - gone && Indexed(t)
    ensures forall k :: k in t.open ==> t.open[k] < |t.all|
    ensures forall k :: k in open <==> k in t.open && now - t.all[t.open[k]].lastUsed <= 900
    ensures forall k :: k in open ==> open[k] == t.open[k]
  {
  }

  class Manager {
    var open: map<Key, nat>
    var all: seq<Session>
    var closed: bool

    ghost function View(): Table reads this { Table(open, all, closed) }

    ghost predicate Valid() reads this { Indexed(View()) }

    constructor ()
      ensures Valid() && View() == Table(map[], [], false)
    {
      open, all, closed := map[], [], false;
    }

    method OpenBegin(k: Key, now: int) returns (r: Begun)
      requires Valid()
      modifies this
      ensures Valid() && (View(), r) == Begin(old(View()), k, now)
      ensures r == Refused <==> old(closed)
      ensures r.Existing? <==> !old(closed) && k in old(open) && !old(all)[old(open)[k]].closed
      ensures r.Existing? ==>
                r.id == old(open)[k] && open == old(open) && all == old(all)[r.id := old(all)[r.id].(lastUsed := now)]
      ensures r.MustDial? ==> k !in open && open == old(open) - {k} && all == old(all)
    {
      if closed {
        return Refused;
      }
      if k in open {
        var id := open[k];
        if !all[id].closed {
          all := all[id := all[id].(lastUsed := now)];
          return Existing(id);
        }
        open := open - {k};
      }
      return MustDial;
    }

    method OpenInstall(k: Key, lease: nat, now: int) returns (r: Installed)
      requires Valid()
      modifies this
      ensures Valid() && (View(), r) == Install(old(View()), k, lease, now)
      ensures all == old(all) + [Session(k, lease, false, now)] && r.id == |old(all)|
      ensures r.Lost? <==> k in old(open)
      ensures if k in old(open) then r.winner == old(open)[k] && open == old(open)
              else open == old(open)[k := r.id]
    {
      var id := |all|;
      all := all + [Session(k, lease, false, now)];
      if k in open {
        return Lost(id, open[k]);
      }
      open := open[k := id];
      return Won(id);
    }

    method Get(k: Key, now: int) returns (found: bool, id: nat)
      requires Valid()
      modifies this
      ensures Valid() && View() == Found(old(View()), k, now)
      ensures found <==> k in old(open) && !old(all)[old(open)[k]].closed
      ensures found ==> id == old(open)[k] && all == old(all)[id := old(all)[id].(lastUsed := now)]
      ensures open == old(open) && (!found ==> all == old(all))
    {
      found, id := false, 0;
      if k in open && !all[open[k]].closed {
        id := open[k];
        all := all[id := all[id].(lastUsed := now)];
        found := true;
      }
    }

    /** Close, up to the point where the session itself is closed. */
    method Remove(k: Key) returns (found: bool, id: nat)
      requires Valid()
      modifies this
      ensures Valid() && View() == Without(old(View()), {k})
      ensures found <==> k in old(open)
      ensures found ==> id == old(open)[k]
      ensures k !in open && (forall x :: x != k ==> (x in open <==> x in old(open))) && all == old(all)
      ensures forall x :: x in open ==> open[x] == old(open)[x]
    {
      found, id := false, 0;
      if k in open {
        found, id := true, open[k];
      }
      open := open - {k};
    }

    /** The locked part of reapOnce. */
    method ReapStale(now: int) returns (stale: seq<nat>)
      requires Valid()
      modifies this
      ensures Valid() && View() == Without(old(View()), IdleKeys(old(View()), now))
      ensures Lists(old(open), IdleKeys(old(View()), now), stale)
      ensures forall k :: k in open <==> k in old(open) && now - all[old(open)[k]].lastUsed <= 900
      ensures all == old(all) && forall k :: k in open ==> open[k] == old(open)[k]
    {
      hide Lists, Indexed, ReapedSo, IdleKeys;
      stale := [];
      ghost var t := View();
      var left := open.Keys;
      ghost var gone: set<Key> := {};
      ListsNone(t.open);
      ReapsNone(t, now);
      while left != {}
        invariant all == t.all && closed == t.closed && Indexed(t) && ReapedSo(t, now, left, gone, open)
        invariant Lists(t.open, gone, stale)
        decreases |left|
      {
        var k :| k in left;
        ReapsOne(t, now, left, gone, open, k);
        left := left - {k};
        if now - all[open[k]].lastUsed > IdleTimeout {
          ListsMore(t.open, gone, stale, k);
          stale := stale + [open[k]];
          gone := gone + {k};
          open := open - {k};
        }
      }
      ReapsAll(t, now, gone, open);
      KeptSoFar(t, now, gone, open);
    }

    /** The locked part of Shutdown. */
    method ShutAll() returns (again: bool, ids: seq<nat>)
      requires Valid()
      modifies this
      ensures Valid() && again == old(closed) && closed && all == old(all)
      ensures again ==> View() == old(View()) && ids == []
      ensures !again ==> open == map[] && Lists(old(open), old(open).Keys, ids)
    {
      hide Lists;
      ids := [];
      if closed {
        return true, ids;
      }
      closed := true;
      ghost var was := open;
      ghost var gone: set<Key> := {};
      ListsNone(was);
      while open.Keys != {}
        invariant closed && all == old(all) && gone <= was.Keys && open == was - gone
        invariant Lists(was, gone, ids)
        decreases |open.Keys|
      {
        var k :| k in open;
        ListsMore(was, gone, ids, k);
        ids := ids + [open[k]];
        gone := gone + {k};
        open := open - {k};
        assert open.Keys == (was - (gone - {k})).Keys - {k};
      }
      assert gone == was.Keys;
      again := false;
    }

    method MarkClosed(id: nat) returns (first: bool)
      requires Valid() && id < |all|
      modifies this
      ensures Valid() && (View(), first) == Mark(old(View()), id)
      ensures first == !old(all)[id].closed && all == old(all)[id := old(all)[id].(closed := true)]
      ensures open == old(open) && closed == old(closed)
    {
      first := !all[id].closed;
      if first {
        all := all[id := all[id].(closed := true)];
      }
    }
  }
}
