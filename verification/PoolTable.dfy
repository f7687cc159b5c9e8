/** Keys of shared SSH connections, and what a key says about its route. */
module ConnKeys {
  import opened Text

  datatype Key = Key(userId: string, sessionId: string, via: string)

  function PathKey(userId: string, hops: seq<string>, sessionId: string): Key {
    Key(userId, sessionId, Join(hops, '>'))
  }

  /** How many hops the route has. */
  function Depth(k: Key): nat {
    if k.via == "" then 0 else Count(k.via, '>') + 1
  }

  /** What minted identifiers look like: not empty, and free of the route separator. */
  ghost predicate PlainIds(ids: seq<string>) {
    FreeOf(ids, '>') && forall i :: 0 <= i < |ids| ==> ids[i] != ""
  }

  lemma DepthIsRouteLength(userId: string, hops: seq<string>, sessionId: string)
    requires PlainIds(hops)
    ensures Depth(PathKey(userId, hops, sessionId)) == |hops|
  {
    if hops != [] {
      CountJoin(hops, '>');
      assert hops[0] != "";
    }
  }

  /** Two routes share a connection only when they are the same route to the same host. */
  lemma PathKeyInjective(u: string, a: seq<string>, x: string, v: string, b: seq<string>, y: string)
    requires PlainIds(a) && PlainIds(b)
    ensures PathKey(u, a, x) == PathKey(v, b, y) <==> u == v && a == b && x == y
  {
    if Join(a, '>') == Join(b, '>') {
      DepthIsRouteLength(u, a, x);
      DepthIsRouteLength(v, b, y);
      if a != [] && b != [] { JoinInjective(a, b, '>'); }
    }
  }
}

/**
 The pool itself: one entry per shared connection, a map from key to the current entry, and
 the critical sections that `p.mu` protects. Entries are never deleted from `entries`, so an
 index is the identity that a pointer is in the program.
 */
module PoolTable {
  import opened ConnKeys

  datatype Phase = Dialing | Live | Failed

  /** How far one run of "close the client, then give the hop leases back" has got. */
  datatype Progress = Idle | Closing | Returning(left: nat) | Finished {
    predicate ClosedClient() { Returning? || Finished? }
    /** Whether this run has given back the i-th of the borrowed leases. */
    predicate Gave(i: nat) { Finished? || (Returning? && left <= i) }
    predicate Busy() { Closing? || Returning? }
  }

  datatype Entry = Entry(
    key: Key,
    refs: int,
    evicted: bool,
    phase: Phase,
    held: seq<nat>,       // the leases `release` gives back, outermost first
    closes: nat,          // how often client.Close has been called
    byRelease: Progress,  // the tear-down that the last release runs
    byClose: Progress,    // the tear-down that Pool.Close runs
    dialler: nat,         // the caller that created the entry and dials it
    route: seq<string>,   // the hops its key was built from
    asTarget: bool,       // dialled by dialThrough, rather than by a hop's own closure
    liveAt: nat,          // when the dial succeeded
    through: seq<nat>)    // the entry whose client a hop's dial goes through; none for the first hop

  datatype Table = Table(conns: map<Key, nat>, entries: seq<Entry>, closed: bool)

  datatype Entered = Refused | Joined(e: nat) | Fresh(e: nat)

  predicate InMap(t: Table, e: nat)
    requires e < |t.entries|
  {
    t.entries[e].key in t.conns && t.conns[t.entries[e].key] == e
  }

  function NewEntry(key: Key, dialler: nat, route: seq<string>, asTarget: bool, through: seq<nat>): Entry {
    Entry(key, 1, false, Dialing, [], 0, Idle, Idle, dialler, route, asTarget, 0, through)
  }

  /** The first critical section of Acquire. */
  function Enter(t: Table, user: string, route: seq<string>, id: string, dialler: nat, asTarget: bool,
      through: seq<nat>): (Table, Entered) {
    var key := PathKey(user, route, id);
    if t.closed then (t, Refused)
    else if key in t.conns && t.conns[key] < |t.entries| then
      var e := t.conns[key];
      (t.(entries := t.entries[e := t.entries[e].(refs := t.entries[e].refs + 1)]), Joined(e))
    else
      (t.(conns := t.conns[key := |t.entries|], entries :=
          t.entries + [NewEntry(key, dialler, route, asTarget, through)]),
       Fresh(|t.entries|))
  }

  function Evict(t: Table, e: nat): Table
    requires e < |t.entries|
  {
    Table(if InMap(t, e) then t.conns - {t.entries[e].key} else t.conns,
          t.entries[e := t.entries[e].(evicted := true)], t.closed)
  }

  function Settled(x: Entry, ok: bool, held: seq<nat>, at: nat): Entry {
    if ok then x.(phase := Live, held := held, liveAt := at) else x.(phase := Failed, evicted := true)
  }

  /** The second critical section of Acquire, once the dial has returned. */
  function Finish(t: Table, e: nat, ok: bool, held: seq<nat>, at: nat): Table
    requires e < |t.entries|
  {
    Table(if !ok && InMap(t, e) then t.conns - {t.entries[e].key} else t.conns,
          t.entries[e := Settled(t.entries[e], ok, held, at)], t.closed)
  }

  /** One reference fewer; at zero the entry is evicted, and a dialled connection is torn down. */
  function Dropped(x: Entry): Entry {
    var last := x.refs - 1 <= 0;
    x.(refs := x.refs - 1,
       evicted := last || x.evicted,
       byRelease := if last && x.phase == Live then Closing else x.byRelease)
  }

  /** The critical section of release. */
  function Drop(t: Table, e: nat): Table
    requires e < |t.entries|
  {
    var x := t.entries[e];
    Table(if x.refs - 1 <= 0 && !x.evicted && InMap(t, e) then t.conns - {x.key} else t.conns,
          t.entries[e := Dropped(x)], t.closed)
  }

  /** What the watcher of a connection does when the connection ends. */
  function Watch(t: Table, e: nat): Table
    requires e < |t.entries|
  {
    if t.entries[e].evicted then t else Evict(t, e)
  }

  function Doom(x: Entry): Entry {
    x.(evicted := true, byClose := if x.phase == Live then Closing else x.byClose)
  }

  function ShutEntry(t: Table, e: nat): Entry
    requires e < |t.entries|
  {
    if InMap(t, e) then Doom(t.entries[e]) else t.entries[e]
  }

  /** The critical section of Close: everything in the map is evicted and doomed. */
  function Shut(t: Table): Table {
    Table(map[], seq(|t.entries|, e requires 0 <= e < |t.entries| => ShutEntry(t, e)), true)
  }

  /** Each once, deepest route first. */
  ghost predicate DeepestFirst(entries: seq<Entry>, order: seq<nat>) {
    && (forall i :: 0 <= i < |order| ==> order[i] < |entries|)
    && (forall i, j :: 0 <= i < j < |order| ==>
          order[i] != order[j] && Depth(entries[order[i]].key) >= Depth(entries[order[j]].key))
  }

  /** The order in which Close tears down: exactly the entries of the map, deepest first. */
  ghost predicate CloseOrder(t: Table, order: seq<nat>) {
    DeepestFirst(t.entries, order) && forall e: nat :: e in order <==> e < |t.entries| && InMap(t, e)
  }

  function InsertAt(order: seq<nat>, k: nat, e: nat): (r: seq<nat>)
    requires k <= |order|
    ensures |r| == |order| + 1 && r[k] == e
    ensures forall i :: 0 <= i < |r| && i != k ==> r[i] == order[if i < k then i else i - 1]
  {
    order[..k] + [e] + order[k..]
  }

  lemma InsertedMembers(order: seq<nat>, k: nat, e: nat)
    requires k <= |order|
    ensures forall x: nat :: x in InsertAt(order, k, e) <==> x == e || x in order
  {
    assert order == order[..k] + order[k..];
  }

  lemma InsertedDeepestFirst(entries: seq<Entry>, order: seq<nat>, k: nat, e: nat)
    requires DeepestFirst(entries, order) && k <= |order| && e < |entries| && e !in order
    requires forall i :: k <= i < |order| ==> Depth(entries[order[i]].key) < Depth(entries[e].key)
    requires k > 0 ==> Depth(entries[order[k - 1]].key) >= Depth(entries[e].key)
    ensures DeepestFirst(entries, InsertAt(order, k, e))
  {
    hide InsertAt, Depth;
    forall i | 0 <= i < k ensures Depth(entries[order[i]].key) >= Depth(entries[e].key) {
      if i < k - 1 { assert Depth(entries[order[i]].key) >= Depth(entries[order[k - 1]].key); }
    }
  }

  /** The stable sort by depth that Close applies to its snapshot. */
  method SortDeepestFirst(entries: seq<Entry>, doomed: seq<nat>) returns (order: seq<nat>)
    requires forall i :: 0 <= i < |doomed| ==> doomed[i] < |entries|
    requires forall i, j :: 0 <= i < j < |doomed| ==> doomed[i] != doomed[j]
    ensures DeepestFirst(entries, order) && forall x: nat :: x in order <==> x in doomed
  {
    order := [];
    for n := 0 to |doomed|
      invariant DeepestFirst(entries, order) && forall x: nat :: x in order <==> x in doomed[..n]
    {
      var k := |order|;
      while k > 0 && Depth(entries[order[k - 1]].key) < Depth(entries[doomed[n]].key)
        invariant 0 <= k <= |order|
        invariant forall i :: k <= i < |order| ==> Depth(entries[order[i]].key) < Depth(entries[doomed[n]].key)
      {
        k := k - 1;
      }
      InsertedDeepestFirst(entries, order, k, doomed[n]);
      InsertedMembers(order, k, doomed[n]);
      order := InsertAt(order, k, doomed[n]);
    }
  }

  /** Part-way through emptying the map: the doomed are those whose keys have gone. */
  ghost predicate PartlyShut(t: Table, conns: map<Key, nat>, entries: seq<Entry>, doomed: seq<nat>) {
    && |entries| == |t.entries|
    && (forall k :: k in conns ==> k in t.conns && conns[k] == t.conns[k])
    && (forall e: nat :: e < |entries| ==> entries[e] == (if e in doomed then Doom(t.entries[e]) else t.entries[e]))
    && (forall i :: 0 <= i < |doomed| ==> doomed[i] < |entries|)
    && (forall e: nat :: e in doomed <==> e < |entries| && InMap(t, e) && t.entries[e].key !in conns)
    && (forall i, j :: 0 <= i < j < |doomed| ==> doomed[i] != doomed[j])
  }

  lemma ShutsOneMore(t: Table, conns: map<Key, nat>, entries: seq<Entry>, doomed: seq<nat>, key: Key)
    requires PartlyShut(t, conns, entries, doomed) && key in conns
    requires conns[key] < |t.entries| && t.entries[conns[key]].key == key
    ensures var e := conns[key];
            e < |entries| && PartlyShut(t, conns - {key}, entries[e := Doom(entries[e])], doomed + [e])
  {
    hide Doom;
    var e := conns[key];
    assert InMap(t, e) && e !in doomed;
    forall x: nat ensures x in doomed + [e] <==> x < |entries| && InMap(t, x) && t.entries[x].key !in conns - {key} {
      assert x in doomed + [e] <==> x in doomed || x == e;
    }
  }

  /** The pool's fields, and the critical sections that change them. */
  class Pool {
    var conns: map<Key, nat>
    var entries: seq<Entry>
    var closed: bool

    ghost function View(): Table
      reads this
    {
      Table(conns, entries, closed)
    }

    /** What the fields always satisfy: the map points at entries of its own keys. */
    ghost predicate Valid()
      reads this
    {
      forall k :: k in conns ==> conns[k] < |entries| && entries[conns[k]].key == k
    }

    constructor ()
      ensures View() == Table(map[], [], false) && Valid()
    {
      conns, entries, closed := map[], [], false;
    }

    method Acquire(user: string, route: seq<string>, id: string, dialler: nat, asTarget: bool, through: seq<nat>)
        returns (r: Entered)
      requires Valid()
      modifies this
      ensures Valid() && (View(), r) == Enter(old(View()), user, route, id, dialler, asTarget, through)
      ensures old(closed) ==> r == Refused && View() == old(View())
      ensures var key := PathKey(user, route, id);
              !old(closed) && key in old(conns) ==>
                && r == Joined(old(conns)[key]) && conns == old(conns) && |entries| == |old(entries)|
                && entries[r.e].refs == old(entries)[r.e].refs + 1
                && forall x: nat :: x < |entries| && x != r.e ==> entries[x] == old(entries)[x]
      ensures var key := PathKey(user, route, id);
              !old(closed) && key !in old(conns) ==>
                && r == Fresh(|old(entries)|) && conns == old(conns)[key := r.e]
                && entries[..r.e] == old(entries) && |entries| == r.e + 1
                && entries[r.e].key == key && entries[r.e].refs == 1 && entries[r.e].phase == Dialing
                && !entries[r.e].evicted
    {
      var key := PathKey(user, route, id);
      if closed {
        return Refused;
      }
      if key in conns {
        var e := conns[key];
        entries := entries[e := entries[e].(refs := entries[e].refs + 1)];
        return Joined(e);
      }
      r := Fresh(|entries|);
      conns := conns[key := |entries|];
      entries := entries + [NewEntry(key, dialler, route, asTarget, through)];
    }

    method EvictEntry(e: nat)
      requires Valid() && e < |entries|
      modifies this
      ensures Valid() && View() == Evict(old(View()), e)
      ensures entries == old(entries)[e := old(entries)[e].(evicted := true)] && closed == old(closed)
      ensures forall k :: k in conns <==> k in old(conns) && old(conns)[k] != e
      ensures forall k :: k in conns ==> conns[k] == old(conns)[k]
    {
      var key := entries[e].key;
      if key in conns && conns[key] == e {
        conns := conns - {key};
      }
      entries := entries[e := entries[e].(evicted := true)];
    }

    method DialDone(e: nat, ok: bool, held: seq<nat>, at: nat)
      requires Valid() && e < |entries|
      modifies this
      ensures Valid() && View() == Finish(old(View()), e, ok, held, at)
      ensures ok ==>
                entries[e].phase == Live && entries[e].held == held && entries[e].liveAt == at && conns == old(conns)
      ensures !ok ==>
                && entries[e].phase == Failed && entries[e].evicted
                && forall k :: k in conns <==> k in old(conns) && old(conns)[k] != e
      ensures entries[e].refs == old(entries)[e].refs && closed == old(closed)
    {
      if ok {
        entries := entries[e := entries[e].(phase := Live, held := held, liveAt := at)];
      } else {
        entries := entries[e := entries[e].(phase := Failed)];
        EvictEntry(e);
        assert entries == old(entries)[e := Settled(old(entries)[e], ok, held, at)];
      }
    }

    /** Drops one reference; `last` tells the caller to close the client and give the hops back. */
    method Release(e: nat) returns (last: bool)
      requires Valid() && e < |entries|
      modifies this
      ensures Valid() && View() == Drop(old(View()), e) && last == (old(entries)[e].refs <= 1)
      ensures entries[e].refs == old(entries)[e].refs - 1 && closed == old(closed)
      ensures !last ==> conns == old(conns) && entries[e] == old(entries)[e].(refs := old(entries)[e].refs - 1)
      ensures last ==> entries[e].evicted && (entries[e].phase == Live ==> entries[e].byRelease == Closing)
      ensures last && !old(entries)[e].evicted ==> forall k :: k in conns <==> k in old(conns) && old(conns)[k] != e
    {
      entries := entries[e := entries[e].(refs := entries[e].refs - 1)];
      last := entries[e].refs <= 0;
      if last && !entries[e].evicted {
        EvictEntry(e);
      }
      if last && entries[e].phase == Live {
        entries := entries[e := entries[e].(byRelease := Closing)];
      }
      assert entries == old(entries)[e := Dropped(old(entries)[e])];
    }

    method ConnectionEnded(e: nat)
      requires Valid() && e < |entries|
      modifies this
      ensures Valid() && View() == Watch(old(View()), e)
      ensures entries == old(entries)[e := old(entries)[e].(evicted := true)] && closed == old(closed)
      ensures if old(entries)[e].evicted then conns == old(conns)
              else forall k :: k in conns <==> k in old(conns) && old(conns)[k] != e
      ensures forall k :: k in conns ==> conns[k] == old(conns)[k]
    {
      if !entries[e].evicted {
        EvictEntry(e);
      }
    }

    /** Empties the map in whatever order it is visited. */
    method EvictAll() returns (doomed: seq<nat>)
      requires Valid()
      modifies this
      ensures Valid() && View() == Shut(old(View()))
      ensures closed && conns == map[] && |entries| == |old(entries)|
      ensures forall i :: 0 <= i < |doomed| ==> doomed[i] < |entries|
      ensures forall e: nat :: e in doomed <==> e < |old(entries)| && InMap(old(View()), e)
      ensures forall i, j :: 0 <= i < j < |doomed| ==> doomed[i] != doomed[j]
      ensures forall e: nat :: e in doomed ==>
                entries[e].evicted && (entries[e].phase == Live ==> entries[e].byClose == Closing)
      ensures forall e: nat :: e < |entries| && e !in doomed ==> entries[e] == old(entries)[e]
    {
      ghost var t := View();
      closed := true;
      doomed := [];
      while conns != map[]
        invariant closed && PartlyShut(t, conns, entries, doomed)
        decreases conns.Keys
      {
        assert conns.Keys != {};
        var key :| key in conns;
        ShutsOneMore(t, conns, entries, doomed, key);
        var e := conns[key];
        doomed := doomed + [e];
        entries := entries[e := Doom(entries[e])];
        conns := conns - {key};
      }
      assert entries == Shut(t).entries;
    }

    /** Close: evicts everything, and returns the entries to tear down, deepest first. */
    method Shutdown() returns (order: seq<nat>)
      requires Valid()
      modifies this
      ensures Valid() && View() == Shut(old(View())) && CloseOrder(old(View()), order)
    {
      var doomed := EvictAll();
      order := SortDeepestFirst(entries, doomed);
      assert forall e :: 0 <= e < |entries| ==> entries[e].key == old(entries)[e].key;
    }
  }
}
