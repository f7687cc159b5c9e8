/** The order in which the folders of a bundle are imported. */
module ParentOrder {

  type Id = string

  /** A settings document; it may be one that cannot be read. */
  datatype Settings = Settings(text: string, readable: bool)

  const NoSettings := Settings("", true)

  datatype Folder = Folder(id: Id, parent: Id, name: string, defaults: Settings)

  ghost predicate DistinctIds(fs: seq<Folder>) {
    forall i, j :: 0 <= i < j < |fs| ==> fs[i].id != fs[j].id
  }

  ghost predicate InBundle(fs: seq<Folder>, id: Id) {
    exists i :: 0 <= i < |fs| && fs[i].id == id
  }

  lemma BundleMore(folders: seq<Folder>, f: Folder, id: Id)
    ensures InBundle(folders + [f], id) <==> InBundle(folders, id) || id == f.id
  {
    if InBundle(folders, id) {
      var j :| 0 <= j < |folders| && folders[j].id == id;
      assert (folders + [f])[j].id == id;
    }
    if id == f.id { assert (folders + [f])[|folders|].id == id; }
  }

  /** From the folder at `i`, the walk up the bundle leaves it within `n` steps. */
  ghost predicate Escapes(fs: seq<Folder>, i: nat, n: nat)
    decreases n
  {
    i < |fs| &&
    (fs[i].parent == "" || !InBundle(fs, fs[i].parent)
     || (n > 0 && exists j: nat :: j < |fs| && fs[j].id == fs[i].parent && Escapes(fs, j, n - 1)))
  }

  /** The walk up never leaves the bundle: the folder is in a loop, or hangs from one. */
  ghost predicate Trapped(fs: seq<Folder>, i: nat) {
    forall n: nat :: !Escapes(fs, i, n)
  }

  /** What becomes of a folder: only a trapped one loses its parent. */
  ghost function Placed(fs: seq<Folder>, i: nat): Folder
    requires i < |fs|
  {
    if Trapped(fs, i) then fs[i].(parent := "") else fs[i]
  }

  /** Every parent is the top level, outside the bundle, or earlier in the list. */
  ghost predicate ParentsFirst(fs: seq<Folder>, out: seq<Folder>) {
    forall k :: 0 <= k < |out| ==>
      out[k].parent == "" || !InBundle(fs, out[k].parent) || exists j :: 0 <= j < k && out[j].id == out[k].parent
  }

  /** `from[k]` says which folder the k-th of the output was. */
  ghost predicate Arranged(fs: seq<Folder>, out: seq<Folder>, from: seq<nat>) {
    && |from| == |out|
    && (forall k :: 0 <= k < |from| ==> from[k] < |fs| && out[k] == Placed(fs, from[k]))
    && (forall k, l :: 0 <= k < l < |from| ==> from[k] != from[l])
  }

  /** Which folders have been placed. */
  ghost predicate Marks(fs: seq<Folder>, placed: set<Id>, from: seq<nat>) {
    forall i: nat :: i < |fs| ==> (fs[i].id in placed <==> i in from)
  }

  lemma PlacedEscapes(fs: seq<Folder>, i: nat, placed: set<Id>, from: seq<nat>)
    requires i < |fs| && DistinctIds(fs) && Marks(fs, placed, from) && EscapedAll(fs, from)
    requires fs[i].parent == "" || !InBundle(fs, fs[i].parent) || fs[i].parent in placed
    ensures !Trapped(fs, i)
  {
    var none: nat := 0;
    if fs[i].parent == "" || !InBundle(fs, fs[i].parent) {
      assert Escapes(fs, i, none);
    } else {
      var j: nat :| j < |fs| && fs[j].id == fs[i].parent;
      assert j in from;
      var n: nat :| Escapes(fs, j, n);
      assert Escapes(fs, i, n + 1);
    }
  }

  /** The folders placed so far all escape. */
  ghost predicate EscapedAll(fs: seq<Folder>, from: seq<nat>) {
    forall i: nat :: i in from && i < |fs| ==> exists n: nat :: Escapes(fs, i, n)
  }

  /** Nothing could be placed in a whole pass. */
  ghost predicate Stuck(fs: seq<Folder>, placed: set<Id>) {
    forall i :: 0 <= i < |fs| && fs[i].id !in placed ==>
      fs[i].parent != "" && InBundle(fs, fs[i].parent) && fs[i].parent !in placed
  }

  lemma {:induction false} StuckTraps(fs: seq<Folder>, placed: set<Id>, i: nat, n: nat)
    requires Stuck(fs, placed) && i < |fs| && fs[i].id !in placed
    ensures !Escapes(fs, i, n)
    decreases n
  {
    if Escapes(fs, i, n) {
      var j: nat :| j < |fs| && fs[j].id == fs[i].parent && Escapes(fs, j, n - 1);
      StuckTraps(fs, placed, j, n - 1);
    }
  }

  ghost function Indices(n: nat): (r: set<nat>)
    ensures |r| == n && forall i: nat :: i in r <==> i < n
  {
    if n == 0 then {} else Indices(n - 1) + {n - 1}
  }

  lemma {:induction false} Pigeon(q: seq<nat>, all: set<nat>)
    requires (forall k :: 0 <= k < |q| ==> q[k] in all) && forall k, l :: 0 <= k < l < |q| ==> q[k] != q[l]
    ensures |q| <= |all|
    ensures (forall x :: x in all ==> x in q) ==> |q| == |all|
  {
    if q != [] {
      var n := |q| - 1;
      Pigeon(q[..n], all - {q[n]});
      assert q == q[..n] + [q[n]];
    } else if forall x :: x in all ==> x in q {
      assert all == {};
    }
  }

  /** Part-way through: what has been placed, and that it is in order. */
  ghost predicate Partial(fs: seq<Folder>, out: seq<Folder>, placed: set<Id>, from: seq<nat>) {
    Arranged(fs, out, from) && Marks(fs, placed, from) && ParentsFirst(fs, out)
  }

  lemma PartialBound(fs: seq<Folder>, out: seq<Folder>, placed: set<Id>, from: seq<nat>)
    requires Partial(fs, out, placed, from)
    ensures |out| <= |fs|
    ensures (forall i :: 0 <= i < |fs| ==> fs[i].id in placed) ==> |out| == |fs|
  {
    Pigeon(from, Indices(|fs|));
  }

  lemma PartialMore(fs: seq<Folder>, out: seq<Folder>, placed: set<Id>, from: seq<nat>, i: nat)
    requires DistinctIds(fs) && Partial(fs, out, placed, from) && i < |fs| && fs[i].id !in placed
    requires var p := Placed(fs, i).parent; p == "" || !InBundle(fs, p) || p in placed
    ensures Partial(fs, out + [Placed(fs, i)], placed + {fs[i].id}, from + [i])
  {
    hide Placed, InBundle;
    var out', from' := out + [Placed(fs, i)], from + [i];
    assert Arranged(fs, out', from');
    assert Marks(fs, placed + {fs[i].id}, from') by {
      forall x: nat | x < |fs| ensures fs[x].id in placed + {fs[i].id} <==> x in from' {
        assert x in from' <==> x in from || x == i;
      }
    }
    var p := Placed(fs, i).parent;
    if p != "" && InBundle(fs, p) { PlacedIsOut(fs, out, placed, from, p); }
    assert ParentsFirst(fs, out') by {
      forall k | 0 <= k < |out'|
        ensures out'[k].parent == "" || !InBundle(fs, out'[k].parent) || exists j ::
          0 <= j < k && out'[j].id == out'[k].parent
      {
        if k < |out| {
          assert out'[k] == out[k];
          if out[k].parent != "" && InBundle(fs, out[k].parent) {
            var j :| 0 <= j < k && out[j].id == out[k].parent;
            assert out'[j] == out[j];
          }
        } else if p != "" && InBundle(fs, p) {
          var j :| 0 <= j < |out| && out[j].id == p;
          assert out'[j] == out[j];
        }
      }
    }
  }

  lemma PlacedIsOut(fs: seq<Folder>, out: seq<Folder>, placed: set<Id>, from: seq<nat>, p: Id)
    requires Arranged(fs, out, from) && Marks(fs, placed, from) && p in placed && InBundle(fs, p)
    ensures exists j :: 0 <= j < |out| && out[j].id == p
  {
    var i: nat :| i < |fs| && fs[i].id == p;
    assert i in from;
    var j :| 0 <= j < |from| && from[j] == i;
    assert out[j].id == p;
  }

  /** The pass has placed exactly the first `i` folders, as they came. */
  ghost predicate AsTheyCame(fs: seq<Folder>, out: seq<Folder>, placed: set<Id>, i: nat) {
    i <= |fs| && out == fs[..i] && forall j :: 0 <= j < |fs| ==> (fs[j].id in placed <==> j < i)
  }

  lemma AsTheyCameMore(fs: seq<Folder>, out: seq<Folder>, placed: set<Id>, i: nat)
    requires DistinctIds(fs) && AsTheyCame(fs, out, placed, i) && i < |fs|
    ensures AsTheyCame(fs, out + [fs[i]], placed + {fs[i].id}, i + 1)
  {
  }

  /** A folder that must wait for its parent. */
  predicate Waits(f: Folder, ids: set<Id>, placed: set<Id>) {
    f.parent != "" && f.parent in ids && f.parent !in placed
  }

  /** The first `i` folders that are not placed all wait. */
  ghost predicate AllWait(fs: seq<Folder>, ids: set<Id>, placed: set<Id>, i: nat) {
    forall j :: 0 <= j < i && j < |fs| && fs[j].id !in placed ==> Waits(fs[j], ids, placed)
  }

  ghost predicate Names(fs: seq<Folder>, ids: set<Id>) {
    forall id :: id in ids <==> InBundle(fs, id)
  }

  lemma AllWaitStuck(fs: seq<Folder>, ids: set<Id>, placed: set<Id>)
    requires Names(fs, ids) && AllWait(fs, ids, placed, |fs|)
    ensures Stuck(fs, placed)
  {
  }

  /** The output names folders of the bundle, none of them twice, and these are the ones marked. */
  ghost predicate OnceEach(fs: seq<Folder>, out: seq<Folder>, placed: set<Id>) {
    && (forall k :: 0 <= k < |out| ==> out[k].id in placed && InBundle(fs, out[k].id))
    && (forall k, l :: 0 <= k < l < |out| ==> out[k].id != out[l].id)
  }

  lemma OnceMore(fs: seq<Folder>, out: seq<Folder>, placed: set<Id>, f: Folder)
    requires OnceEach(fs, out, placed) && InBundle(fs, f.id) && f.id !in placed
    ensures OnceEach(fs, out + [f], placed + {f.id})
  {
    hide InBundle;
  }

  lemma {:induction false} IdsWithin(out: seq<Folder>, all: set<Id>)
    requires (forall k :: 0 <= k < |out| ==> out[k].id in all) && forall k, l ::
      0 <= k < l < |out| ==> out[k].id != out[l].id
    ensures |out| <= |all|
  {
    if out != [] {
      var n := |out| - 1;
      IdsWithin(out[..n], all - {out[n].id});
    }
  }

  lemma {:induction false} IdsOf(fs: seq<Folder>) returns (ids: set<Id>)
    ensures |ids| <= |fs| && (forall i :: 0 <= i < |fs| ==> fs[i].id in ids)
    ensures !DistinctIds(fs) ==> |ids| < |fs|
  {
    ids := {};
    if fs != [] {
      var n := |fs| - 1;
      var rest := IdsOf(fs[..n]);
      ids := rest + {fs[n].id};
      if DistinctIds(fs[..n]) && !DistinctIds(fs) {
        var i, j :| 0 <= i < j < |fs| && fs[i].id == fs[j].id;
        assert j == n && fs[..n][i] == fs[i];
        assert ids == rest;
      }
    }
  }

  /**
   Why the IDs must differ: with two folders of the same ID the output can never be as long as
   the bundle, and the loop around the passes has no other exit.
   */
  lemma DuplicatesNeverEnd(fs: seq<Folder>, out: seq<Folder>, placed: set<Id>)
    requires OnceEach(fs, out, placed)
    ensures !DistinctIds(fs) ==> |out| < |fs|
  {
    var ids := IdsOf(fs);
    IdsWithin(out, ids);
  }

  /** What holds between passes, whatever the IDs; more when they differ. */
  ghost predicate Between(fs: seq<Folder>, out: seq<Folder>, placed: set<Id>, from: seq<nat>) {
    OnceEach(fs, out, placed) && (DistinctIds(fs) ==> Partial(fs, out, placed, from))
  }

  /** One pass over the folders, placing each whose parent is settled. */
  method Pass(fs: seq<Folder>, ids: set<Id>, out: seq<Folder>, placed: set<Id>, ghost from: seq<nat>)
    returns (out': seq<Folder>, placed': set<Id>, progress: bool, ghost from': seq<nat>)
    requires Names(fs, ids) && Between(fs, out, placed, from)
    requires DistinctIds(fs) ==> EscapedAll(fs, from)
    ensures Between(fs, out', placed', from')
    ensures DistinctIds(fs) ==> EscapedAll(fs, from')
    ensures |out'| >= |out| && (progress <==> |out'| > |out|)
    ensures !progress ==> Stuck(fs, placed')
    ensures DistinctIds(fs) && out == [] && placed == {} && ParentsFirst(fs, fs) ==> out' == fs
  {
    hide Between, EscapedAll, Stuck, InBundle, ParentsFirst, Names, DistinctIds;
    out', placed', progress, from' := out, placed, false, from;
    ghost var straight := DistinctIds(fs) && out == [] && placed == {} && ParentsFirst(fs, fs);
    for i := 0 to |fs|
      invariant Between(fs, out', placed', from') && (DistinctIds(fs) ==> EscapedAll(fs, from'))
      invariant |out'| >= |out| && (progress <==> |out'| > |out|)
      invariant !progress ==> AllWait(fs, ids, placed', i)
      invariant straight ==> AsTheyCame(fs, out', placed', i)
    {
      if fs[i].id !in placed' {
        if !Waits(fs[i], ids, placed') {
          PlaceOne(fs, ids, out', placed', from', i);
          if straight { AsTheyCameMore(fs, out', placed', i); }
          out', placed', from', progress := out' + [fs[i]], placed' + {fs[i].id}, from' + [i], true;
        } else {
          if straight { EarlierIsPlaced(fs, ids, out', placed', i); }
        }
      }
    }
    if !progress { AllWaitStuck(fs, ids, placed'); }
  }

  lemma EarlierIsPlaced(fs: seq<Folder>, ids: set<Id>, out: seq<Folder>, placed: set<Id>, i: nat)
    requires Names(fs, ids) && ParentsFirst(fs, fs) && i < |fs| && AsTheyCame(fs, out, placed, i)
    ensures !Waits(fs[i], ids, placed)
  {
  }

  lemma PlaceOne(fs: seq<Folder>, ids: set<Id>, out: seq<Folder>, placed: set<Id>, from: seq<nat>, i: nat)
    requires Between(fs, out, placed, from) && (DistinctIds(fs) ==> EscapedAll(fs, from)) && i < |fs|
      && fs[i].id !in placed
    requires Names(fs, ids) && !Waits(fs[i], ids, placed)
    ensures Between(fs, out + [fs[i]], placed + {fs[i].id}, from + [i])
    ensures DistinctIds(fs) ==> EscapedAll(fs, from + [i])
  {
    hide DistinctIds, EscapedAll, Partial, OnceEach;
    assert InBundle(fs, fs[i].id);
    OnceMore(fs, out, placed, fs[i]);
    if DistinctIds(fs) { PlaceDistinct(fs, ids, out, placed, from, i); }
  }

  lemma PlaceDistinct(fs: seq<Folder>, ids: set<Id>, out: seq<Folder>, placed: set<Id>, from: seq<nat>, i: nat)
    requires DistinctIds(fs) && Partial(fs, out, placed, from) && EscapedAll(fs, from) && i < |fs|
      && fs[i].id !in placed
    requires Names(fs, ids) && !Waits(fs[i], ids, placed)
    ensures Partial(fs, out + [fs[i]], placed + {fs[i].id}, from + [i]) && EscapedAll(fs, from + [i])
  {
    PlacedEscapes(fs, i, placed, from);
    PartialMore(fs, out, placed, from, i);
    hide Partial;
    var n: nat :| Escapes(fs, i, n);
    forall x: nat | x in from + [i] && x < |fs| ensures exists m: nat :: Escapes(fs, x, m) {
      if x != i { assert x in from; }
    }
  }

  lemma FlushOne(fs: seq<Folder>, was: set<Id>, out: seq<Folder>, placed: set<Id>, from: seq<nat>, i: nat)
    requires Between(fs, out, placed, from) && i < |fs| && fs[i].id !in placed
    requires Stuck(fs, was) && fs[i].id !in was
    ensures Between(fs, out + [fs[i].(parent := "")], placed + {fs[i].id}, from + [i])
  {
    assert Trapped(fs, i) by {
      hide Between;
      forall n: nat ensures !Escapes(fs, i, n) { StuckTraps(fs, was, i, n); }
    }
    assert InBundle(fs, fs[i].id);
    hide Partial, Trapped, Stuck, OnceEach, InBundle;
    OnceMore(fs, out, placed, fs[i].(parent := ""));
    if DistinctIds(fs) { PartialMore(fs, out, placed, from, i); }
  }

  /** Everything left over is trapped, and goes to the top level. */
  method Flush(fs: seq<Folder>, out: seq<Folder>, placed: set<Id>, ghost from: seq<nat>)
    returns (out': seq<Folder>, placed': set<Id>, ghost from': seq<nat>)
    requires Between(fs, out, placed, from) && Stuck(fs, placed)
    ensures Between(fs, out', placed', from')
    ensures DistinctIds(fs) ==> |out'| == |fs|
  {
    hide Between, Stuck, DistinctIds;
    out', placed', from' := out, placed, from;
    for i := 0 to |fs|
      invariant Between(fs, out', placed', from') && placed <= placed'
      invariant forall j :: 0 <= j < i ==> fs[j].id in placed'
    {
      if fs[i].id !in placed' {
        FlushOne(fs, placed, out', placed', from', i);
        out', placed', from' := out' + [fs[i].(parent := "")], placed' + {fs[i].id}, from' + [i];
      }
    }
    if DistinctIds(fs) { Settled(fs, out', placed', from'); }
  }

  lemma Settled(fs: seq<Folder>, out: seq<Folder>, placed: set<Id>, from: seq<nat>)
    requires Between(fs, out, placed, from) && DistinctIds(fs)
    ensures Partial(fs, out, placed, from) && |out| <= |fs|
    ensures (forall i :: 0 <= i < |fs| ==> fs[i].id in placed) ==> |out| == |fs|
  {
    PartialBound(fs, out, placed, from);
  }

  /**
   inParentOrder. Each folder comes out once, after its parent if that is in the bundle; only
   those that can never be reached from outside the bundle lose their parent; and a list that
   already has parents first is left as it is.
   */
  method InParentOrder(fs: seq<Folder>) returns (out: seq<Folder>, ghost from: seq<nat>)
    requires DistinctIds(fs)
    ensures |out| == |fs| && Arranged(fs, out, from) && ParentsFirst(fs, out)
    ensures ParentsFirst(fs, fs) ==> out == fs
  {
    var ids := set i | 0 <= i < |fs| :: fs[i].id;
    var placed: set<Id> := {};
    out, from := [], [];
    assert Between(fs, out, placed, from) && Names(fs, ids);
    hide Between, Names, EscapedAll, ParentsFirst, Arranged, DistinctIds, Stuck;
    while |out| < |fs|
      invariant Between(fs, out, placed, from) && |out| <= |fs|
      invariant |out| < |fs| ==> EscapedAll(fs, from)
      invariant ParentsFirst(fs, fs) && out != [] ==> out == fs
      invariant out == [] ==> placed == {}
      decreases |fs| - |out|
    {
      var progress;
      out, placed, progress, from := Pass(fs, ids, out, placed, from);
      Settled(fs, out, placed, from);
      if !progress {
        out, placed, from := Flush(fs, out, placed, from);
      }
    }
    Settled(fs, out, placed, from);
  }
}
