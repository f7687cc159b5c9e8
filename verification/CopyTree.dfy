/** Copying a directory from one host to another: what is listed, and what the destination ends up with. */
module CopyTree {
  import opened CopyPaths

  type Byte = x: int | 0 <= x < 256

  datatype Entry = Entry(name: string, node: Node)

  datatype Node = File(content: seq<Byte>) | Dir(entries: seq<Entry>) | Link

  /** One line of the walk; the path is relative to the directory copied. */
  datatype Walked = Walked(path: Path, size: nat, isDir: bool)

  // The walk.

  function Weight(es: seq<Entry>): nat {
    if es == [] then 0 else 1 + (if es[0].node.Dir? then Weight(es[0].node.entries) else 0) + Weight(es[1..])
  }

  function Dirs(es: seq<Entry>): seq<Entry> {
    if es == [] then [] else if es[0].node.Dir? then [es[0]] + Dirs(es[1..]) else Dirs(es[1..])
  }

  function Others(es: seq<Entry>): seq<Entry> {
    if es == [] then [] else if !es[0].node.Dir? then [es[0]] + Others(es[1..]) else Others(es[1..])
  }

  /** The stable sort that puts directories before everything else. */
  function DirsFirst(es: seq<Entry>): seq<Entry> { Dirs(es) + Others(es) }

  lemma {:induction false} WeightJoin(a: seq<Entry>, b: seq<Entry>)
    ensures Weight(a + b) == Weight(a) + Weight(b)
  {
    if a == [] {
      assert a + b == b;
    } else {
      assert (a + b)[1..] == a[1..] + b;
      WeightJoin(a[1..], b);
    }
  }

  lemma {:induction false} WeightParts(es: seq<Entry>)
    ensures Weight(Dirs(es)) + Weight(Others(es)) == Weight(es)
  {
    if es != [] {
      WeightParts(es[1..]);
      if es[0].node.Dir? {
        assert ([es[0]] + Dirs(es[1..]))[1..] == Dirs(es[1..]);
      } else {
        assert ([es[0]] + Others(es[1..]))[1..] == Others(es[1..]);
      }
    }
  }

  lemma WeightSorted(es: seq<Entry>)
    ensures Weight(DirsFirst(es)) == Weight(es)
  {
    WeightJoin(Dirs(es), Others(es));
    WeightParts(es);
  }

  lemma {:induction false} WeightOf(es: seq<Entry>, i: nat)
    requires i < |es| && es[i].node.Dir?
    ensures Weight(es[i].node.entries) < Weight(es)
  {
    if i > 0 { WeightOf(es[1..], i - 1); }
  }

  lemma {:induction false} SortedHas(es: seq<Entry>, e: Entry)
    ensures e in DirsFirst(es) <==> e in es
  {
    if es != [] {
      SortedHas(es[1..], e);
      assert e in es <==> e == es[0] || e in es[1..];
    }
  }

  lemma NoParts()
    ensures Dirs([]) == [] && Others([]) == []
  {
  }

  lemma {:induction false} DirsJoin(a: seq<Entry>, b: seq<Entry>)
    ensures Dirs(a + b) == Dirs(a) + Dirs(b)
  {
    hide Dirs;
    if a == [] {
      NoParts();
      assert a + b == b && [] + Dirs(b) == Dirs(b);
    } else {
      DirsJoin(a[1..], b);
      DirsCons(a);
      DirsCons(a + b);
      assert (a + b)[1..] == a[1..] + b;
    }
  }

  lemma DirsCons(es: seq<Entry>)
    requires es != []
    ensures Dirs(es) == (if es[0].node.Dir? then [es[0]] else []) + Dirs(es[1..])
  {
  }

  lemma {:induction false} OthersJoin(a: seq<Entry>, b: seq<Entry>)
    ensures Others(a + b) == Others(a) + Others(b)
  {
    hide Others;
    if a == [] {
      NoParts();
      assert a + b == b && [] + Others(b) == Others(b);
    } else {
      OthersJoin(a[1..], b);
      OthersCons(a);
      OthersCons(a + b);
      assert (a + b)[1..] == a[1..] + b;
    }
  }

  lemma OthersCons(es: seq<Entry>)
    requires es != []
    ensures Others(es) == (if es[0].node.Dir? then [] else [es[0]]) + Others(es[1..])
  {
  }

  lemma PartsJoin(a: seq<Entry>, b: seq<Entry>)
    ensures Dirs(a + b) == Dirs(a) + Dirs(b) && Others(a + b) == Others(a) + Others(b)
  {
    hide Dirs, Others;
    DirsJoin(a, b);
    OthersJoin(a, b);
  }

  lemma {:induction false} PartKinds(es: seq<Entry>)
    ensures forall i :: 0 <= i < |Dirs(es)| ==> Dirs(es)[i].node.Dir?
    ensures forall i :: 0 <= i < |Others(es)| ==> !Others(es)[i].node.Dir?
  {
    if es != [] { PartKinds(es[1..]); }
  }

  /** No directory comes after anything else, and of one kind what came first still does. */
  lemma SortedStably(a: seq<Entry>, x: Entry, b: seq<Entry>, y: Entry, c: seq<Entry>)
    requires x.node.Dir? == y.node.Dir?
    ensures var es := a + [x] + b + [y] + c;
            && (forall i, j ::
                0 <= i < j < |DirsFirst(es)| && DirsFirst(es)[j].node.Dir? ==> DirsFirst(es)[i].node.Dir?)
            && exists i, j :: 0 <= i < j < |DirsFirst(es)| && DirsFirst(es)[i] == x && DirsFirst(es)[j] == y
  {
    var es := a + [x] + b + [y] + c;
    PartKinds(es);
    PartsJoin(a + [x] + b + [y], c);
    PartsJoin(a + [x] + b, [y]);
    PartsJoin(a + [x], b);
    PartsJoin(a, [x]);
    OneKind(x);
    OneKind(y);
    hide Dirs, Others;
    if x.node.Dir? {
      var i, j := |Dirs(a)|, |Dirs(a)| + 1 + |Dirs(b)|;
      assert Dirs(es) == Dirs(a) + [x] + Dirs(b) + [y] + Dirs(c);
      assert DirsFirst(es)[i] == x && DirsFirst(es)[j] == y;
    } else {
      var i, j := |Dirs(es)| + |Others(a)|, |Dirs(es)| + |Others(a)| + 1 + |Others(b)|;
      assert Others(es) == Others(a) + [x] + Others(b) + [y] + Others(c);
      assert DirsFirst(es)[i] == x && DirsFirst(es)[j] == y;
    }
  }

  lemma OneKind(e: Entry)
    ensures Dirs([e]) == if e.node.Dir? then [e] else []
    ensures Others([e]) == if e.node.Dir? then [] else [e]
  {
    assert [e][1..] == [];
  }

  /** The entries under `name`, seen from above. */
  function Beneath(at: Path, ws: seq<Walked>): seq<Walked> {
    seq(|ws|, i requires 0 <= i < |ws| => ws[i].(path := at + ws[i].path))
  }

  /** A directory's line comes before the lines for what is in it; links are left out. */
  function WalkOf(es: seq<Entry>): seq<Walked>
    decreases Weight(es)
  {
    if es == [] then []
    else
      var e := es[0];
      match e.node
      case Link => WalkOf(es[1..])
      case File(content) => [Walked([e.name], |content|, false)] + WalkOf(es[1..])
      case Dir(inner) =>
        WeightSorted(inner);
        [Walked([e.name], 0, true)] + Beneath([e.name], WalkOf(DirsFirst(inner))) + WalkOf(es[1..])
  }

  lemma BeneathJoin(at: Path, a: seq<Walked>, b: seq<Walked>)
    ensures Beneath(at, a + b) == Beneath(at, a) + Beneath(at, b)
  {
  }

  lemma BeneathTwice(at: Path, name: string, ws: seq<Walked>)
    ensures Beneath(at, Beneath([name], ws)) == Beneath(at + [name], ws)
  {
    forall i | 0 <= i < |ws| ensures at + ([name] + ws[i].path) == at + [name] + ws[i].path { }
  }

  /** The lines for one entry. */
  function EntryLines(e: Entry): seq<Walked> {
    match e.node
    case Link => []
    case File(content) => [Walked([e.name], |content|, false)]
    case Dir(inner) => [Walked([e.name], 0, true)] + Beneath([e.name], WalkOf(DirsFirst(inner)))
  }

  lemma WalkHead(es: seq<Entry>)
    requires es != []
    ensures WalkOf(es) == EntryLines(es[0]) + WalkOf(es[1..])
  {
    hide Dirs, Others, Beneath;
  }

  lemma WalkSplit(at: Path, es: seq<Entry>, i: nat)
    requires i < |es|
    ensures Beneath(at, WalkOf(es[i..])) == Beneath(at, EntryLines(es[i])) + Beneath(at, WalkOf(es[i + 1..]))
  {
    hide Dirs, Others, Beneath;
    assert es[i..][0] == es[i] && es[i..][1..] == es[i + 1..];
    assert WalkOf(es[i..]) == EntryLines(es[i]) + WalkOf(es[i + 1..]);
    BeneathJoin(at, EntryLines(es[i]), WalkOf(es[i + 1..]));
  }

  lemma EntryBeneath(at: Path, e: Entry)
    ensures match e.node
            case Link => Beneath(at, EntryLines(e)) == []
            case File(content) => Beneath(at, EntryLines(e)) == [Walked(at + [e.name], |content|, false)]
            case Dir(inner) =>
              Beneath(at, EntryLines(e))
              == [Walked(at + [e.name], 0, true)] + Beneath(at + [e.name], WalkOf(DirsFirst(inner)))
  {
    hide Dirs, Others, WalkOf;
    if e.node.Dir? {
      var ws := WalkOf(DirsFirst(e.node.entries));
      BeneathTwice(at, e.name, ws);
      BeneathJoin(at, [Walked([e.name], 0, true)], Beneath([e.name], ws));
    }
  }

  /** walk's inner function, appending to what has been found. */
  method Descend(es: seq<Entry>, at: Path, out: seq<Walked>) returns (r: seq<Walked>)
    ensures r == out + Beneath(at, WalkOf(DirsFirst(es)))
    decreases Weight(es)
  {
    hide DirsFirst, WalkOf, Beneath, EntryLines, Weight;
    var sorted := DirsFirst(es);
    WeightSorted(es);
    r := out;
    assert sorted[0..] == sorted;
    for i := 0 to |sorted|
      invariant r + Beneath(at, WalkOf(sorted[i..])) == out + Beneath(at, WalkOf(sorted))
    {
      var e := sorted[i];
      WalkSplit(at, sorted, i);
      EntryBeneath(at, e);
      ghost var rest := Beneath(at, WalkOf(sorted[i + 1..]));
      ghost var was := r;
      match e.node {
        case Link =>
          assert [] + rest == rest;
        case File(content) =>
          r := r + [Walked(at + [e.name], |content|, false)];
        case Dir(inner) =>
          WeightOf(sorted, i);
          r := Descend(inner, at + [e.name], r + [Walked(at + [e.name], 0, true)]);
      }
      assert r == was + Beneath(at, EntryLines(e));
      assert r + rest == was + (Beneath(at, EntryLines(e)) + rest);
    }
    NothingBeneath(at);
    assert sorted[|sorted|..] == [];
  }

  lemma NothingBeneath(at: Path)
    ensures Beneath(at, WalkOf([])) == []
  {
  }

  // What the walk lists.

  /** At `path` under these entries there is `node`, reached through directories only. */
  ghost predicate Has(es: seq<Entry>, path: Path, node: Node)
    decreases |path|, 0
  {
    path != [] && exists i :: 0 <= i < |es| && es[i].name == path[0] && HasIn(es[i].node, path[1..], node)
  }

  ghost predicate HasIn(top: Node, path: Path, node: Node)
    decreases |path|, 1
  {
    if path == [] then top == node else top.Dir? && Has(top.entries, path, node)
  }

  function Described(path: Path, node: Node): Walked
    requires !node.Link?
  {
    Walked(path, if node.File? then |node.content| else 0, node.Dir?)
  }

  lemma HasMember(es: seq<Entry>, e: Entry, path: Path, node: Node)
    requires e in es && path != [] && e.name == path[0] && HasIn(e.node, path[1..], node)
    ensures Has(es, path, node)
  {
    var i :| 0 <= i < |es| && es[i] == e;
  }

  lemma HasSorted(es: seq<Entry>, path: Path, node: Node)
    ensures Has(DirsFirst(es), path, node) <==> Has(es, path, node)
  {
    if Has(es, path, node) {
      var i :| 0 <= i < |es| && es[i].name == path[0] && HasIn(es[i].node, path[1..], node);
      SortedHas(es, es[i]);
      HasMember(DirsFirst(es), es[i], path, node);
    }
    if Has(DirsFirst(es), path, node) {
      var s := DirsFirst(es);
      var i :| 0 <= i < |s| && s[i].name == path[0] && HasIn(s[i].node, path[1..], node);
      SortedHas(es, s[i]);
      HasMember(es, s[i], path, node);
    }
  }

  /** Everything that is there and is not a link is listed. */
  lemma {:induction false} WalkComplete(es: seq<Entry>, path: Path, node: Node)
    requires Has(es, path, node) && !node.Link?
    ensures Described(path, node) in WalkOf(es)
    decreases Weight(es)
  {
    hide Dirs, Others;
    var e := es[0];
    if e.name == path[0] && HasIn(e.node, path[1..], node) {
      if |path| == 1 {
        assert path == [e.name] && e.node == node;
        assert WalkOf(es)[0] == Described(path, node);
      } else {
        var inner := e.node.entries;
        HasSorted(inner, path[1..], node);
        WeightSorted(inner);
        WalkComplete(DirsFirst(inner), path[1..], node);
        var ws := WalkOf(DirsFirst(inner));
        var i :| 0 <= i < |ws| && ws[i] == Described(path[1..], node);
        assert [e.name] + path[1..] == path;
        assert Beneath([e.name], ws)[i] == Described(path, node);
        assert WalkOf(es)[1 + i] == Described(path, node);
      }
    } else {
      var i :| 0 <= i < |es| && es[i].name == path[0] && HasIn(es[i].node, path[1..], node);
      assert es[1..][i - 1] == es[i];
      HasMember(es[1..], es[i], path, node);
      WalkComplete(es[1..], path, node);
    }
  }

  lemma WeightRest(es: seq<Entry>)
    requires es != []
    ensures Weight(es[1..]) < Weight(es) && (es[0].node.Dir? ==> Weight(DirsFirst(es[0].node.entries)) < Weight(es))
  {
    hide Dirs, Others;
    if es[0].node.Dir? { WeightSorted(es[0].node.entries); }
  }

  lemma HasRest(es: seq<Entry>, path: Path, node: Node)
    requires es != [] && Has(es[1..], path, node)
    ensures Has(es, path, node)
  {
    var i :| 0 <= i < |es[1..]| && es[1..][i].name == path[0] && HasIn(es[1..][i].node, path[1..], node);
    assert es[i + 1] == es[1..][i];
  }

  /** And nothing else is. */
  lemma {:induction false} WalkSound(es: seq<Entry>, w: Walked) returns (node: Node)
    requires w in WalkOf(es)
    ensures Has(es, w.path, node) && !node.Link? && w == Described(w.path, node)
    decreases Weight(es)
  {
    hide Dirs, Others;
    var e := es[0];
    WeightRest(es);
    if w in WalkOf(es[1..]) {
      node := WalkSound(es[1..], w);
      HasRest(es, w.path, node);
    } else if e.node.Dir? && w in Beneath([e.name], WalkOf(DirsFirst(e.node.entries))) {
      var ws := WalkOf(DirsFirst(e.node.entries));
      var i :| 0 <= i < |ws| && w == ws[i].(path := [e.name] + ws[i].path);
      node := WalkSound(DirsFirst(e.node.entries), ws[i]);
      HasSorted(e.node.entries, ws[i].path, node);
      assert w.path[1..] == ws[i].path;
    } else {
      node := e.node;
      assert w.path == [e.name];
      assert HasIn(e.node, w.path[1..], node);
    }
  }

  /** A directory is listed before anything in it. */
  ghost predicate ParentBefore(ws: seq<Walked>, i: nat) {
    i < |ws| && (|ws[i].path| > 1 ==> exists j ::
        0 <= j < i && ws[j].isDir && ws[j].path == ws[i].path[..|ws[i].path| - 1])
  }

  lemma SomeEntry(es: seq<Entry>)
    ensures WalkOf(es) != [] ==> es != []
  {
  }

  lemma ParentFirst(a: seq<Walked>, b: seq<Walked>, i: nat)
    requires ParentBefore(a, i)
    ensures ParentBefore(a + b, i) && (a + b)[i] == a[i]
  {
    var all := a + b;
    if |a[i].path| > 1 {
      var j :| 0 <= j < i && a[j].isDir && a[j].path == a[i].path[..|a[i].path| - 1];
      assert all[j] == a[j] && all[i] == a[i];
    }
  }

  lemma ParentSecond(a: seq<Walked>, b: seq<Walked>, i: nat)
    requires ParentBefore(b, i)
    ensures ParentBefore(a + b, |a| + i) && (a + b)[|a| + i] == b[i]
  {
    var all := a + b;
    assert all[|a| + i] == b[i];
    if |b[i].path| > 1 {
      var j :| 0 <= j < i && b[j].isDir && b[j].path == b[i].path[..|b[i].path| - 1];
      assert all[|a| + j] == b[j];
    }
  }

  lemma ParentBeneath(name: string, ws: seq<Walked>, i: nat)
    requires ParentBefore(ws, i) && ws[i].path != []
    ensures ParentBefore([Walked([name], 0, true)] + Beneath([name], ws), 1 + i)
  {
    var all := [Walked([name], 0, true)] + Beneath([name], ws);
    assert all[1 + i].path == [name] + ws[i].path;
    if |ws[i].path| > 1 {
      var j :| 0 <= j < i && ws[j].isDir && ws[j].path == ws[i].path[..|ws[i].path| - 1];
      assert all[1 + j].path == [name] + ws[j].path;
      assert all[1 + i].path[..|all[1 + i].path| - 1] == [name] + ws[j].path;
    } else {
      assert all[1 + i].path[..1] == all[0].path;
    }
  }

  lemma {:induction false} ParentsListed(es: seq<Entry>, i: nat)
    requires i < |WalkOf(es)|
    ensures ParentBefore(WalkOf(es), i) && WalkOf(es)[i].path != []
    decreases Weight(es)
  {
    hide DirsFirst, WalkOf, Weight, ParentBefore;
    SomeEntry(es);
    WeightRest(es);
    WalkHead(es);
    var e, lines, rest := es[0], EntryLines(es[0]), WalkOf(es[1..]);
    if i >= |lines| {
      ParentsListed(es[1..], i - |lines|);
      ParentSecond(lines, rest, i - |lines|);
    } else {
      if i > 0 {
        var ws := WalkOf(DirsFirst(e.node.entries));
        ParentsListed(DirsFirst(e.node.entries), i - 1);
        ParentBeneath(e.name, ws, i - 1);
      } else {
        ParentOfFirst(lines);
      }
      ParentFirst(lines, rest, i);
    }
  }

  lemma ParentOfFirst(lines: seq<Walked>)
    requires lines != [] && |lines[0].path| == 1
    ensures ParentBefore(lines, 0)
  {
  }

  // A path names one thing.

  ghost predicate DistinctNames(es: seq<Entry>)
    decreases Weight(es)
  {
    && (forall i, j :: 0 <= i < j < |es| ==> es[i].name != es[j].name)
    && (forall i :: 0 <= i < |es| && es[i].node.Dir? ==> (WeightOf(es, i); DistinctNames(es[i].node.entries)))
  }

  lemma {:induction false} HasOne(es: seq<Entry>, path: Path, n: Node, m: Node)
    requires DistinctNames(es) && Has(es, path, n) && Has(es, path, m)
    ensures n == m
    decreases |path|
  {
    var i :| 0 <= i < |es| && es[i].name == path[0] && HasIn(es[i].node, path[1..], n);
    var j :| 0 <= j < |es| && es[j].name == path[0] && HasIn(es[j].node, path[1..], m);
    assert i == j;
    if |path| > 1 { HasOne(es[i].node.entries, path[1..], n, m); }
  }

  /** On the way to anything there are directories. */
  lemma {:induction false} HasAbove(es: seq<Entry>, path: Path, node: Node, k: nat) returns (d: Node)
    requires Has(es, path, node) && 0 < k < |path|
    ensures d.Dir? && Has(es, path[..k], d)
    decreases |path|
  {
    var i :| 0 <= i < |es| && es[i].name == path[0] && HasIn(es[i].node, path[1..], node);
    if k == 1 {
      d := es[i].node;
      assert path[..1][1..] == [];
    } else {
      d := HasAbove(es[i].node.entries, path[1..], node, k - 1);
      assert path[..k][1..] == path[1..][..k - 1];
    }
    assert HasIn(es[i].node, path[..k][1..], d);
  }

  // Names as a directory lists them.

  ghost predicate PlainNames(es: seq<Entry>)
    decreases Weight(es)
  {
    && (forall i :: 0 <= i < |es| ==> PlainName(es[i].name))
    && (forall i :: 0 <= i < |es| && es[i].node.Dir? ==> (WeightOf(es, i); PlainNames(es[i].node.entries)))
  }

  lemma {:induction false} HasPlain(es: seq<Entry>, path: Path, node: Node)
    requires PlainNames(es) && Has(es, path, node)
    ensures PlainPath(path)
    decreases |path|
  {
    hide PlainName;
    var i :| 0 <= i < |es| && es[i].name == path[0] && HasIn(es[i].node, path[1..], node);
    if |path| > 1 { HasPlain(es[i].node.entries, path[1..], node); }
    forall k | 0 <= k < |path| ensures PlainName(path[k]) {
      if k > 0 { assert path[k] == path[1..][k - 1]; }
    }
  }
}
