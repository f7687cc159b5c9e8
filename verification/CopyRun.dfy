/** Carrying out a copy: streaming each file, counting what the other side took, building up the destination. */
module CopyRun {
  import opened CopyPaths
  import opened CopyTree

  // One file.

  datatype ReadEnd = More | Eof | Broken

  /** One turn of the loop: what reading gave, and how much of it writing took. */
  datatype Round = Round(cancelled: bool, data: seq<Byte>, end: ReadEnd, written: nat, writeFails: bool)

  datatype Verdict = Done | Cancelled | WriteError | ShortWrite | ReadError | Running

  function AllData(rounds: seq<Round>): seq<Byte> {
    if rounds == [] then [] else AllData(rounds[..|rounds| - 1]) + rounds[|rounds| - 1].data
  }

  /** A writer never takes more than it is given. */
  ghost predicate Honest(rounds: seq<Round>) { forall i :: 0 <= i < |rounds| ==> rounds[i].written <= |rounds[i].data| }

  /** The first turn at which reading came to the end of the file. */
  ghost predicate EndsAt(rounds: seq<Round>, k: nat) {
    k < |rounds| && rounds[k].end == Eof && forall i :: 0 <= i < k ==> rounds[i].end == More
  }

  /** A turn that goes on: not cancelled, and everything read was taken. */
  predicate Smooth(r: Round) { !r.cancelled && (r.data != [] ==> !r.writeFails && r.written == |r.data|) }

  /** The end is reached, and every turn up to it is smooth. */
  ghost predicate GoesWell(rounds: seq<Round>) {
    exists k :: EndsAt(rounds, k) && forall i :: 0 <= i <= k ==> Smooth(rounds[i])
  }

  /** How a turn ends the loop, if it does. */
  function Ending(r: Round): Verdict {
    if r.cancelled then Cancelled
    else if r.data != [] && r.writeFails then WriteError
    else if r.written < |r.data| then ShortWrite
    else match r.end case Eof => Done case Broken => ReadError case More => Running
  }

  /** What is taken in a turn. */
  function Took(r: Round): seq<Byte>
    requires r.written <= |r.data|
  {
    if r.cancelled then [] else r.data[..r.written]
  }

  /** The turn that ends the loop is the first that can. */
  ghost predicate StopsAt(rounds: seq<Round>, k: nat) {
    k < |rounds| && Ending(rounds[k]) != Running && forall i :: 0 <= i < k ==> Ending(rounds[i]) == Running
  }

  lemma AllDataOne(rounds: seq<Round>, i: nat)
    requires i < |rounds|
    ensures AllData(rounds[..i + 1]) == AllData(rounds[..i]) + rounds[i].data
  {
    assert rounds[..i + 1][..i] == rounds[..i];
  }

  lemma {:induction false} AllDataPart(rounds: seq<Round>, i: nat)
    requires i <= |rounds|
    ensures AllData(rounds[..i]) <= AllData(rounds)
  {
    if i == |rounds| {
      assert rounds[..i] == rounds;
    } else {
      var n := |rounds| - 1;
      assert rounds[..n][..i] == rounds[..i];
      AllDataPart(rounds[..n], i);
    }
  }

  /**
   stream. On every exit the progress reported is what the writer took, and that is the beginning of
   what was read; it reports success exactly when the end was reached with everything taken.
   */
  method Stream(rounds: seq<Round>) returns (v: Verdict, accepted: seq<Byte>, progress: nat)
    requires Honest(rounds)
    ensures progress == |accepted| && accepted <= AllData(rounds)
    ensures v.Done? <==> GoesWell(rounds)
    ensures v.Done? ==> exists k :: EndsAt(rounds, k) && accepted == AllData(rounds[..k + 1])
    ensures v.Running? ==> accepted == AllData(rounds) && forall i :: 0 <= i < |rounds| ==> Ending(rounds[i]) == Running
    ensures forall k: nat :: StopsAt(rounds, k) ==>
              v == Ending(rounds[k]) && accepted == AllData(rounds[..k]) + Took(rounds[k])
  {
    hide AllData;
    accepted, progress := [], 0;
    assert rounds[..0] == [];
    AllDataPart(rounds, 0);
    assert AllData([]) == [] by { NoData(); }
    for i := 0 to |rounds|
      invariant accepted == AllData(rounds[..i]) && progress == |accepted|
      invariant forall k :: 0 <= k < i ==>
        rounds[k].end == More && Smooth(rounds[k]) && Ending(rounds[k]) == Running
    {
      var round := rounds[i];
      AllDataPart(rounds, i);
      AllDataPart(rounds, i + 1);
      AllDataOne(rounds, i);
      if round.cancelled {
        return Cancelled, accepted, progress;
      }
      if |round.data| > 0 {
        var taken := round.data[..round.written];
        assert accepted + taken <= accepted + round.data;
        accepted := accepted + taken;
        progress := progress + round.written;
        if round.writeFails {
          return WriteError, accepted, progress;
        }
        if round.written != |round.data| {
          return ShortWrite, accepted, progress;
        }
        assert taken == round.data;
      }
      assert accepted == AllData(rounds[..i + 1]);
      if round.end == Eof {
        assert EndsAt(rounds, i);
        return Done, accepted, progress;
      }
      if round.end == Broken {
        return ReadError, accepted, progress;
      }
    }
    assert rounds[..|rounds|] == rounds;
    v := Running;
  }

  lemma NoData()
    ensures AllData([]) == []
  {
  }

  // The destination.

  datatype Item = D | F(content: seq<Byte>)

  type Fs = map<Path, Item>

  /** Mkdir makes what is missing on the way, and minds nothing that is there. */
  function Mkdir(fs: Fs, p: Path): Fs {
    if p == [] then fs
    else
      var above := Mkdir(fs, p[..|p| - 1]);
      if p in above then above else above[p := D]
  }

  lemma {:induction false} MkdirIs(fs: Fs, p: Path, q: Path)
    ensures q in Mkdir(fs, p) <==> q in fs || (q != [] && q <= p)
    ensures q in fs ==> Mkdir(fs, p)[q] == fs[q]
    ensures q !in fs && q != [] && q <= p ==> Mkdir(fs, p)[q] == D
  {
    if p != [] {
      MkdirIs(fs, p[..|p| - 1], q);
      if q <= p && q != p { assert q <= p[..|p| - 1]; }
      if q <= p[..|p| - 1] { assert q <= p; }
    }
  }

  function Parent(p: Path): Path { if p == [] then [] else p[..|p| - 1] }

  /** One entry of the walk, carried out. */
  function Carried(fs: Fs, root: Path, w: Walked, content: seq<Byte>): Fs {
    if w.isDir then Mkdir(fs, root + w.path) else Mkdir(fs, Parent(root + w.path))[root + w.path := F(content)]
  }

  /** What reading each path gives. */
  type Source = map<Path, seq<Byte>>

  function ContentOf(read: Source, p: Path): seq<Byte> { if p in read then read[p] else [] }

  function Replay(fs: Fs, root: Path, ws: seq<Walked>, read: Source): Fs {
    if ws == [] then fs
    else
      var n := |ws| - 1;
      Carried(Replay(fs, root, ws[..n], read), root, ws[n], ContentOf(read, ws[n].path))
  }

  // What replaying a list builds.

  /** `q` is listed, or above something that is. */
  ghost predicate Made(root: Path, ws: seq<Walked>, q: Path) {
    q != [] && exists i :: 0 <= i < |ws| && q <= root + ws[i].path
  }

  ghost predicate FileAt(root: Path, ws: seq<Walked>, q: Path, i: nat)
  { i < |ws| && !ws[i].isDir && q == root + ws[i].path }

  ghost predicate Built(fs: Fs, root: Path, ws: seq<Walked>, read: Source) {
    && (forall q :: q in fs <==> Made(root, ws, q))
    && (forall q, i: nat :: FileAt(root, ws, q, i) ==> q in fs && fs[q] == F(ContentOf(read, ws[i].path)))
    && (forall q :: q in fs && (forall i: nat :: !FileAt(root, ws, q, i)) ==> fs[q] == D)
  }

  /** No file is above another entry, and no two entries have the same path. */
  ghost predicate Coherent(ws: seq<Walked>) {
    forall i, j :: 0 <= i < |ws| && 0 <= j < |ws| && i != j && !ws[j].isDir ==> !(ws[j].path <= ws[i].path)
  }

  lemma MadeMore(root: Path, ws: seq<Walked>, w: Walked, q: Path)
    ensures Made(root, ws + [w], q) <==> Made(root, ws, q) || (q != [] && q <= root + w.path)
  {
    var more := ws + [w];
    if Made(root, ws, q) {
      var i :| 0 <= i < |ws| && q <= root + ws[i].path;
      assert q <= root + more[i].path;
    }
    if q != [] && q <= root + w.path { assert q <= root + more[|ws|].path; }
  }

  lemma CarriedIs(fs: Fs, root: Path, w: Walked, content: seq<Byte>, q: Path)
    requires w.path != []
    ensures q in Carried(fs, root, w, content) <==> q in fs || (q != [] && q <= root + w.path)
    ensures !w.isDir && q == root + w.path ==> Carried(fs, root, w, content)[q] == F(content)
    ensures q in fs && (w.isDir || q != root + w.path) ==> Carried(fs, root, w, content)[q] == fs[q]
    ensures q !in fs && q != [] && q <= root + w.path && (w.isDir || q != root + w.path) ==>
      Carried(fs, root, w, content)[q] == D
  {
    var t := root + w.path;
    MkdirIs(fs, t, q);
    MkdirIs(fs, Parent(t), q);
    if q <= t && q != t { assert q <= t[..|t| - 1]; }
    if q <= t[..|t| - 1] { assert q <= t; }
  }

  lemma FileMore(root: Path, ws: seq<Walked>, w: Walked, q: Path, i: nat)
    ensures FileAt(root, ws + [w], q, i) <==> FileAt(root, ws, q, i) || (i == |ws| && !w.isDir && q == root + w.path)
  {
  }

  lemma BuiltMore(fs: Fs, root: Path, ws: seq<Walked>, w: Walked, read: Source)
    requires Built(fs, root, ws, read) && Coherent(ws + [w]) && w.path != []
    ensures Built(Carried(fs, root, w, ContentOf(read, w.path)), root, ws + [w], read)
  {
    hide Carried, ContentOf;
    var content := ContentOf(read, w.path);
    var fs', more := Carried(fs, root, w, content), ws + [w];
    forall q ensures q in fs' <==> Made(root, more, q) {
      CarriedIs(fs, root, w, content, q);
      MadeMore(root, ws, w, q);
    }
    forall q, i: nat | FileAt(root, more, q, i) ensures q in fs' && fs'[q] == F(ContentOf(read, more[i].path)) {
      CarriedIs(fs, root, w, content, q);
      FileMore(root, ws, w, q, i);
      if i < |ws| {
        assert more[i] == ws[i];
        NotBelow(root, ws, w, i);
      }
    }
    forall q | q in fs' && (forall i: nat :: !FileAt(root, more, q, i)) ensures fs'[q] == D {
      CarriedIs(fs, root, w, content, q);
      forall i: nat ensures !FileAt(root, ws, q, i) { FileMore(root, ws, w, q, i); }
      FileMore(root, ws, w, q, |ws|);
    }
  }

  lemma NotBelow(root: Path, ws: seq<Walked>, w: Walked, i: nat)
    requires Coherent(ws + [w]) && i < |ws| && !ws[i].isDir
    ensures root + w.path != root + ws[i].path
  {
    var more := ws + [w];
    assert more[i] == ws[i] && more[|ws|] == w;
    assert !(more[i].path <= more[|ws|].path);
    assert (root + w.path)[|root|..] == w.path && (root + ws[i].path)[|root|..] == ws[i].path;
  }

  lemma {:induction false} ReplayBuilds(root: Path, ws: seq<Walked>, read: Source)
    requires Coherent(ws) && (forall i :: 0 <= i < |ws| ==> ws[i].path != [])
    ensures Built(Replay(map[], root, ws, read), root, ws, read)
  {
    hide Carried, ContentOf, Built;
    if ws == [] {
      NothingBuilt(root, read);
      assert ws == [];
    } else {
      var n := |ws| - 1;
      assert Coherent(ws[..n]) by {
        forall i, j | 0 <= i < n && 0 <= j < n && i != j && !ws[j].isDir ensures !(ws[..n][j].path <= ws[..n][i].path) {
          assert ws[..n][i] == ws[i] && ws[..n][j] == ws[j];
        }
      }
      ReplayBuilds(root, ws[..n], read);
      assert ws[..n] + [ws[n]] == ws;
      BuiltMore(Replay(map[], root, ws[..n], read), root, ws[..n], ws[n], read);
    }
  }

  lemma NothingBuilt(root: Path, read: Source)
    ensures Built(map[], root, [], read)
  {
  }

  // The walk is such a list.

  ghost predicate PathsDiffer(ws: seq<Walked>) { forall i, j :: 0 <= i < j < |ws| ==> ws[i].path != ws[j].path }

  lemma DifferJoin(a: seq<Walked>, b: seq<Walked>, name: string)
    requires PathsDiffer(a) && PathsDiffer(b)
    requires forall i :: 0 <= i < |a| ==> a[i].path != [] && a[i].path[0] == name
    requires forall i :: 0 <= i < |b| ==> b[i].path != [] && b[i].path[0] != name
    ensures PathsDiffer(a + b)
  {
    var all := a + b;
    forall i, j | 0 <= i < j < |all| ensures all[i].path != all[j].path {
      if j < |a| {
        assert a[i].path != a[j].path;
      } else if i >= |a| {
        assert b[i - |a|].path != b[j - |a|].path;
      } else {
        assert a[i].path[0] != b[j - |a|].path[0];
      }
    }
  }

  lemma DifferBeneath(name: string, ws: seq<Walked>)
    requires PathsDiffer(ws) && forall i :: 0 <= i < |ws| ==> ws[i].path != []
    ensures PathsDiffer([Walked([name], 0, true)] + Beneath([name], ws))
  {
    var all := [Walked([name], 0, true)] + Beneath([name], ws);
    forall i, j | 0 <= i < j < |all| ensures all[i].path != all[j].path {
      assert all[j].path == [name] + ws[j - 1].path && all[j].path[1..] == ws[j - 1].path;
      if i > 0 { assert all[i].path == [name] + ws[i - 1].path && all[i].path[1..] == ws[i - 1].path; }
    }
  }

  /** Nothing is listed twice. */
  lemma {:induction false} WalkOnce(es: seq<Entry>)
    requires DistinctNames(es)
    ensures PathsDiffer(WalkOf(es))
    decreases Weight(es)
  {
    hide DirsFirst, WalkOf, Weight, DistinctNames, PathsDiffer;
    if es == [] {
      NothingTwice();
      assert es == [];
    } else {
      WeightRest(es);
      WalkHead(es);
      DistinctParts(es);
      WalkOnce(es[1..]);
      var e := es[0];
      if e.node.Dir? {
        var inner := DirsFirst(e.node.entries);
        WalkOnce(inner);
        forall i | 0 <= i < |WalkOf(inner)| ensures WalkOf(inner)[i].path != [] { ParentsListed(inner, i); }
        DifferBeneath(e.name, WalkOf(inner));
      } else {
        FewDiffer(EntryLines(e));
      }
      forall i | 0 <= i < |EntryLines(e)| ensures EntryLines(e)[i].path != [] && EntryLines(e)[i].path[0] == e.name { }
      forall j | 0 <= j < |WalkOf(es[1..])| ensures WalkOf(es[1..])[j].path != []
          && WalkOf(es[1..])[j].path[0] != e.name { RestName(es, j); }
      DifferJoin(EntryLines(e), WalkOf(es[1..]), e.name);
    }
  }

  lemma NothingTwice()
    ensures PathsDiffer(WalkOf([]))
  {
  }

  lemma FewDiffer(ws: seq<Walked>)
    requires |ws| <= 1
    ensures PathsDiffer(ws)
  {
  }

  lemma RestName(es: seq<Entry>, j: nat)
    requires es != [] && j < |WalkOf(es[1..])| && (forall k :: 0 < k < |es| ==> es[k].name != es[0].name)
    ensures WalkOf(es[1..])[j].path != [] && WalkOf(es[1..])[j].path[0] != es[0].name
  {
    hide WalkOf;
    var w := WalkOf(es[1..])[j];
    var node := WalkSound(es[1..], w);
    var k :| 0 <= k < |es[1..]| && es[1..][k].name == w.path[0] && HasIn(es[1..][k].node, w.path[1..], node);
    assert es[k + 1] == es[1..][k];
  }

  lemma DistinctParts(es: seq<Entry>)
    requires DistinctNames(es) && es != []
    ensures DistinctNames(es[1..]) && forall k :: 0 < k < |es| ==> es[k].name != es[0].name
    ensures es[0].node.Dir? ==> DistinctNames(DirsFirst(es[0].node.entries))
  {
    hide Dirs, Others;
    var rest := es[1..];
    assert DistinctNames(rest) by {
      forall i, j | 0 <= i < j < |rest| ensures rest[i].name != rest[j].name
      { assert rest[i] == es[i + 1] && rest[j] == es[j + 1]; }
      forall i | 0 <= i < |rest| && rest[i].node.Dir? ensures DistinctNames(rest[i].node.entries)
      { assert rest[i] == es[i + 1]; }
    }
    if es[0].node.Dir? { DistinctSorted(es[0].node.entries); }
  }

  lemma {:induction false} PartNames(es: seq<Entry>, name: string)
    requires forall i :: 0 <= i < |es| ==> es[i].name != name
    ensures forall i :: 0 <= i < |Dirs(es)| ==> Dirs(es)[i].name != name
    ensures forall i :: 0 <= i < |Others(es)| ==> Others(es)[i].name != name
  {
    if es != [] { PartNames(es[1..], name); }
  }

  ghost predicate NamesDiffer(es: seq<Entry>) { forall i, j :: 0 <= i < j < |es| ==> es[i].name != es[j].name }

  lemma {:induction false} SortedNames(es: seq<Entry>)
    requires NamesDiffer(es)
    ensures NamesDiffer(Dirs(es)) && NamesDiffer(Others(es))
    ensures forall i, j :: 0 <= i < |Dirs(es)| && 0 <= j < |Others(es)| ==> Dirs(es)[i].name != Others(es)[j].name
  {
    if es != [] {
      var rest := es[1..];
      forall i, j | 0 <= i < j < |rest| ensures rest[i].name != rest[j].name
      { assert rest[i] == es[i + 1] && rest[j] == es[j + 1]; }
      SortedNames(rest);
      PartNames(rest, es[0].name);
    }
  }

  lemma DistinctSorted(es: seq<Entry>)
    requires DistinctNames(es)
    ensures DistinctNames(DirsFirst(es))
  {
    var s := DirsFirst(es);
    SortedNames(es);
    hide Dirs, Others;
    forall i, j | 0 <= i < j < |s| ensures s[i].name != s[j].name { }
    forall i | 0 <= i < |s| && s[i].node.Dir? ensures DistinctNames(s[i].node.entries) {
      SortedHas(es, s[i]);
      var k :| 0 <= k < |es| && es[k] == s[i];
    }
  }

  lemma WalkCoherent(es: seq<Entry>)
    requires DistinctNames(es)
    ensures Coherent(WalkOf(es))
  {
    hide DistinctNames, WalkOf;
    var ws := WalkOf(es);
    WalkOnce(es);
    forall i, j | 0 <= i < |ws| && 0 <= j < |ws| && i != j && !ws[j].isDir ensures !(ws[j].path <= ws[i].path) {
      assert ws[i].path != ws[j].path;
      if ws[j].path <= ws[i].path {
        ParentsListed(es, j);
        var n := WalkSound(es, ws[i]);
        var m := WalkSound(es, ws[j]);
        var d := HasAbove(es, ws[i].path, n, |ws[j].path|);
        assert ws[i].path[..|ws[j].path|] == ws[j].path;
        HasOne(es, ws[j].path, d, m);
      }
    }
  }

  /** The source read back: every file of the tree under its path. */
  ghost predicate Reads(es: seq<Entry>, read: Source) {
    forall p, c :: Has(es, p, File(c)) ==> p in read && read[p] == c
  }

  /** The copy of a tree: directories and files where they were, links left out, and the way to it. */
  ghost predicate CopyOf(es: seq<Entry>, root: Path, fs: Fs) {
    && (forall q :: q in fs <==> (q != [] && q <= root) || exists p, node ::
        Has(es, p, node) && !node.Link? && q == root + p)
    && (forall p, node ::
        Has(es, p, node) && !node.Link? ==> root + p in fs && fs[root + p] == if node.Dir? then D else F(node.content))
    && (forall q :: q != [] && q <= root ==> q in fs && fs[q] == D)
  }

  /** There is something to copy under these entries. */
  ghost predicate Visible(es: seq<Entry>) { exists p, node :: Has(es, p, node) && !node.Link? }

  function Listing(es: seq<Entry>): seq<Walked> { WalkOf(DirsFirst(es)) }

  lemma ListedExactly(es: seq<Entry>, p: Path, node: Node)
    requires !node.Link? && Has(es, p, node)
    ensures Described(p, node) in Listing(es)
  {
    hide Dirs, Others, WalkOf;
    HasSorted(es, p, node);
    WalkComplete(DirsFirst(es), p, node);
  }

  lemma ListedOnly(es: seq<Entry>, i: nat) returns (node: Node)
    requires i < |Listing(es)|
    ensures var w := Listing(es)[i];
            w.path != [] && Has(es, w.path, node) && !node.Link? && w == Described(w.path, node)
  {
    hide Dirs, Others, WalkOf;
    var w := Listing(es)[i];
    node := WalkSound(DirsFirst(es), w);
    HasSorted(es, w.path, node);
  }

  lemma ShortPrefix(q: Path, root: Path, p: Path)
    requires q <= root + p
    ensures |q| <= |root| ==> q <= root
  {
  }

  /** Below the copy's own directory, what is made is what was there. */
  lemma MadeBelow(es: seq<Entry>, root: Path, q: Path)
    requires Made(root, Listing(es), q) && !(q <= root)
    ensures exists p, node :: Has(es, p, node) && !node.Link? && q == root + p
  {
    hide Listing;
    var ws := Listing(es);
    var i :| 0 <= i < |ws| && q <= root + ws[i].path;
    var node := ListedOnly(es, i);
    var p := ws[i].path;
    ShortPrefix(q, root, p);
    var k := |q| - |root|;
    assert q == (root + p)[..|q|] == root + p[..k];
    if k == |p| {
      assert p[..k] == p;
    } else {
      var d := HasAbove(es, p, node, k);
    }
  }

  lemma MadeThere(es: seq<Entry>, root: Path, p: Path, node: Node)
    requires Has(es, p, node) && !node.Link?
    ensures exists i: nat ::
      i < |Listing(es)| && Listing(es)[i] == Described(p, node) && root + p <= root + Listing(es)[i].path
    ensures Made(root, Listing(es), root + p)
  {
    hide Listing;
    ListedExactly(es, p, node);
    var i: nat :| i < |Listing(es)| && Listing(es)[i] == Described(p, node);
    assert root + p <= root + Listing(es)[i].path;
  }

  lemma ItemThere(es: seq<Entry>, root: Path, fs: Fs, read: Source, p: Path, node: Node)
    requires DistinctNames(es) && Reads(es, read) && Built(fs, root, Listing(es), read) && Has(es, p, node)
      && !node.Link?
    ensures root + p in fs && fs[root + p] == if node.Dir? then D else F(node.content)
  {
    hide Listing, DistinctNames;
    var ws := Listing(es);
    MadeThere(es, root, p, node);
    if node.File? {
      var i: nat :| i < |ws| && ws[i] == Described(p, node);
      assert FileAt(root, ws, root + p, i);
      assert Has(es, p, File(node.content));
    } else {
      forall i: nat ensures !FileAt(root, ws, root + p, i) {
        if FileAt(root, ws, root + p, i) {
          var m := ListedOnly(es, i);
          assert (root + p)[|root|..] == p && (root + ws[i].path)[|root|..] == ws[i].path;
          HasOne(es, p, node, m);
        }
      }
    }
  }

  lemma AboveThere(es: seq<Entry>, root: Path, fs: Fs, read: Source, q: Path)
    requires Built(fs, root, Listing(es), read) && Listing(es) != [] && q != [] && q <= root
    ensures q in fs && fs[q] == D
  {
    hide Listing;
    var ws := Listing(es);
    assert q <= root + ws[0].path;
    assert Made(root, ws, q);
    forall i: nat ensures !FileAt(root, ws, q, i) {
      if i < |ws| { var m := ListedOnly(es, i); }
    }
  }

  /**
   Replaying the walk on an empty destination gives a copy of the tree without its links, whatever
   was listed in what order, provided there is something to copy.
   */
  lemma Rebuilds(es: seq<Entry>, root: Path, read: Source)
    requires DistinctNames(es) && Reads(es, read) && Visible(es)
    ensures CopyOf(es, root, Replay(map[], root, Listing(es), read))
  {
    hide DistinctNames, Reads, Replay, Built, Made;
    var ws := Listing(es);
    var fs := Replay(map[], root, ws, read);
    ListingBuilds(es, root, read);
    var p, node :| Has(es, p, node) && !node.Link?;
    ListedExactly(es, p, node);
    hide Listing, Has;
    forall q ensures q in fs <==> (q != [] && q <= root) || exists p, node ::
        Has(es, p, node) && !node.Link? && q == root + p {
      BuiltKeys(fs, root, ws, read, q);
      if q in fs && !(q <= root) { MadeBelow(es, root, q); }
      if q != [] && q <= root { AboveThere(es, root, fs, read, q); }
      if p, node :| Has(es, p, node) && !node.Link? && q == root + p { ItemThere(es, root, fs, read, p, node); }
    }
    forall p, node | Has(es, p, node) && !node.Link?
      ensures root + p in fs && fs[root + p] == if node.Dir? then D else F(node.content) {
      ItemThere(es, root, fs, read, p, node);
    }
    forall q | q != [] && q <= root ensures q in fs && fs[q] == D { AboveThere(es, root, fs, read, q); }
  }

  lemma BuiltKeys(fs: Fs, root: Path, ws: seq<Walked>, read: Source, q: Path)
    requires Built(fs, root, ws, read)
    ensures q in fs <==> Made(root, ws, q)
    ensures q in fs ==> q != []
  {
  }

  lemma ListingBuilds(es: seq<Entry>, root: Path, read: Source)
    requires DistinctNames(es)
    ensures Built(Replay(map[], root, Listing(es), read), root, Listing(es), read)
  {
    hide DistinctNames, Dirs, Others, Built, Replay;
    DistinctSorted(es);
    WalkCoherent(DirsFirst(es));
    forall i | 0 <= i < |Listing(es)| ensures Listing(es)[i].path != [] { var node := ListedOnly(es, i); }
    hide Listing;
    ReplayBuilds(root, Listing(es), read);
  }

  /** An empty directory, or one with nothing but links, is not even made. */
  lemma RootMadeExactly(es: seq<Entry>, root: Path, read: Source)
    requires DistinctNames(es) && Reads(es, read) && root != []
    ensures root in Replay(map[], root, Listing(es), read) <==> Visible(es)
  {
    hide DistinctNames, Reads, Listing, Has;
    if Visible(es) {
      Rebuilds(es, root, read);
    } else if Listing(es) != [] {
      var node := ListedOnly(es, 0);
    }
  }

  /** For one, an empty directory, or one with a single link. */
  lemma NothingMade(root: Path, read: Source)
    requires root != []
    ensures root !in Replay(map[], root, Listing([]), read)
      && root !in Replay(map[], root, Listing([Entry("l", Link)]), read)
  {
    assert Listing([]) == [];
    var es := [Entry("l", Link)];
    assert es[1..] == [];
    assert DirsFirst(es) == es by { assert Dirs(es) == [] && Others(es) == [es[0]] + []; }
    assert WalkOf(es) == WalkOf([]) == [];
  }

  // A whole job.

  /** How copying one file goes: whether both sides open, what streaming does, whether closing works. */
  datatype Script = Script(opens: bool, rounds: seq<Round>, closes: bool)

  function TotalBytes(ws: seq<Walked>): nat {
    if ws == [] then 0 else TotalBytes(ws[..|ws| - 1]) + ws[|ws| - 1].size
  }

  /** The source has not changed since the walk: what can be read at a path to its end is what was listed. */
  ghost predicate Delivers(w: Walked, sc: Script, read: Source) {
    && Honest(sc.rounds) && (w.isDir ==> w.size == 0)
    && (!w.isDir ==> |ContentOf(read, w.path)| == w.size
                     && forall k :: EndsAt(sc.rounds, k) ==> AllData(sc.rounds[..k + 1]) == ContentOf(read, w.path))
  }

  /** Nothing on the way is a file. */
  predicate CanMkdir(fs: Fs, p: Path) { forall k :: 0 < k <= |p| && p[..k] in fs ==> fs[p[..k]].D? }

  function FilePaths(ws: seq<Walked>): seq<Path> {
    if ws == [] then []
    else
      var n := |ws| - 1;
      if ws[n].isDir then FilePaths(ws[..n]) else FilePaths(ws[..n]) + [ws[n].path]
  }

  function SumLen(written: seq<seq<Byte>>): nat {
    if written == [] then 0 else SumLen(written[..|written| - 1]) + |written[|written| - 1]|
  }

  /** The destination holds, at these paths, what was written. */
  ghost predicate Holds(fs: Fs, root: Path, paths: seq<Path>, written: seq<seq<Byte>>) {
    |paths| == |written| && forall k ::
        0 <= k < |paths| ==> root + paths[k] in fs && fs[root + paths[k]] == F(written[k])
  }

  lemma HoldsStill(fs: Fs, root: Path, paths: seq<Path>, written: seq<seq<Byte>>, p: Path)
    requires Holds(fs, root, paths, written)
    ensures Holds(Mkdir(fs, p), root, paths, written)
  {
    hide Mkdir;
    forall k | 0 <= k < |paths| ensures root + paths[k] in Mkdir(fs, p)
        && Mkdir(fs, p)[root + paths[k]] == F(written[k]) {
      MkdirIs(fs, p, root + paths[k]);
    }
  }

  lemma HoldsMore(fs: Fs, root: Path, paths: seq<Path>, written: seq<seq<Byte>>, p: Path, data: seq<Byte>)
    requires Holds(fs, root, paths, written) && p !in paths
    ensures Holds(fs[root + p := F(data)], root, paths + [p], written + [data])
    ensures SumLen(written + [data]) == SumLen(written) + |data|
  {
    assert (written + [data])[..|written|] == written;
    forall k | 0 <= k < |paths| ensures root + paths[k] != root + p {
      assert (root + paths[k])[|root|..] == paths[k] && (root + p)[|root|..] == p;
    }
  }

  lemma {:induction false} FilesBefore(ws: seq<Walked>, i: nat, n: nat)
    requires Coherent(ws) && n <= i < |ws| && !ws[i].isDir
    ensures ws[i].path !in FilePaths(ws[..n])
  {
    if n > 0 {
      FilesBefore(ws, i, n - 1);
      assert ws[..n][..n - 1] == ws[..n - 1];
      if !ws[n - 1].isDir { assert !(ws[n - 1].path <= ws[i].path); }
    }
  }

  /** copyFile: what the destination holds afterwards is what was counted, and all of the file on success. */
  method CopyFile(fs: Fs, target: Path, w: Walked, sc: Script, overwrite: bool, ghost read: Source)
    returns (ok: bool, after: Fs, wrote: bool, accepted: seq<Byte>, progress: nat)
    requires Delivers(w, sc, read) && !w.isDir
    ensures progress == |accepted|
    ensures if wrote then after == fs[target := F(accepted)] else after == fs && accepted == [] && !ok
    ensures wrote <==> (overwrite || target !in fs) && sc.opens
    ensures ok <==> wrote && GoesWell(sc.rounds) && sc.closes
    ensures ok ==> accepted == ContentOf(read, w.path) && |accepted| == w.size
  {
    hide AllData, ContentOf;
    if (!overwrite && target in fs) || !sc.opens {
      return false, fs, false, [], 0;
    }
    var v;
    v, accepted, progress := Stream(sc.rounds);
    wrote, after := true, fs[target := F(accepted)];
    ok := v == Done && sc.closes;
  }

  datatype End = Succeeded | Stopped | Panicked | Refused

  /** What a walk lists: paths of plain names, none of them empty, no file above anything else. */
  ghost predicate Listable(ws: seq<Walked>) {
    Coherent(ws) && forall i :: 0 <= i < |ws| ==> ws[i].path != [] && PlainPath(ws[i].path)
  }

  /** Nothing goes wrong with a file: both sides open, the whole of it is taken, and closing works. */
  ghost predicate Well(w: Walked, sc: Script) { w.isDir || (sc.opens && GoesWell(sc.rounds) && sc.closes) }

  ghost predicate AllWell(ws: seq<Walked>, scripts: seq<Script>)
    requires |scripts| == |ws|
  {
    forall i :: 0 <= i < |ws| ==> Well(ws[i], scripts[i])
  }

  lemma CommonRoot(root: Path, p: Path, q: Path)
    ensures root + p <= root + q ==> p <= q
  {
    assert (root + p)[|root|..] == p && (root + q)[|root|..] == q;
  }

  /** On a destination that was empty, what has been copied is in nobody's way. */
  lemma NothingInTheWay(root: Path, ws: seq<Walked>, i: nat, read: Source)
    requires Coherent(ws) && i < |ws| && forall j :: 0 <= j < |ws| ==> ws[j].path != []
    ensures var fs, t := Replay(map[], root, ws[..i], read), root + ws[i].path;
            CanMkdir(fs, if ws[i].isDir then t else Parent(t)) && (!ws[i].isDir ==> t !in Mkdir(fs, Parent(t)))
  {
    hide Replay, Mkdir, ContentOf;
    var before, t := ws[..i], root + ws[i].path;
    var fs := Replay(map[], root, before, read);
    var dir := if ws[i].isDir then t else Parent(t);
    assert Coherent(before);
    ReplayBuilds(root, before, read);
    forall k | 0 < k <= |dir| && dir[..k] in fs ensures fs[dir[..k]].D? {
      assert dir[..k] <= t;
      forall j: nat ensures !FileAt(root, before, dir[..k], j) {
        if j < i { CommonRoot(root, ws[j].path, ws[i].path); }
      }
    }
    if !ws[i].isDir {
      MkdirIs(fs, Parent(t), t);
      forall j | 0 <= j < i ensures !(t <= root + before[j].path) { CommonRoot(root, ws[i].path, ws[j].path); }
    }
  }

  /**
   The loop of runCopy over a directory that has been walked. Whatever happens, the bytes counted are
   those that were written, and all of them on success. Where the path asked for keeps names, nothing
   panics, the destination holds what was counted, and on success is what replaying the walk gives.
   */
  method RunCopy(fs: Fs, source: string, dest: Cleaned, ws: seq<Walked>, read: Source, scripts: seq<Script>,
      cancelAt: nat, overwrite: bool)
    returns (end: End, after: Fs, doneBytes: nat, ghost reached: nat, ghost written: seq<seq<Byte>>)
    requires Normal(dest) && Listable(ws) && |scripts| == |ws|
    requires forall i :: 0 <= i < |ws| ==> Delivers(ws[i], scripts[i], read)
    ensures doneBytes == SumLen(written) && reached <= |ws|
    ensures end == Succeeded ==> doneBytes == TotalBytes(ws)
    ensures NamesKept(source) ==> end != Panicked
    ensures NamesKept(source) ==> Holds(after, dest.parts, FilePaths(ws[..reached]), written)
    ensures NamesKept(source) && end == Succeeded ==> after == Replay(fs, dest.parts, ws, read)
    ensures end != Refused && (ws == [] ==> end == Succeeded && after == fs)
    ensures NamesKept(source) && fs == map[] ==> (end == Succeeded <==> cancelAt >= |ws| && AllWell(ws, scripts))
  {
    hide Replay, Delivers, CanMkdir, Mkdir, Coherent, Holds, FilePaths, SumLen, TotalBytes, ContentOf, TargetOf,
        NamesKept, Normal, PlainPath, Well;
    after, doneBytes, written := fs, 0, [];
    ghost var root, kept := dest.parts, NamesKept(source);
    NothingReached(fs, root, read, ws);
    for i := 0 to |ws|
      invariant doneBytes == SumLen(written) == TotalBytes(ws[..i])
      invariant (i == 0 ==> after == fs) && i <= cancelAt
      invariant forall j :: 0 <= j < i ==> Well(ws[j], scripts[j])
      invariant kept ==> after == Replay(fs, root, ws[..i], read) && Holds(after, root, FilePaths(ws[..i]), written)
    {
      reached := i;
      ReplayOne(fs, root, ws, i, read);
      var w := ws[i];
      if i == cancelAt {
        return Stopped, after, doneBytes, reached, written;
      }
      NamesKeptExactly(source, dest, w.path);
      var t := TargetOf(source, dest, w.path);
      if t.OutOfRange? {
        return Panicked, after, doneBytes, reached, written;
      }
      var target := t.path.parts;
      var dir := if w.isDir then target else Parent(target);
      NothingInTheWay(root, ws, i, read);
      WellIs(w, scripts[i]);
      if !CanMkdir(after, dir) {
        return Stopped, after, doneBytes, reached, written;
      }
      if kept { HoldsStill(after, root, FilePaths(ws[..i]), written, dir); }
      after := Mkdir(after, dir);
      if w.isDir {
        DirIsEmpty(w, scripts[i], read);
      } else {
        var copied, now, wrote, accepted, progress := CopyFile(after, target, w, scripts[i], overwrite, read);
        if wrote {
          FilesBefore(ws, i, i);
          if kept { HoldsMore(after, root, FilePaths(ws[..i]), written, w.path, accepted); }
          SumMore(written, accepted);
          after, written := now, written + [accepted];
          doneBytes, reached := doneBytes + progress, i + 1;
        }
        if !copied {
          return Stopped, after, doneBytes, reached, written;
        }
      }
    }
    assert ws[..|ws|] == ws;
    end, reached := Succeeded, |ws|;
  }

  lemma WellIs(w: Walked, sc: Script)
    ensures Well(w, sc) <==> w.isDir || (sc.opens && GoesWell(sc.rounds) && sc.closes)
  {
  }

  lemma SumMore(written: seq<seq<Byte>>, data: seq<Byte>)
    ensures SumLen(written + [data]) == SumLen(written) + |data|
  {
    assert (written + [data])[..|written|] == written;
  }

  lemma NothingReached(fs: Fs, root: Path, read: Source, ws: seq<Walked>)
    ensures Replay(fs, root, ws[..0], read) == fs && TotalBytes(ws[..0]) == 0 && SumLen([]) == 0
    ensures Holds(fs, root, FilePaths(ws[..0]), [])
  {
  }

  lemma DirIsEmpty(w: Walked, sc: Script, read: Source)
    requires Delivers(w, sc, read) && w.isDir
    ensures w.size == 0
  {
  }

  lemma ReplayOne(fs: Fs, root: Path, ws: seq<Walked>, i: nat, read: Source)
    requires i < |ws|
    ensures TotalBytes(ws[..i + 1]) == TotalBytes(ws[..i]) + ws[i].size
    ensures FilePaths(ws[..i + 1]) == if ws[i].isDir then FilePaths(ws[..i]) else FilePaths(ws[..i]) + [ws[i].path]
    ensures Replay(fs, root, ws[..i + 1], read)
      == Carried(Replay(fs, root, ws[..i], read), root, ws[i], ContentOf(read, ws[i].path))
  {
    hide Carried, ContentOf;
    assert ws[..i + 1][..i] == ws[..i];
  }

  lemma ListingListable(es: seq<Entry>)
    requires DistinctNames(es) && PlainNames(es)
    ensures Listable(Listing(es))
  {
    hide DistinctNames, PlainNames, Dirs, Others, PlainPath;
    DistinctSorted(es);
    WalkCoherent(DirsFirst(es));
    hide Listing;
    forall i | 0 <= i < |Listing(es)| ensures Listing(es)[i].path != [] && PlainPath(Listing(es)[i].path) {
      var node := ListedOnly(es, i);
      HasPlain(es, Listing(es)[i].path, node);
    }
  }

  /** How the files of what is copied go: one script for a file, one for each line of the walk of a directory. */
  ghost predicate Scripted(node: Node, scripts: seq<Script>, read: Source) {
    match node
    case Link => true
    case File(content) => |scripts| == 1 && ContentOf(read, []) == content
        && Delivers(Walked([], |content|, false), scripts[0], read)
    case Dir(es) =>
      |scripts| == |Listing(es)| && Reads(es, read) && forall i ::
          0 <= i < |scripts| ==> Delivers(Listing(es)[i], scripts[i], read)
  }

  /**
   runCopy, for what Stat has found at the source. On success the bytes done are the total, a file is at
   the destination, and so is a directory that went to an empty one: the tree without its links, if the
   path asked for keeps names and there is something to copy.
   */
  method Copy(fs: Fs, node: Node, sameSession: bool, source: string, dest: Cleaned, read: Source, scripts: seq<Script>,
              walkFails: bool, cancelAt: nat, overwrite: bool)
    returns (end: End, after: Fs, doneBytes: nat, totalBytes: nat)
    requires Normal(dest) && !node.Link? && Scripted(node, scripts, read)
    requires node.Dir? ==> DistinctNames(node.entries) && PlainNames(node.entries)
    ensures end == Refused <==> sameSession && Within(CleanText(dest), source)
    ensures end == Succeeded ==> doneBytes == totalBytes
    ensures end == Succeeded && node.File? ==> after == fs[dest.parts := F(node.content)]
    ensures end == Succeeded && node.Dir? && fs == map[] && NamesKept(source) && Visible(node.entries) ==>
      CopyOf(node.entries, dest.parts, after)
    ensures end == Succeeded && node.Dir? && !Visible(node.entries) ==> after == fs
    ensures end == Panicked ==> node.Dir? && !NamesKept(source)
    ensures node.File? ==>
              (end == Succeeded <==>
                 && !(sameSession && Within(CleanText(dest), source)) && (overwrite || dest.parts !in fs)
                 && scripts[0].opens && GoesWell(scripts[0].rounds) && scripts[0].closes)
    ensures node.Dir? && fs == map[] && NamesKept(source) ==>
              (end == Succeeded <==>
                 && !(sameSession && Within(CleanText(dest), source)) && !walkFails && cancelAt >= |scripts|
                 && AllWell(Listing(node.entries), scripts))
  {
    hide Within, NamesKept, DistinctNames, PlainNames, Replay, Listing, CopyOf, Visible, Holds, SumLen, FilePaths,
         Normal, Reads, Delivers,
         Listable, ContentOf, TotalBytes, AllWell;
    after, doneBytes, totalBytes := fs, 0, 0;
    if sameSession && Within(CleanText(dest), source) {
      return Refused, after, doneBytes, totalBytes;
    }
    match node {
      case File(content) =>
        totalBytes := |content|;
        var copied, now, wrote, accepted, progress :=
            CopyFile(fs, dest.parts, Walked([], |content|, false), scripts[0], overwrite, read);
        end, after, doneBytes := if copied then Succeeded else Stopped, now, progress;
      case Dir(es) =>
        if walkFails {
          return Stopped, after, doneBytes, totalBytes;
        }
        var ws := Descend(es, [], []);
        AtTop(es, ws);
        totalBytes := SumSizes(ws);
        ListingListable(es);
        ghost var reached, written;
        end, after, doneBytes, reached, written := RunCopy(fs, source, dest, ws, read, scripts, cancelAt, overwrite);
        if Visible(es) {
          if fs == map[] { Rebuilds(es, dest.parts, read); }
        } else {
          NothingListed(es);
        }
    }
  }

  lemma NothingListed(es: seq<Entry>)
    requires !Visible(es)
    ensures Listing(es) == []
  {
    hide Listing;
    if Listing(es) != [] { var node := ListedOnly(es, 0); }
  }

  lemma AtTop(es: seq<Entry>, ws: seq<Walked>)
    requires ws == [] + Beneath([], WalkOf(DirsFirst(es)))
    ensures ws == Listing(es)
  {
    hide WalkOf, Dirs, Others;
    var all := WalkOf(DirsFirst(es));
    forall i | 0 <= i < |all| ensures Beneath([], all)[i] == all[i] { assert [] + all[i].path == all[i].path; }
  }

  method SumSizes(ws: seq<Walked>) returns (total: nat)
    ensures total == TotalBytes(ws)
  {
    total := 0;
    for i := 0 to |ws|
      invariant total == TotalBytes(ws[..i])
    {
      assert ws[..i + 1][..i] == ws[..i];
      total := total + ws[i].size;
    }
    assert ws[..|ws|] == ws;
  }
}
