/**
 Paths as text: cleaning and joining them, whether one is within another, and what is left of one when a length is cut
 off.
 */
module CopyPaths {
  import Text

  type Path = seq<string>

  // Cleaning.

  /** A path as `path.Clean` understands it. */
  datatype Cleaned = Cleaned(rooted: bool, parts: Path)

  function CleanStep(rooted: bool, before: Path, part: string): Path {
    if part == "" || part == "." then before
    else if part == ".." then
      if before == [] then (if rooted then [] else [".."])
      else if before[|before| - 1] == ".." then before + [".."]
      else before[..|before| - 1]
    else before + [part]
  }

  function CleanParts(rooted: bool, parts: seq<string>): Path {
    if parts == [] then [] else CleanStep(rooted, CleanParts(rooted, parts[..|parts| - 1]), parts[|parts| - 1])
  }

  function Clean(t: string): Cleaned {
    var rooted := t != "" && t[0] == '/';
    Cleaned(rooted, CleanParts(rooted, Text.Split(t, '/')))
  }

  /** What `path.Clean` returns. */
  function CleanText(c: Cleaned): string {
    if c.rooted then "/" + Text.Join(c.parts, '/') else if c.parts == [] then "." else Text.Join(c.parts, '/')
  }

  ghost predicate CleanPath(p: Path) { Text.FreeOf(p, '/') && forall i :: 0 <= i < |p| ==> p[i] != "" && p[i] != "." }

  lemma {:induction false} SplitFree(t: string, c: char)
    ensures Text.FreeOf(Text.Split(t, c), c)
    decreases |t|
  {
    var i := Text.Find(t, c);
    if i < |t| { SplitFree(t[i + 1..], c); }
  }

  lemma {:induction false} PartsClean(rooted: bool, parts: seq<string>)
    requires Text.FreeOf(parts, '/')
    ensures CleanPath(CleanParts(rooted, parts))
  {
    if parts != [] { PartsClean(rooted, parts[..|parts| - 1]); }
  }

  /** The comparison that within makes of two cleaned paths. */
  predicate WithinText(inner: string, outer: string) {
    inner == outer || (|inner| > |outer| && inner[..|outer|] == outer && inner[|outer|] == '/')
  }

  /** within. */
  predicate Within(inner: string, outer: string) { WithinText(CleanText(Clean(inner)), CleanText(Clean(outer))) }

  lemma {:induction false} JoinPrefix(p: Path, q: Path)
    requires p != [] && q != []
    ensures Text.Join(p + q, '/') == Text.Join(p, '/') + "/" + Text.Join(q, '/')
  {
    if |p| == 1 {
      assert (p + q)[1..] == q;
    } else {
      assert (p + q)[1..] == p[1..] + q;
      JoinPrefix(p[1..], q);
    }
  }

  lemma JoinNotEmpty(p: Path)
    requires CleanPath(p) && p != []
    ensures Text.Join(p, '/') != "" && Text.Join(p, '/')[0] != '/'
  {
    assert p[0] != "" && '/' !in p[0];
  }

  /** Joined text beginning with other joined text and a slash begins with its parts. */
  lemma JoinBegins(p: Path, q: Path)
    requires CleanPath(p) && CleanPath(q) && p != [] && q != []
    requires var a, b := Text.Join(p, '/'), Text.Join(q, '/'); |b| > |a| && b[..|a|] == a && b[|a|] == '/'
    ensures p <= q
  {
    hide Text.Split, Text.Join;
    var a, b := Text.Join(p, '/'), Text.Join(q, '/');
    Text.SplitJoin(q, '/');
    var tail := b[|a| + 1..];
    assert b == a + ['/'] + tail;
    SplitTail(p, tail);
  }

  lemma SplitCons(x: string, rest: string)
    requires '/' !in x
    ensures Text.Split(x + ['/'] + rest, '/') == [x] + Text.Split(rest, '/')
  {
    var whole := x + ['/'] + rest;
    Text.FindPrefix(x, '/', rest);
    assert whole[..|x|] == x && whole[|x| + 1..] == rest;
  }

  lemma {:induction false} SplitTail(p: Path, tail: string)
    requires p != [] && Text.FreeOf(p, '/')
    ensures Text.Split(Text.Join(p, '/') + ['/'] + tail, '/') == p + Text.Split(tail, '/')
  {
    hide Text.Split;
    if |p| == 1 {
      assert p == [p[0]];
      SplitCons(p[0], tail);
    } else {
      var rest := Text.Join(p[1..], '/') + ['/'] + tail;
      SplitTail(p[1..], tail);
      assert Text.Join(p, '/') + ['/'] + tail == p[0] + ['/'] + rest;
      SplitCons(p[0], rest);
      assert p == [p[0]] + p[1..];
    }
  }

  /** Of joined clean paths, one is within the other exactly when its parts begin with the other's. */
  lemma JoinedWithin(inner: Path, outer: Path)
    requires CleanPath(inner) && CleanPath(outer) && inner != [] && outer != []
    ensures WithinText(Text.Join(inner, '/'), Text.Join(outer, '/')) <==> outer <= inner
  {
    hide Text.Join;
    var a, b := Text.Join(outer, '/'), Text.Join(inner, '/');
    if b == a {
      Text.JoinInjective(inner, outer, '/');
    } else if WithinText(b, a) {
      JoinBegins(outer, inner);
    }
    if outer <= inner && outer != inner {
      assert inner == outer + inner[|outer|..];
      JoinPrefix(outer, inner[|outer|..]);
      assert b == a + "/" + Text.Join(inner[|outer|..], '/');
    }
  }

  lemma RootedWithin(a: string, b: string)
    ensures WithinText("/" + b, "/" + a) <==> WithinText(b, a)
  {
    assert ("/" + b)[1..] == b && ("/" + a)[1..] == a;
    if WithinText("/" + b, "/" + a) && a != b {
      assert b[..|a|] == ("/" + b)[..|a| + 1][1..];
    }
  }

  lemma NotDot(p: Path)
    requires CleanPath(p) && p != []
    ensures Text.Join(p, '/') != "."
  {
    hide Text.Join;
    OneDot();
    assert p[0] != "." && ["."][0] == ".";
    if Text.Join(p, '/') == "." {
      Text.JoinInjective(p, ["."], '/');
    }
  }

  lemma OneDot()
    ensures Text.Join(["."], '/') == "."
  {
  }

  /** Cleaned paths of the same kind. */
  lemma SameKindWithin(rooted: bool, inner: Path, outer: Path)
    requires CleanPath(inner) && CleanPath(outer)
    ensures WithinText(CleanText(Cleaned(rooted, inner)), CleanText(Cleaned(rooted, outer)))
      <==> outer <= inner && (outer == [] ==> inner == [])
  {
    hide Text.Join;
    NoParts();
    if inner != [] { JoinNotEmpty(inner); NotDot(inner); }
    if outer != [] { JoinNotEmpty(outer); NotDot(outer); }
    if inner != [] && outer != [] {
      JoinedWithin(inner, outer);
      RootedWithin(Text.Join(outer, '/'), Text.Join(inner, '/'));
    } else if outer == [] && inner != [] && !rooted {
      NoLeadingDot(inner);
    } else if outer != [] && inner == [] {
      assert |Text.Join(outer, '/')| > 0;
    }
  }

  /** Text up to the first slash is the first part. */
  lemma FirstPart(p: Path, x: string, rest: string)
    requires Text.FreeOf(p, '/') && p != [] && '/' !in x && Text.Join(p, '/') == x + ['/'] + rest
    ensures p[0] == x
  {
    hide Text.Split, Text.Join;
    SplitCons(x, rest);
    Text.SplitJoin(p, '/');
  }

  /** A clean relative path never begins with "./". */
  lemma NoLeadingDot(p: Path)
    requires CleanPath(p) && p != []
    ensures !WithinText(Text.Join(p, '/'), ".")
  {
    hide Text.Join;
    NotDot(p);
    var b := Text.Join(p, '/');
    if |b| > 1 && b[..1] == "." && b[1] == '/' {
      var rest := b[2..];
      assert b == "." + ['/'] + rest;
      FirstPart(p, ".", rest);
    }
  }

  /**
   The guard against copying a directory into itself, on any two paths: cleaned, they are of the same
   kind and the inner one begins with the parts of the outer, except that nothing but the root itself
   counts as beneath the root, and nothing but the current directory as beneath that.
   */
  lemma WithinExactly(inner: string, outer: string)
    ensures Within(inner, outer) <==>
              var i, o := Clean(inner), Clean(outer);
              i.rooted == o.rooted && o.parts <= i.parts && (o.parts == [] ==> i.parts == [])
  {
    hide Text.Join, Text.Split, CleanParts;
    var i, o := Clean(inner), Clean(outer);
    SplitFree(inner, '/');
    SplitFree(outer, '/');
    PartsClean(i.rooted, Text.Split(inner, '/'));
    PartsClean(o.rooted, Text.Split(outer, '/'));
    if i.rooted == o.rooted {
      SameKindWithin(i.rooted, i.parts, o.parts);
    } else {
      if i.parts != [] { JoinNotEmpty(i.parts); }
      if o.parts != [] { JoinNotEmpty(o.parts); }
      assert CleanText(i) != "" && CleanText(o) != "" && CleanText(i)[0] != CleanText(o)[0];
    }
  }

  lemma NoParts()
    ensures Text.Join([], '/') == ""
  {
  }

  /** Copying "/" into one of its own directories is not seen as copying it into itself. */
  lemma RootNotGuarded(x: string)
    requires x != "" && x != "." && x != ".." && '/' !in x
    ensures !Within("/" + x, "/")
  {
    hide Within, Clean;
    WithinExactly("/" + x, "/");
    CleanOne(x);
    CleanOne("");
    assert "/" + "" == "/";
  }

  lemma CleanOne(x: string)
    requires x != "." && x != ".." && '/' !in x
    ensures Clean("/" + x) == Cleaned(true, if x == "" then [] else [x])
  {
    hide Text.Split;
    assert "/" + x == "" + ['/'] + x;
    SplitCons("", x);
    SplitPlain(x);
    assert [""] + [x] == ["", x];
    assert ["", x][..1] == [""] && [""][..0] == [];
    assert CleanParts(true, [""]) == [];
    assert [] + [x] == [x];
  }

  lemma SplitPlain(s: string)
    requires '/' !in s
    ensures Text.Split(s, '/') == [s]
  {
    Text.FindPrefix(s, '/', "");
  }

  // Joining.

  /** Cleaning on from what has been cleaned. */
  function CleanOn(rooted: bool, before: Path, parts: seq<string>): Path {
    if parts == [] then before else CleanStep(rooted, CleanOn(rooted, before, parts[..|parts| - 1]), parts[|parts| - 1])
  }

  lemma {:induction false} CleanAppend(rooted: bool, a: seq<string>, b: seq<string>)
    ensures CleanParts(rooted, a + b) == CleanOn(rooted, CleanParts(rooted, a), b)
  {
    if b == [] {
      assert a + b == a;
    } else {
      CleanAppend(rooted, a, b[..|b| - 1]);
      assert (a + b)[..|a + b| - 1] == a + b[..|b| - 1];
    }
  }

  /** Clean parts in which ".." only leads, and only where there is no root. */
  ghost predicate Normal(c: Cleaned) {
    && CleanPath(c.parts)
    && forall i :: 0 <= i < |c.parts| && c.parts[i] == ".." ==> !c.rooted && forall j ::
        0 <= j < i ==> c.parts[j] == ".."
  }

  lemma StepNormal(rooted: bool, before: Path, part: string)
    requires Normal(Cleaned(rooted, before)) && '/' !in part
    ensures Normal(Cleaned(rooted, CleanStep(rooted, before, part)))
  {
  }

  lemma {:induction false} PartsNormal(rooted: bool, parts: seq<string>)
    requires Text.FreeOf(parts, '/')
    ensures Normal(Cleaned(rooted, CleanParts(rooted, parts)))
  {
    hide Normal, CleanStep;
    if parts == [] {
      NothingNormal(rooted);
    } else {
      PartsNormal(rooted, parts[..|parts| - 1]);
      StepNormal(rooted, CleanParts(rooted, parts[..|parts| - 1]), parts[|parts| - 1]);
    }
  }

  lemma NothingNormal(rooted: bool)
    ensures Normal(Cleaned(rooted, []))
  {
  }

  lemma CleanNormal(t: string)
    ensures Normal(Clean(t))
  {
    hide Normal, CleanParts, Text.Split;
    SplitFree(t, '/');
    PartsNormal(t != "" && t[0] == '/', Text.Split(t, '/'));
  }

  /** What is normal is as clean as it gets. */
  lemma {:induction false} NormalStays(c: Cleaned)
    requires Normal(c)
    ensures CleanParts(c.rooted, c.parts) == c.parts
    decreases |c.parts|
  {
    if c.parts != [] {
      var n := |c.parts| - 1;
      NormalStays(c.(parts := c.parts[..n]));
      assert c.parts == c.parts[..n] + [c.parts[n]];
      if c.parts[n] == ".." && n > 0 { assert c.parts[n - 1] == ".."; }
    }
  }

  /** `path.Join` of two paths, as the path that it stands for; an empty one is passed over. */
  function JoinPaths(a: string, b: string): Cleaned {
    if a == "" then Clean(b) else if b == "" then Clean(a) else Clean(a + "/" + b)
  }

  lemma JoinedText(p: Path, tail: string)
    requires Text.FreeOf(p, '/')
    ensures p != [] ==> Text.Split(Text.Join(p, '/') + "/" + tail, '/') == p + Text.Split(tail, '/')
  {
    hide Text.Split, Text.Join;
    if p != [] {
      SplitTail(p, tail);
      assert Text.Join(p, '/') + "/" + tail == Text.Join(p, '/') + ['/'] + tail;
    }
  }

  /** The parts that a text in front of a slash contributes. */
  lemma SplitClean(c: Cleaned, tail: string)
    requires Normal(c)
    ensures var t := CleanText(c) + "/" + tail;
            && t != "" && (t[0] == '/' <==> c.rooted)
            && CleanParts(c.rooted, Text.Split(t, '/')) == CleanOn(c.rooted, c.parts, Text.Split(tail, '/'))
  {
    hide Text.Split, Text.Join, CleanParts, CleanOn;
    var rest := Text.Split(tail, '/');
    var t := CleanText(c) + "/" + tail;
    NoParts();
    Dropped(c.rooted, c.parts);
    NormalStays(c);
    if c.parts == [] {
      if c.rooted {
        assert t == "" + ['/'] + ("" + ['/'] + tail);
        SplitCons("", "" + ['/'] + tail);
        SplitCons("", tail);
        assert Text.Split(t, '/') == ["", ""] + rest;
        CleanAppend(true, ["", ""], rest);
      } else {
        assert t == "." + ['/'] + tail;
        SplitCons(".", tail);
        CleanAppend(false, ["."], rest);
      }
    } else {
      JoinedText(c.parts, tail);
      JoinNotEmpty(c.parts);
      if c.rooted {
        assert t == "" + ['/'] + (Text.Join(c.parts, '/') + "/" + tail);
        SplitCons("", Text.Join(c.parts, '/') + "/" + tail);
        assert Text.Split(t, '/') == ([""] + c.parts) + rest;
        CleanAppend(true, [""] + c.parts, rest);
      } else {
        CleanAppend(false, c.parts, rest);
      }
    }
  }

  /** A blank or a dot in front changes nothing. */
  lemma Dropped(rooted: bool, p: Path)
    ensures CleanParts(rooted, ["", ""]) == [] && CleanParts(rooted, ["."]) == []
    ensures CleanParts(rooted, [""] + p) == CleanParts(rooted, p)
  {
    assert ["", ""][..1] == [""] && [""][..0] == [] && ["."][..0] == [];
    assert CleanParts(rooted, [""]) == [];
    BlankFirst(rooted, p);
  }

  lemma {:induction false} BlankFirst(rooted: bool, p: Path)
    ensures CleanParts(rooted, [""] + p) == CleanParts(rooted, p)
  {
    if p == [] {
      assert [""] + p == [""] && [""][..0] == [];
    } else {
      BlankFirst(rooted, p[..|p| - 1]);
      assert ([""] + p)[..|p|] == [""] + p[..|p| - 1];
    }
  }

  /** Joining goes on from where the first path is. */
  lemma JoinGoesOn(c: Cleaned, tail: string)
    requires Normal(c)
    ensures JoinPaths(CleanText(c), tail) == Cleaned(c.rooted, CleanOn(c.rooted, c.parts, Text.Split(tail, '/')))
  {
    hide Text.Split, CleanOn, CleanParts, CleanText;
    SplitClean(c, tail);
    if tail == "" {
      CleanAgain(c);
      SplitPlain("");
      OnBlank(c.rooted, c.parts);
    }
    TextNotEmpty(c);
  }

  lemma OnBlank(rooted: bool, before: Path)
    ensures CleanOn(rooted, before, [""]) == before
  {
    assert [""][..0] == [];
  }

  lemma TextNotEmpty(c: Cleaned)
    requires Normal(c)
    ensures CleanText(c) != "" && (CleanText(c)[0] == '/' <==> c.rooted)
  {
    if c.parts != [] { JoinNotEmpty(c.parts); }
  }

  /** Cleaning a cleaned path gives it back. */
  lemma CleanAgain(c: Cleaned)
    requires Normal(c)
    ensures Clean(CleanText(c)) == c
  {
    hide Text.Split, Text.Join, CleanParts;
    TextNotEmpty(c);
    NoParts();
    Dropped(c.rooted, c.parts);
    NormalStays(c);
    if c.parts == [] {
      if c.rooted {
        assert CleanText(c) == "" + ['/'] + "";
        SplitCons("", "");
        SplitPlain("");
        assert "/" + "" == "/" == "" + ['/'] + "";
        assert Text.Split("/", '/') == [""] + [""] == ["", ""];
      } else {
        SplitPlain(".");
      }
    } else {
      Text.SplitJoin(c.parts, '/');
      if c.rooted {
        assert CleanText(c) == "" + ['/'] + Text.Join(c.parts, '/');
        SplitCons("", Text.Join(c.parts, '/'));
        assert Text.Split(CleanText(c), '/') == [""] + c.parts;
      }
    }
  }

  // Names.

  /** A name that a directory can list. */
  ghost predicate PlainName(name: string) { name != "" && name != "." && name != ".." && '/' !in name }

  ghost predicate PlainPath(p: Path) { forall i :: 0 <= i < |p| ==> PlainName(p[i]) }

  /**
   The rules of cleaning: nothing and "." add nothing, ".." takes back the name before it, at the root it adds
   nothing, and what is normal stays.
   */
  lemma CleaningRules(rooted: bool, a: seq<string>, x: string, b: seq<string>)
    ensures CleanParts(rooted, a + [""] + b) == CleanParts(rooted, a + b)
    ensures CleanParts(rooted, a + ["."] + b) == CleanParts(rooted, a + b)
    ensures PlainName(x) ==> CleanParts(rooted, a + [x, ".."] + b) == CleanParts(rooted, a + b)
    ensures CleanParts(true, [".."] + b) == CleanParts(true, b)
    ensures Normal(Cleaned(rooted, a)) ==> CleanParts(rooted, a) == a
  {
    hide Normal;
    CleanAppend(rooted, a, b);
    CleanAppend(rooted, a + [""], b);
    CleanAppend(rooted, a, [""]);
    CleanAppend(rooted, a + ["."], b);
    CleanAppend(rooted, a, ["."]);
    CleanAppend(rooted, a + [x, ".."], b);
    CleanAppend(rooted, a, [x, ".."]);
    CleanAppend(true, [".."], b);
    CleanAppend(true, [], b);
    assert [] + b == b;
    var before := CleanParts(rooted, a);
    OnOne(rooted, before, "");
    OnOne(rooted, before, ".");
    OnOne(true, [], "..");
    assert CleanParts(true, [".."]) == [] by { assert [".."][..0] == []; }
    if PlainName(x) { OnTwo(rooted, before, x); }
    if Normal(Cleaned(rooted, a)) { NormalStays(Cleaned(rooted, a)); }
  }

  lemma OnOne(rooted: bool, before: Path, part: string)
    ensures CleanOn(rooted, before, [part]) == CleanStep(rooted, before, part)
  {
    assert [part][..0] == [];
  }

  lemma OnTwo(rooted: bool, before: Path, x: string)
    requires PlainName(x)
    ensures CleanOn(rooted, before, [x, ".."]) == before
  {
    assert [x, ".."][..1] == [x];
    OnOne(rooted, before, x);
  }

  lemma {:induction false} PlainGoesOn(rooted: bool, before: Path, p: Path)
    requires PlainPath(p)
    ensures CleanOn(rooted, before, p) == before + p
  {
    if p == [] {
      assert before + p == before;
    } else {
      var n := |p| - 1;
      PlainGoesOn(rooted, before, p[..n]);
      assert PlainName(p[n]);
      assert before + p == before + p[..n] + [p[n]];
    }
  }

  lemma PlainNormal(c: Cleaned, p: Path)
    requires Normal(c) && PlainPath(p)
    ensures Normal(Cleaned(c.rooted, c.parts + p))
  {
    var q := c.parts + p;
    forall i | 0 <= i < |q| ensures q[i] != "" && q[i] != "." && '/' !in q[i] && (q[i] == ".." ==> i < |c.parts|) {
      if i >= |c.parts| { assert PlainName(p[i - |c.parts|]); }
    }
  }

  /**
   The path that a listing gives for what is at `p` under `dir`: each directory is cleaned before it is
   listed, and each name joined to it.
   */
  function EntryText(dir: string, p: Path): string {
    if p == [] then CleanText(Clean(dir)) else CleanText(JoinPaths(EntryText(dir, p[..|p| - 1]), p[|p| - 1]))
  }

  lemma {:induction false} EntryIs(dir: string, p: Path)
    requires PlainPath(p)
    ensures EntryText(dir, p) == CleanText(Cleaned(Clean(dir).rooted, Clean(dir).parts + p))
  {
    hide Clean, CleanText, JoinPaths;
    var c := Clean(dir);
    CleanNormal(dir);
    if p == [] {
      assert c.parts + p == c.parts;
    } else {
      var n := |p| - 1;
      EntryIs(dir, p[..n]);
      PlainNormal(c, p[..n]);
      JoinGoesOn(Cleaned(c.rooted, c.parts + p[..n]), p[n]);
      assert PlainName(p[n]);
      SplitPlain(p[n]);
      assert PlainPath([p[n]]);
      PlainGoesOn(c.rooted, c.parts + p[..n], [p[n]]);
      assert c.parts + p == c.parts + p[..n] + [p[n]];
    }
  }

  // Cutting off the source path.

  datatype Target = OutOfRange | To(path: Cleaned)

  /**
   Where runCopy puts what is at `p` under `source`: the length of the path that was asked for is cut off
   the entry's path, and what is left is joined to the destination. A slice past the end is a panic.
   */
  function TargetOf(source: string, dest: Cleaned, p: Path): Target {
    var entry := EntryText(source, p);
    if |source| > |entry| then OutOfRange else To(JoinPaths(CleanText(dest), entry[|source|..]))
  }

  /** How much of an entry's path stands before its own names. */
  function Before(c: Cleaned): nat {
    if c.parts == [] then (if c.rooted then 1 else 0) else |CleanText(c)| + 1
  }

  /** The condition: the path asked for is no longer than that. */
  predicate NamesKept(source: string) { |source| <= Before(Clean(source)) }

  lemma EntrySplits(source: string, p: Path)
    requires PlainPath(p) && p != []
    ensures var c := Clean(source);
            && |EntryText(source, p)| == Before(c) + |Text.Join(p, '/')|
            && EntryText(source, p)[Before(c)..] == Text.Join(p, '/')
            && (c.parts != [] ==> EntryText(source, p)[Before(c) - 1] == '/')
  {
    hide Text.Join, Clean;
    var c := Clean(source);
    NoParts();
    EntryIs(source, p);
    if c.parts == [] {
      assert c.parts + p == p;
    } else {
      JoinPrefix(c.parts, p);
    }
  }

  function Bulk(p: Path): nat { if p == [] then 0 else Bulk(p[..|p| - 1]) + |p[|p| - 1]| + 1 }

  lemma {:induction false} BulkAppend(a: Path, b: Path)
    ensures Bulk(a + b) == Bulk(a) + Bulk(b)
  {
    if b == [] {
      assert a + b == a;
    } else {
      BulkAppend(a, b[..|b| - 1]);
      assert (a + b)[..|a + b| - 1] == a + b[..|b| - 1];
    }
  }

  lemma {:induction false} BulkJoin(p: Path)
    requires p != []
    ensures Bulk(p) == |Text.Join(p, '/')| + 1
  {
    if |p| == 1 {
      assert p[..0] == [];
    } else {
      BulkJoin(p[1..]);
      BulkAppend([p[0]], p[1..]);
      assert p == [p[0]] + p[1..];
      assert [p[0]][..0] == [];
    }
  }

  /** Names in a text weigh no more than the text. */
  function Weighed(parts: seq<string>): nat {
    if parts == [] then 0 else Weighed(parts[..|parts| - 1]) + if parts[|parts| - 1] == "" then 0
        else |parts[|parts| - 1]| + 1
  }

  lemma {:induction false} WeighedLess(parts: seq<string>)
    ensures Weighed(parts) <= Bulk(parts)
  {
    if parts != [] { WeighedLess(parts[..|parts| - 1]); }
  }

  lemma SplitWeighs(t: string)
    ensures Weighed(Text.Split(t, '/')) <= |t| + 1
  {
    hide Text.Split, Text.Join;
    Text.SplitJoined(t, '/');
    BulkJoin(Text.Split(t, '/'));
    WeighedLess(Text.Split(t, '/'));
  }

  /** Cleaning adds no more than it is given. */
  lemma {:induction false} CleanWeighs(rooted: bool, before: Path, parts: seq<string>)
    ensures Bulk(CleanOn(rooted, before, parts)) <= Bulk(before) + Weighed(parts)
  {
    if parts != [] {
      var n := |parts| - 1;
      CleanWeighs(rooted, before, parts[..n]);
      StepWeighs(rooted, CleanOn(rooted, before, parts[..n]), parts[n]);
    }
  }

  lemma StepWeighs(rooted: bool, before: Path, part: string)
    ensures Bulk(CleanStep(rooted, before, part)) <= Bulk(before) + if part == "" then 0 else |part| + 1
  {
    assert (before + [part])[..|before|] == before;
    assert (before + [".."])[..|before|] == before;
    assert [".."][..0] == [];
  }

  /** Cleaning never makes a path longer. */
  lemma CleanShortens(t: string)
    requires t != ""
    ensures |CleanText(Clean(t))| <= |t|
  {
    hide Text.Join, Text.Split, CleanOn, Weighed, Bulk;
    var c := Clean(t);
    var parts := Text.Split(t, '/');
    NoParts();
    CleanAppend(c.rooted, [], parts);
    assert [] + parts == parts;
    CleanWeighs(c.rooted, [], parts);
    NoBulk();
    if c.parts != [] {
      BulkJoin(c.parts);
      if c.rooted { RootWeighs(t); } else { SplitWeighs(t); }
    }
  }

  lemma NoBulk()
    ensures Bulk([]) == 0
  {
  }

  /** The root slash is not paid for twice. */
  lemma RootWeighs(t: string)
    requires t != "" && t[0] == '/'
    ensures Weighed(Text.Split(t, '/')) <= |t|
  {
    hide Text.Split;
    assert t == "" + ['/'] + t[1..];
    SplitCons("", t[1..]);
    SplitWeighs(t[1..]);
    BlankWeighs(Text.Split(t[1..], '/'));
  }

  lemma {:induction false} BlankWeighs(parts: seq<string>)
    ensures Weighed([""] + parts) == Weighed(parts)
  {
    if parts == [] {
      assert [""] + parts == [""] && [""][..0] == [];
    } else {
      BlankWeighs(parts[..|parts| - 1]);
      assert ([""] + parts)[..|parts|] == [""] + parts[..|parts| - 1];
    }
  }

  /** Text that is too short cannot stand for the names. */
  lemma TooShort(dest: Cleaned, p: Path, tail: string)
    requires Normal(dest) && p != [] && |tail| < |Text.Join(p, '/')|
    ensures JoinPaths(CleanText(dest), tail) != Cleaned(dest.rooted, dest.parts + p)
  {
    hide Text.Join, Text.Split, CleanOn, Bulk, Weighed, JoinPaths, CleanText;
    JoinGoesOn(dest, tail);
    CleanWeighs(dest.rooted, dest.parts, Text.Split(tail, '/'));
    SplitWeighs(tail);
    BulkAppend(dest.parts, p);
    BulkJoin(p);
  }

  lemma RightTail(dest: Cleaned, p: Path)
    requires Normal(dest) && PlainPath(p) && p != []
    ensures JoinPaths(CleanText(dest), Text.Join(p, '/')) == Cleaned(dest.rooted, dest.parts + p)
    ensures JoinPaths(CleanText(dest), "/" + Text.Join(p, '/')) == Cleaned(dest.rooted, dest.parts + p)
  {
    hide Text.Join, Text.Split, JoinPaths, CleanText, CleanOn, CleanStep;
    var t := Text.Join(p, '/');
    assert Text.FreeOf(p, '/') by { forall i | 0 <= i < |p| ensures '/' !in p[i] { assert PlainName(p[i]); } }
    Text.SplitJoin(p, '/');
    JoinGoesOn(dest, t);
    PlainGoesOn(dest.rooted, dest.parts, p);
    JoinGoesOn(dest, "/" + t);
    assert "/" + t == "" + ['/'] + t;
    SplitCons("", t);
    OnBlankFirst(dest.rooted, dest.parts, p);
  }

  lemma {:induction false} OnBlankFirst(rooted: bool, before: Path, p: Path)
    ensures CleanOn(rooted, before, [""] + p) == CleanOn(rooted, before, p)
  {
    if p == [] {
      assert [""] + p == [""] && [""][..0] == [];
    } else {
      OnBlankFirst(rooted, before, p[..|p| - 1]);
      assert ([""] + p)[..|p|] == [""] + p[..|p| - 1];
    }
  }

  /**
   What is copied keeps its names if and only if the path asked for is no longer than what stands before
   the names in an entry's path; that does not depend on the entry.
   */
  lemma NamesKeptExactly(source: string, dest: Cleaned, p: Path)
    requires Normal(dest) && PlainPath(p) && p != []
    ensures TargetOf(source, dest, p) == To(Cleaned(dest.rooted, dest.parts + p)) <==> NamesKept(source)
  {
    hide Text.Join, Text.Split, Clean, CleanText, JoinPaths, EntryText, Normal, PlainPath;
    var c, entry, names := Clean(source), EntryText(source, p), Text.Join(p, '/');
    EntrySplits(source, p);
    if NamesKept(source) {
      RightTail(dest, p);
      if |source| == Before(c) {
        assert entry[|source|..] == names;
      } else {
        NearlyBefore(source);
        assert entry[|source|..] == "/" + names;
      }
    } else if |source| <= |entry| {
      TooShort(dest, p, entry[|source|..]);
    }
  }

  /** A path shorter than what stands before the names is shorter by the slash. */
  lemma NearlyBefore(source: string)
    requires |source| < Before(Clean(source))
    ensures Clean(source).parts != [] && |source| == Before(Clean(source)) - 1
  {
    hide Text.Join, Text.Split;
    BlankClean();
    if source != "" { CleanShortens(source); }
  }

  lemma BlankClean()
    ensures Clean("") == Cleaned(false, [])
  {
    hide Text.Split;
    SplitPlain("");
    assert [""][..0] == [];
  }

  /**
   In the terms of a request: not the current directory, and nothing after the clean path but one slash, or for the
   root nothing.
   */
  lemma KeptMeans(source: string)
    requires source != ""
    ensures var c := CleanText(Clean(source));
            NamesKept(source) <==> c != "." && |source| <= if c == "/" then 1 else |c| + 1
  {
    hide Text.Join, Text.Split;
    var c := Clean(source);
    NoParts();
    CleanNormal(source);
    if c.parts != [] {
      JoinNotEmpty(c.parts);
      NotDot(c.parts);
    }
  }

  // What goes wrong otherwise.

  /** From ".", every name loses its first letter. */
  lemma FirstLetterLost(dest: Cleaned, first: char, rest: string)
    requires Normal(dest) && PlainName([first] + rest) && PlainName(rest)
    ensures TargetOf(".", dest, [[first] + rest]) == To(Cleaned(dest.rooted, dest.parts + [rest]))
  {
    hide Text.Split, CleanText, JoinPaths, EntryText, Normal;
    var p := [[first] + rest];
    assert Clean(".") == Cleaned(false, []) by { SplitPlain("."); assert ["."][..0] == []; }
    assert PlainPath(p) && PlainPath([rest]);
    EntrySplits(".", p);
    assert EntryText(".", p)[0..] == EntryText(".", p);
    RightTail(dest, [rest]);
    assert Text.Join(p, '/') == [first] + rest && Text.Join([rest], '/') == rest;
    assert ([first] + rest)[1..] == rest;
  }

  /** From "/etc//" as well; and from "///" a name of one letter is a slice out of range. */
  lemma ShortNameLost(dest: Cleaned)
    requires Normal(dest)
    ensures TargetOf("/etc//", dest, ["hosts"]) == To(Cleaned(dest.rooted, dest.parts + ["osts"]))
    ensures TargetOf("///", dest, ["a"]) == OutOfRange
  {
    hide Text.Split, CleanText, JoinPaths, EntryText, Normal, Clean;
    EtcClean();
    assert PlainPath(["hosts"]) && PlainPath(["osts"]) && PlainPath(["a"]);
    EntrySplits("/etc//", ["hosts"]);
    assert Before(Cleaned(true, ["etc"])) == 5 by { EtcText(); }
    RightTail(dest, ["osts"]);
    var entry := EntryText("/etc//", ["hosts"]);
    assert entry[6..] == entry[5..][1..] == "osts";
    EntrySplits("///", ["a"]);
  }

  lemma EtcText()
    ensures CleanText(Cleaned(true, ["etc"])) == "/etc"
  {
  }

  lemma NothingClean()
    ensures CleanParts(true, []) == []
  {
  }

  lemma OneMore(rooted: bool, parts: seq<string>, part: string)
    ensures CleanParts(rooted, parts + [part]) == CleanStep(rooted, CleanParts(rooted, parts), part)
  {
    assert (parts + [part])[..|parts|] == parts;
  }

  lemma EtcClean()
    ensures Clean("/etc//") == Cleaned(true, ["etc"]) && Clean("///") == Cleaned(true, [])
  {
    hide Text.Split, Text.Join, CleanParts;
    NothingClean();
    assert "/etc//" == "" + ['/'] + "etc//" && "etc//" == "etc" + ['/'] + "/" && "/" == "" + ['/'] + "";
    SplitCons("", "etc//");
    SplitCons("etc", "/");
    SplitCons("", "");
    SplitPlain("");
    assert "///" == "" + ['/'] + "//" && "//" == "" + ['/'] + "/";
    SplitCons("", "//");
    SplitCons("", "/");
    assert Text.Split("/etc//", '/') == ["", "etc", "", ""] && Text.Split("///", '/') == ["", "", "", ""];
    OneMore(true, [], "");
    assert [] + [""] == [""] && [] + ["etc"] == ["etc"];
    OneMore(true, [""], "etc");
    assert [""] + ["etc"] == ["", "etc"] && CleanParts(true, ["", "etc"]) == ["etc"];
    OneMore(true, ["", "etc"], "");
    assert ["", "etc"] + [""] == ["", "etc", ""] && CleanParts(true, ["", "etc", ""]) == ["etc"];
    OneMore(true, ["", "etc", ""], "");
    assert ["", "etc", ""] + [""] == ["", "etc", "", ""];
    OneMore(true, [""], "");
    assert [""] + [""] == ["", ""] && CleanParts(true, ["", ""]) == [];
    OneMore(true, ["", ""], "");
    assert ["", ""] + [""] == ["", "", ""];
    OneMore(true, ["", "", ""], "");
    assert ["", "", ""] + [""] == ["", "", "", ""];
  }
}
