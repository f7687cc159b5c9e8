/** From an exported ssh_config back to saved connections. */
module SshImport {
  import opened Text
  import opened SshAlias
  import opened SshConfig
  import opened SshRoundTrip
  import Import

  /** What the importer saves for a host; the key files it may read are not part of this. */
  datatype Saved = Saved(id: Id, name: string, hostname: string, port: int, username: string, chain: seq<Id>)

  ghost predicate AllDiffer(ids: seq<Id>) { forall i, j :: 0 <= i < j < |ids| ==> ids[i] != ids[j] }

  function ChainOf(h: Host, byAlias: map<string, Id>): seq<Id> {
    if h.proxyJump == "" then [] else ResolveHops(Split(h.proxyJump, ','), byAlias)
  }

  function SavedHost(h: Host, id: Id, byAlias: map<string, Id>): Saved {
    Saved(id, h.alias, h.hostName, h.port, h.user, ChainOf(h, byAlias))
  }

  /** The importer's two passes: hosts first, then the chains that name them. */
  method SaveHosts(hosts: seq<Host>, ids: seq<Id>) returns (saved: seq<Saved>)
    requires |hosts| == |ids|
    ensures |saved| == |hosts|
    ensures forall k :: 0 <= k < |saved| ==> saved[k] == SavedHost(hosts[k], ids[k], ByAlias(hosts, ids))
  {
    hide ResolveHops, MissingHops, Counted, Split;
    var byAlias: map<string, Id> := map[];
    saved := [];
    for i := 0 to |hosts|
      invariant byAlias == ByAlias(hosts[..i], ids[..i]) && |saved| == i
      invariant forall k :: 0 <= k < i ==> saved[k] == SavedHost(hosts[k], ids[k], map[]).(chain := [])
    {
      assert hosts[..i + 1][..i] == hosts[..i] && ids[..i + 1][..i] == ids[..i];
      saved := saved + [Saved(ids[i], hosts[i].alias, hosts[i].hostName, hosts[i].port, hosts[i].user, [])];
      byAlias := byAlias[hosts[i].alias := ids[i]];
    }
    assert hosts[..|hosts|] == hosts && ids[..|ids|] == ids;
    for i := 0 to |hosts|
      invariant |saved| == |hosts|
      invariant forall k :: 0 <= k < |saved| ==>
        saved[k] == if k < i then SavedHost(hosts[k], ids[k], byAlias)
        else SavedHost(hosts[k], ids[k], map[]).(chain := [])
    {
      if hosts[i].proxyJump != "" {
        var chain, missing := ResolveJumpChain(hosts[i].proxyJump, byAlias);
        if chain != [] {
          saved := saved[i := saved[i].(chain := chain)];
        }
      }
    }
  }

  ghost function Table(index: map<Id, Session>, ss: seq<Session>, aliases: seq<string>, ids: seq<Id>): map<string, Id>
    requires |ss| == |aliases| == |ids|
  {
    ByAlias(HostsOf(index, ss, aliases), ids)
  }

  lemma TableAt(index: map<Id, Session>, ss: seq<Session>, paths: seq<seq<string>>, aliases: seq<string>, ids: seq<Id>,
      k: nat)
    requires AreAliases(ss, paths, aliases) && |ids| == |ss| && k < |ss|
    ensures aliases[k] in Table(index, ss, aliases, ids) && Table(index, ss, aliases, ids)[aliases[k]] == ids[k]
  {
    hide AreAliases, ByAlias, HopNames;
    SameLength(ss, paths, aliases);
    var hosts := HostsOf(index, ss, aliases);
    forall i, j | 0 <= i < j < |hosts| ensures hosts[i].alias != hosts[j].alias
    { AliasesDiffer(ss, paths, aliases, i, j); }
    ByAliasFinds(hosts, ids, k);
  }

  /** What an exported connection is read back as, whatever the names are. */
  ghost predicate ReadAs(saved: Saved, s: Session, alias: string, id: Id, chain: seq<Id>) {
    && saved.id == id && saved.name == alias && saved.hostname == s.hostname && saved.username == s.username
    && saved.port == (if s.port > 0 && s.port != 22 then s.port else 0) && saved.chain == chain
  }

  lemma SavedAs(index: map<Id, Session>, ss: seq<Session>, paths: seq<seq<string>>, aliases: seq<string>, ids: seq<Id>,
      k: nat)
    requires AreAliases(ss, paths, aliases) && |ids| == |ss| && k < |ss|
    ensures var table := Table(index, ss, aliases, ids);
            ReadAs(SavedHost(HostsOf(index, ss, aliases)[k], ids[k], table), ss[k], aliases[k], ids[k],
                Known(HopNames(index, ss[k].chain), table))
  {
    hide AreAliases, ByAlias, HopNames, Known, ResolveHops, Split;
    SameLength(ss, paths, aliases);
    var hops := HopNames(index, ss[k].chain);
    HopNamesTame(index, ss[k].chain);
    ChainRead(hops, Table(index, ss, aliases, ids));
    if hops == []
    { assert Known(hops, Table(index, ss, aliases, ids)) == [] by { KnownNone(Table(index, ss, aliases, ids)); } }
  }

  lemma KnownNone(table: map<string, Id>)
    ensures Known([], table) == []
  {
  }

  // Hops.

  /** `index` finds every exported connection by its identifier, and no two have the same one. */
  ghost predicate Indexes(index: map<Id, Session>, ss: seq<Session>) {
    && (forall k :: 0 <= k < |ss| ==> ss[k].id in index && index[ss[k].id] == ss[k])
    && (forall i, j :: 0 <= i < j < |ss| ==> ss[i].id != ss[j].id)
    && (forall id :: id in index ==> index[id].id == id)
  }

  /** The new identifier of each exported connection. */
  function Renames(ss: seq<Session>, ids: seq<Id>): map<Id, Id>
    requires |ss| == |ids|
  {
    if ss == [] then map[]
    else
      var n := |ss| - 1;
      Renames(ss[..n], ids[..n])[ss[n].id := ids[n]]
  }

  lemma {:induction false} RenamesFinds(ss: seq<Session>, ids: seq<Id>, k: nat)
    requires |ss| == |ids| && k < |ss| && forall i, j :: 0 <= i < j < |ss| ==> ss[i].id != ss[j].id
    ensures ss[k].id in Renames(ss, ids) && Renames(ss, ids)[ss[k].id] == ids[k]
  {
    var n := |ss| - 1;
    if k < n { RenamesFinds(ss[..n], ids[..n], k); }
  }

  lemma {:induction false} RenamesOnly(ss: seq<Session>, ids: seq<Id>, id: Id) returns (k: nat)
    requires |ss| == |ids| && id in Renames(ss, ids)
    ensures k < |ss| && ss[k].id == id
  {
    var n := |ss| - 1;
    if ss[n].id == id { k := n; } else { k := RenamesOnly(ss[..n], ids[..n], id); }
  }

  lemma TableOnly(index: map<Id, Session>, ss: seq<Session>, aliases: seq<string>, ids: seq<Id>, alias: string)
      returns (k: nat)
    requires |ss| == |aliases| == |ids| && alias in Table(index, ss, aliases, ids)
    ensures k < |ss| && aliases[k] == alias
  {
    hide ByAlias, HopNames;
    k := ByAliasOnly(HostsOf(index, ss, aliases), ids, alias);
  }

  /**
   The base name of an exported connection leads to it exactly when its alias is that name; it always leads somewhere.
   */
  lemma BaseLeads(index: map<Id, Session>, ss: seq<Session>, paths: seq<seq<string>>, aliases: seq<string>,
      ids: seq<Id>, k: nat)
    requires AreAliases(ss, paths, aliases) && |ids| == |ss| && AllDiffer(ids) && k < |ss|
    ensures Base(ss[k]) in Table(index, ss, aliases, ids)
    ensures Table(index, ss, aliases, ids)[Base(ss[k])] == ids[k] <==> aliases[k] == Base(ss[k])
  {
    hide AreAliases, Base, Table;
    SameLength(ss, paths, aliases);
    BaseUsed(ss, paths, aliases, k);
    var j :| 0 <= j < k + 1 && aliases[..k + 1][j] == Base(ss[k]);
    TableAt(index, ss, paths, aliases, ids, j);
    if j < k {
      AliasesDiffer(ss, paths, aliases, j, k);
      assert ids[j] != ids[k];
    }
  }

  /**
   Whether a hop survives being written and read. One that is in the file: its alias is its base name,
   and that is not "none". One that is not: its base name is nobody's alias, or "none".
   */
  ghost predicate HopKept(index: map<Id, Session>, ss: seq<Session>, aliases: seq<string>, hop: Id)
    requires |ss| == |aliases|
  {
    hop in index ==>
      && (forall k :: 0 <= k < |ss| && ss[k].id == hop ==> aliases[k] == Base(index[hop]) != "none")
      && ((forall k ::
          0 <= k < |ss| ==> ss[k].id != hop) ==> Base(index[hop]) == "none" || Base(index[hop]) !in aliases)
  }

  /** What one hop is read as. */
  ghost function HopRead(index: map<Id, Session>, table: map<string, Id>, hop: Id): seq<Id> {
    if hop in index && Base(index[hop]) != "none" && Base(index[hop]) in table then [table[Base(index[hop])]] else []
  }

  /** What one hop should be read as. */
  function HopMeant(renames: map<Id, Id>, hop: Id): seq<Id> { if hop in renames then [renames[hop]] else [] }

  /** A hop is read as it was meant if and only if it is kept. */
  lemma HopRightExactly(index: map<Id, Session>, ss: seq<Session>, paths: seq<seq<string>>, aliases: seq<string>,
      ids: seq<Id>, hop: Id)
    requires AreAliases(ss, paths, aliases) && |ids| == |ss| && AllDiffer(ids) && Indexes(index, ss)
    ensures |ss| == |aliases|
    ensures HopRead(index, Table(index, ss, aliases, ids), hop) == HopMeant(Renames(ss, ids), hop)
      <==> HopKept(index, ss, aliases, hop)
  {
    hide AreAliases, Base, Table, Renames;
    SameLength(ss, paths, aliases);
    var table, renames := Table(index, ss, aliases, ids), Renames(ss, ids);
    if hop in renames {
      var k := RenamesOnly(ss, ids, hop);
      RenamesFinds(ss, ids, k);
      BaseLeads(index, ss, paths, aliases, ids, k);
      assert index[hop] == ss[k];
    } else {
      NotExported(ss, ids, hop);
      if hop in index {
        if Base(index[hop]) in table { var k := TableOnly(index, ss, aliases, ids, Base(index[hop])); }
        if Base(index[hop]) in aliases {
          var k :| 0 <= k < |aliases| && aliases[k] == Base(index[hop]);
          TableAt(index, ss, paths, aliases, ids, k);
        }
      }
    }
  }

  /** Said of what is saved: a connection with one hop is saved with the hop it had if and only if that is kept. */
  lemma SavedHopExactly(index: map<Id, Session>, ss: seq<Session>, paths: seq<seq<string>>, aliases: seq<string>,
      ids: seq<Id>, m: nat)
    requires AreAliases(ss, paths, aliases) && |ids| == |ss| == |aliases| && AllDiffer(ids) && Indexes(index, ss)
    requires m < |ss| && |ss[m].chain| == 1
    ensures var saved := SavedHost(HostsOf(index, ss, aliases)[m], ids[m], Table(index, ss, aliases, ids));
            saved.chain == Import.MapChain(Renames(ss, ids), ss[m].chain)
            <==> HopKept(index, ss, aliases, ss[m].chain[0])
  {
    hide AreAliases, Renames, Table, Known, HopNames, SavedHost, HopKept, Indexes, HopRead, HostOf;
    var hop, table := ss[m].chain[0], Table(index, ss, aliases, ids);
    assert ss[m].chain == [hop];
    SavedAs(index, ss, paths, aliases, ids, m);
    ChainOfOne(index, hop, table);
    HopRightExactly(index, ss, paths, aliases, ids, hop);
    MeantOne(Renames(ss, ids), hop);
  }

  lemma MeantOne(renames: map<Id, Id>, hop: Id)
    ensures Import.MapChain(renames, [hop]) == HopMeant(renames, hop)
  {
    assert [hop][..0] == [];
    if hop in renames { MapOne(renames, hop); }
  }

  lemma NotExported(ss: seq<Session>, ids: seq<Id>, hop: Id)
    requires |ids| == |ss| && hop !in Renames(ss, ids) && forall i, j :: 0 <= i < j < |ss| ==> ss[i].id != ss[j].id
    ensures forall k :: 0 <= k < |ss| ==> ss[k].id != hop
  {
    hide Renames;
    forall k | 0 <= k < |ss| ensures ss[k].id != hop { RenamesFinds(ss, ids, k); }
  }

  /** An alias is the base name exactly when nobody earlier in the file took that. */
  lemma PlainExactly(ss: seq<Session>, paths: seq<seq<string>>, aliases: seq<string>, k: nat)
    requires AreAliases(ss, paths, aliases) && k < |ss|
    ensures aliases[k] == Base(ss[k]) <==> Base(ss[k]) !in aliases[..k]
  {
    hide Base, Qualified, Numbered;
    assert IsAlias(ss[k], paths[k], Used(aliases[..k]), aliases[k]) && aliases[k] !in Used(aliases[..k]);
    if Base(ss[k]) in aliases[..k] {
      var i :| 0 <= i < k && aliases[..k][i] == Base(ss[k]);
      assert Base(ss[k]) in Used(aliases[..k]);
    }
  }

  /** So of two connections with one base name, the later one's is the earlier one's alias, or an even earlier one's. */
  lemma LaterMisread(index: map<Id, Session>, ss: seq<Session>, paths: seq<seq<string>>, aliases: seq<string>,
      ids: seq<Id>, i: nat, j: nat)
    requires AreAliases(ss, paths, aliases) && |ids| == |ss| && AllDiffer(ids) && Indexes(index, ss) && i < j < |ss|
    requires Base(ss[i]) == Base(ss[j]) && Base(ss[j]) != "none"
    ensures |HopRead(index, Table(index, ss, aliases, ids), ss[j].id)| == 1
    ensures HopRead(index, Table(index, ss, aliases, ids), ss[j].id) != [ids[j]]
  {
    hide AreAliases, Base, Table;
    SameLength(ss, paths, aliases);
    BaseUsed(ss, paths, aliases, i);
    PlainExactly(ss, paths, aliases, j);
    var n :| 0 <= n < i + 1 && aliases[..i + 1][n] == Base(ss[i]);
    assert aliases[..j][n] == Base(ss[j]);
    BaseLeads(index, ss, paths, aliases, ids, j);
  }

  /**
   Two connections called "a", and a third that is reached through the second: it is read as reached through the
   first.
   */
  lemma Misread()
    ensures var s1, s2 := Session("1", "a", "ssh", "x", 22, "", "", []), Session("2", "a", "ssh", "y", 22, "", "", []);
            var s3 := Session("3", "b", "ssh", "z", 22, "", "", ["2"]);
            var ss, ids := [s1, s2, s3], ["4", "5", "6"];
            var index, aliases := map["1" := s1, "2" := s2, "3" := s3], ["a", "a-2", "b"];
            && AreAliases(ss, [[], [], []], aliases)
            && SavedHost(HostsOf(index, ss, aliases)[2], "6", Table(index, ss, aliases, ids)).chain == ["4"]
            && Import.MapChain(Renames(ss, ids), s3.chain) == ["5"]
  {
    hide Known, HopNames, Slug, ByAlias, HostOf, SavedHost, Renames, AreAliases, Import.MapChain, Base, Table;
    var s1, s2 := Session("1", "a", "ssh", "x", 22, "", "", []), Session("2", "a", "ssh", "y", 22, "", "", []);
    var s3 := Session("3", "b", "ssh", "z", 22, "", "", ["2"]);
    var ss, ids, paths := [s1, s2, s3], ["4", "5", "6"], [[], [], []];
    var index, aliases := map["1" := s1, "2" := s2, "3" := s3], ["a", "a-2", "b"];
    LetterBase(s1);
    LetterBase(s2);
    LetterBase(s3);
    MisreadAliases(s1, s2, s3);
    var table := Table(index, ss, aliases, ids);
    SavedAs(index, ss, paths, aliases, ids, 2);
    TableAt(index, ss, paths, aliases, ids, 0);
    ChainOfOne(index, "2", table);
    assert HopRead(index, table, "2") == ["4"];
    RenamesFinds(ss, ids, 1);
    MapOne(Renames(ss, ids), "2");
  }

  lemma LetterBase(s: Session)
    requires |s.name| == 1 && 'a' <= s.name[0] <= 'z'
    ensures Base(s) == s.name
  {
    hide Slug;
    LetterSlug(s.name[0]);
    assert s.name == [s.name[0]];
  }

  lemma MapOne(renames: map<Id, Id>, hop: Id)
    requires hop in renames
    ensures Import.MapChain(renames, [hop]) == [renames[hop]]
  {
    assert [hop][..0] == [] && [] + [renames[hop]] == [renames[hop]];
  }

  lemma LetterSlug(c: char)
    requires 'a' <= c <= 'z'
    ensures Slug([c]) == [c]
  {
    assert [c][1..] == "";
    assert SlugFrom([c], true) == [c] + SlugFrom("", false);
    assert [c] + "" == [c];
  }

  lemma MisreadAliases(s1: Session, s2: Session, s3: Session)
    requires Base(s1) == "a" && Base(s2) == "a" && Base(s3) == "b"
    ensures AreAliases([s1, s2, s3], [[], [], []], ["a", "a-2", "b"])
  {
    hide Base;
    var aliases := ["a", "a-2", "b"];
    assert aliases[..0] == [] && aliases[..1] == ["a"] && aliases[..2] == ["a", "a-2"];
    assert Used(aliases[..0]) == {};
    assert Used(aliases[..1]) == {"a"} by { assert aliases[..1][0] == "a"; }
    assert Used(aliases[..2]) == {"a", "a-2"} by {
      assert aliases[..2][0] == "a" && aliases[..2][1] == "a-2";
    }
    assert Numbered("a", 2) == "a-2";
    assert IsFirstFree("a", {"a"}, 2) by { assert |Numbered("a", 2)| == 3; }
    assert IsAlias(s2, [], {"a"}, "a-2");
  }

  lemma ChainOfOne(index: map<Id, Session>, hop: Id, table: map<string, Id>)
    ensures Known(HopNames(index, [hop]), table) == HopRead(index, table, hop)
  {
    hide Base;
    assert [hop][..0] == [];
    if hop in index {
      var b := Base(index[hop]);
      assert HopNames(index, [hop]) == [b] by { assert [] + [b] == [b]; }
      assert [b][..0] == [];
    }
  }

  // Whole chains.

  lemma HopsSplit(index: map<Id, Session>, chain: seq<Id>, table: map<string, Id>)
    requires chain != []
    ensures var n := |chain| - 1;
            Known(HopNames(index, chain), table)
                == Known(HopNames(index, chain[..n]), table) + HopRead(index, table, chain[n])
  {
    hide Base;
    var n := |chain| - 1;
    var before := HopNames(index, chain[..n]);
    if chain[n] in index {
      assert (before + [Base(index[chain[n]])])[..|before|] == before;
    }
  }

  /** A chain all of whose hops are kept is read as it was. */
  lemma {:induction false} ChainKept(index: map<Id, Session>, ss: seq<Session>, paths: seq<seq<string>>,
      aliases: seq<string>, ids: seq<Id>, chain: seq<Id>)
    requires AreAliases(ss, paths, aliases) && |ids| == |ss| && AllDiffer(ids) && Indexes(index, ss)
      && |ss| == |aliases|
    requires forall i :: 0 <= i < |chain| ==> HopKept(index, ss, aliases, chain[i])
    ensures Known(HopNames(index, chain), Table(index, ss, aliases, ids)) == Import.MapChain(Renames(ss, ids), chain)
  {
    hide AreAliases, Table, Renames, HopKept, Indexes, HopRead;
    if chain != [] {
      var n := |chain| - 1;
      ChainKept(index, ss, paths, aliases, ids, chain[..n]);
      HopsSplit(index, chain, Table(index, ss, aliases, ids));
      HopRightExactly(index, ss, paths, aliases, ids, chain[n]);
    } else {
      assert Known(HopNames(index, []), Table(index, ss, aliases, ids)) == [] by
      { NoHops(index, Table(index, ss, aliases, ids)); }
    }
  }

  lemma NoHops(index: map<Id, Session>, table: map<string, Id>)
    ensures Known(HopNames(index, []), table) == []
  {
  }

  /** A hop that is in the file is read as one hop, or none. */
  lemma {:induction false} ReadAtMost(index: map<Id, Session>, table: map<string, Id>, chain: seq<Id>)
    ensures |Known(HopNames(index, chain), table)| <= |chain|
  {
    hide Base;
    if chain != [] {
      ReadAtMost(index, table, chain[..|chain| - 1]);
      HopsSplit(index, chain, table);
    }
  }

  lemma {:induction false} MeantAll(renames: map<Id, Id>, chain: seq<Id>)
    requires forall i :: 0 <= i < |chain| ==> chain[i] in renames
    ensures |Import.MapChain(renames, chain)| == |chain|
  {
    if chain != [] { MeantAll(renames, chain[..|chain| - 1]); }
  }

  /** A chain through exported connections only is read as it was if and only if every hop is kept. */
  lemma {:induction false} ChainRightExactly(index: map<Id, Session>, ss: seq<Session>, paths: seq<seq<string>>,
      aliases: seq<string>, ids: seq<Id>, chain: seq<Id>)
    requires AreAliases(ss, paths, aliases) && |ids| == |ss| && AllDiffer(ids) && Indexes(index, ss)
      && |ss| == |aliases|
    requires forall i :: 0 <= i < |chain| ==> chain[i] in Renames(ss, ids)
    ensures Known(HopNames(index, chain), Table(index, ss, aliases, ids)) == Import.MapChain(Renames(ss, ids), chain)
            <==> forall i :: 0 <= i < |chain| ==> HopKept(index, ss, aliases, chain[i])
  {
    hide AreAliases, Table, Renames, HopKept, Indexes, HopRead, HopNames, Known;
    var table, renames := Table(index, ss, aliases, ids), Renames(ss, ids);
    if forall i :: 0 <= i < |chain| ==> HopKept(index, ss, aliases, chain[i]) {
      ChainKept(index, ss, paths, aliases, ids, chain);
    } else if Known(HopNames(index, chain), table) == Import.MapChain(renames, chain) {
      var n := |chain| - 1;
      HopsSplit(index, chain, table);
      ReadAtMost(index, table, chain[..n]);
      MeantAll(renames, chain[..n]);
      OneEach(index, table, renames, chain[n]);
      var p, q := Known(HopNames(index, chain[..n]), table), Import.MapChain(renames, chain[..n]);
      SameSplit(p, HopRead(index, table, chain[n]), q, HopMeant(renames, chain[n]));
      ChainRightExactly(index, ss, paths, aliases, ids, chain[..n]);
      HopRightExactly(index, ss, paths, aliases, ids, chain[n]);
      LastAndRest(index, ss, aliases, chain[..n], chain);
    }
  }

  lemma OneEach(index: map<Id, Session>, table: map<string, Id>, renames: map<Id, Id>, hop: Id)
    requires hop in renames
    ensures |HopRead(index, table, hop)| <= 1 && |HopMeant(renames, hop)| == 1
  {
    hide Base;
  }

  lemma SameSplit(p: seq<Id>, x: seq<Id>, q: seq<Id>, y: seq<Id>)
    requires p + x == q + y && |p| <= |q| && |x| <= |y|
    ensures p == q && x == y
  {
    assert |p| + |x| == |q| + |y|;
    assert p == (p + x)[..|p|] && q == (q + y)[..|q|];
    assert x == (p + x)[|p|..] && y == (q + y)[|q|..];
  }

  lemma LastAndRest(index: map<Id, Session>, ss: seq<Session>, aliases: seq<string>, rest: seq<Id>, chain: seq<Id>)
    requires |ss| == |aliases| && chain != [] && HopKept(index, ss, aliases, chain[|chain| - 1])
    requires rest == chain[..|chain| - 1] && forall i :: 0 <= i < |rest| ==> HopKept(index, ss, aliases, rest[i])
    ensures forall i :: 0 <= i < |chain| ==> HopKept(index, ss, aliases, chain[i])
  {
    hide HopKept;
    var n := |chain| - 1;
    forall i | 0 <= i < |chain| ensures HopKept(index, ss, aliases, chain[i]) {
      if i < n { assert rest[i] == chain[i]; }
    }
  }

  /**
   The round trip: every SSH connection is read back under its alias, with its address, its user, its
   port (22 becomes the default), and with its jump chain, each hop under the identifier of the
   connection it was, if its hops are kept.
   */
  lemma ReadBack(header: seq<string>, index: map<Id, Session>, all: seq<Session>, paths: seq<seq<string>>,
      aliases: seq<string>, ids: seq<Id>, k: nat)
    requires AreAliases(SshOnly(all), paths, aliases) && |ids| == |SshOnly(all)| && AllDiffer(ids)
      && k < |SshOnly(all)| == |aliases|
    requires Indexes(index, SshOnly(all)) && Passed(header) && AllWritable(SshOnly(all))
    requires forall i ::
      0 <= i < |SshOnly(all)[k].chain| ==> HopKept(index, SshOnly(all), aliases, SshOnly(all)[k].chain[i])
    ensures var ss := SshOnly(all);
            var hosts := Parse(Unlines(header + Blocks(index, ss, aliases))).hosts;
            && |hosts| == |ss|
            && ReadAs(SavedHost(hosts[k], ids[k], ByAlias(hosts, ids)), ss[k], aliases[k], ids[k],
                Import.MapChain(Renames(ss, ids), ss[k].chain))
  {
    hide AreAliases, SshOnly, Renames, Parse, Unlines, Blocks, Passed, AllWritable, Known, HopNames, ReadAs, SavedHost,
        ByAlias, HopKept, Indexes;
    var ss := SshOnly(all);
    FileRead(header, index, ss, paths, aliases);
    SavedAs(index, ss, paths, aliases, ids, k);
    ChainKept(index, ss, paths, aliases, ids, ss[k].chain);
  }

  ghost predicate BasesDiffer(ss: seq<Session>) { forall i, j :: 0 <= i < j < |ss| ==> Base(ss[i]) != Base(ss[j]) }

  /**
   When the base names of the SSH connections differ, each has its own as its alias; and all hops are
   kept when no hop is called "none" and no connection of another kind is called like an SSH one.
   */
  lemma PlainNamesKept(index: map<Id, Session>, ss: seq<Session>, paths: seq<seq<string>>, aliases: seq<string>,
      hop: Id)
    requires AreAliases(ss, paths, aliases) && Indexes(index, ss) && BasesDiffer(ss)
    requires hop in index ==> if index[hop] in ss then Base(index[hop]) != "none" else forall k ::
      0 <= k < |ss| ==> Base(ss[k]) != Base(index[hop])
    ensures |ss| == |aliases| && (forall k ::
      0 <= k < |ss| ==> aliases[k] == Base(ss[k])) && HopKept(index, ss, aliases, hop)
  {
    hide AreAliases, Base;
    SameLength(ss, paths, aliases);
    forall k | 0 <= k < |ss| ensures aliases[k] == Base(ss[k]) { DistinctBases(ss, paths, aliases, k); }
    if hop in index && index[hop] in ss {
      var m :| 0 <= m < |ss| && ss[m] == index[hop];
      assert ss[m].id == hop;
      forall k | 0 <= k < |ss| && ss[k].id == hop ensures k == m { }
    } else if hop in index {
      forall k | 0 <= k < |ss| ensures ss[k].id != hop { assert index[ss[k].id] == ss[k]; }
    }
  }
}
