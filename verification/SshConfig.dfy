/** Reading and writing an ssh_config. */
module SshConfig {
  import opened Text
  import opened SshAlias

  datatype Option<T> = None | Some(value: T)

  // Reading.

  datatype Host = Host(alias: string, hostName: string, user: string, port: int, identities: seq<string>,
      proxyJump: string, keepAlive: int)

  function NewHost(alias: string): Host { Host(alias, "", "", 0, [], "", 0) }

  /** What the reader has so far: the block being read is in `current`. */
  datatype Parser = Parser(hosts: seq<Host>, wildcards: seq<Host>, current: Option<Host>, wild: bool)

  predicate Separates(c: char) { c == ' ' || c == '\t' || c == '=' }

  function KeywordEnd(line: string): (i: nat)
    ensures i <= |line|
  {
    if line == "" || Separates(line[0]) then 0 else 1 + KeywordEnd(line[1..])
  }

  function DropSeparators(s: string): string { if s != "" && Separates(s[0]) then DropSeparators(s[1..]) else s }

  /** splitConfigLine. */
  function SplitLine(line: string): (string, string) {
    var i := KeywordEnd(line);
    if i < |line| then (line[..i], Trim(DropSeparators(line[i..]))) else (line, "")
  }

  function DropQuotes(s: string): string { if s != "" && s[0] == '"' then DropQuotes(s[1..]) else s }

  function DropQuotesRight(s: string): string
  { if s != "" && s[|s| - 1] == '"' then DropQuotesRight(s[..|s| - 1]) else s }

  function Unquote(s: string): string { DropQuotesRight(DropQuotes(s)) }

  predicate Digits(s: string) { forall i :: 0 <= i < |s| ==> IsDigit(s[i]) }

  const MaxInt := 9223372036854775807

  /** A number that a machine integer holds. */
  function InRange(n: int): Option<int> { if -MaxInt - 1 <= n <= MaxInt then Some(n) else None }

  /** Go's `strconv.Atoi`. */
  function Atoi(s: string): Option<int> {
    if s != "" && Digits(s) then InRange(NumberOf(s))
    else if |s| > 1 && s[0] == '+' && Digits(s[1..]) then InRange(NumberOf(s[1..]))
    else if |s| > 1 && s[0] == '-' && Digits(s[1..]) then InRange(-NumberOf(s[1..]))
    else None
  }

  /** applySSHKeyword. */
  function ApplyKeyword(h: Host, keyword: string, raw: string): Host {
    var value := Unquote(raw);
    var key := Lower(keyword);
    if key == "hostname" then h.(hostName := value)
    else if key == "user" then h.(user := value)
    else if key == "port" then
      var n := Atoi(value);
      if n.Some? && 0 < n.value < 65536 then h.(port := n.value) else h
    else if key == "identityfile" then h.(identities := h.identities + [value])
    else if key == "proxyjump" then h.(proxyJump := value)
    else if key == "serveraliveinterval" then
      var n := Atoi(value);
      if n.Some? && n.value > 0 then h.(keepAlive := n.value) else h
    else h
  }

  /** Go's `strings.Fields`: the words between blanks. */
  function Fields(s: string): seq<string>
    decreases |s|
  {
    if s == "" then []
    else if IsBlank(s[0]) then Fields(s[1..])
    else
      var i := WordEnd(s);
      [s[..i]] + Fields(s[i..])
  }

  function WordEnd(s: string): (i: nat)
    ensures i <= |s| && (s != "" && !IsBlank(s[0]) ==> i > 0)
  {
    if s == "" || IsBlank(s[0]) then 0 else 1 + WordEnd(s[1..])
  }

  predicate HasWildcard(s: string) { '*' in s || '?' in s || '!' in s }

  function FirstConcrete(patterns: seq<string>): string {
    if patterns == [] then "" else if !HasWildcard(patterns[0]) then patterns[0] else FirstConcrete(patterns[1..])
  }

  /** Words put back together with a space between. */
  function Spaced(patterns: seq<string>): string { Join(patterns, ' ') }

  function Flush(p: Parser): Parser {
    if p.current.None? then p
    else if p.wild then p.(wildcards := p.wildcards + [p.current.value], current := None)
    else p.(hosts := p.hosts + [p.current.value], current := None)
  }

  function BeginHost(p: Parser, value: string): Parser {
    var q := Flush(p);
    var patterns := Fields(value);
    if patterns == [] then q
    else
      var alias := FirstConcrete(patterns);
      if alias == "" then q.(current := Some(NewHost(Spaced(patterns))), wild := true)
      else q.(current := Some(NewHost(alias)), wild := false)
  }

  function ReadLine(p: Parser, raw: string): Parser {
    var line := Trim(raw);
    if line == "" || line[0] == '#' then p
    else
      var (keyword, value) := SplitLine(line);
      var key := Lower(keyword);
      if key == "host" then BeginHost(p, value)
      else if key == "match" then Flush(p)
      else if key == "include" then p
      else if p.current.None? then p
      else p.(current := Some(ApplyKeyword(p.current.value, keyword, value)))
  }

  function ReadLines(p: Parser, lines: seq<string>): Parser {
    if lines == [] then p else ReadLine(ReadLines(p, lines[..|lines| - 1]), lines[|lines| - 1])
  }

  const Start := Parser([], [], None, false)

  function Parse(text: string): Parser { Flush(ReadLines(Start, Split(text, '\n'))) }

  /** parseSSHConfig. */
  method ParseSshConfig(text: string) returns (hosts: seq<Host>, wildcards: seq<Host>)
    ensures hosts == Parse(text).hosts && wildcards == Parse(text).wildcards
  {
    var lines := Split(text, '\n');
    var current: Option<Host> := None;
    var wild := false;
    hosts, wildcards := [], [];
    for i := 0 to |lines|
      invariant ReadLines(Start, lines[..i]) == Parser(hosts, wildcards, current, wild)
    {
      assert lines[..i + 1][..i] == lines[..i];
      ghost var p := Parser(hosts, wildcards, current, wild);
      var line := Trim(lines[i]);
      if line != "" && line[0] != '#' {
        var (keyword, value) := SplitLine(line);
        var key := Lower(keyword);
        if key == "host" || key == "match" {
          if current.Some? {
            if wild { wildcards := wildcards + [current.value]; } else { hosts := hosts + [current.value]; }
            current := None;
          }
          if key == "host" {
            var patterns := Fields(value);
            if patterns != [] {
              var alias := FirstConcrete(patterns);
              wild := alias == "";
              current := Some(NewHost(if wild then Spaced(patterns) else alias));
            }
          }
        } else if key != "include" && current.Some? {
          current := Some(ApplyKeyword(current.value, keyword, value));
        }
      }
      assert ReadLine(p, lines[i]) == Parser(hosts, wildcards, current, wild);
    }
    assert lines[..|lines|] == lines;
    if current.Some? {
      if wild { wildcards := wildcards + [current.value]; } else { hosts := hosts + [current.value]; }
    }
  }

  // Jump chains in what was read.

  /** The part after the last `c`, or all of it. */
  function AfterLast(s: string, c: char): string {
    if s == "" then "" else if s[|s| - 1] == c then "" else AfterLast(s[..|s| - 1], c) + [s[|s| - 1]]
  }

  /** The part before the last `c`, or all of it. */
  function BeforeLast(s: string, c: char): string {
    if c !in s then s else if s[|s| - 1] == c then s[..|s| - 1] else BeforeLast(s[..|s| - 1], c)
  }

  function HopName(raw: string): string {
    var hop := AfterLast(raw, '@');
    if ']' in hop then hop else BeforeLast(hop, ':')
  }

  predicate Ignored(hop: string) { hop == "" || Lower(hop) == "none" }

  function ResolveHops(hops: seq<string>, byAlias: map<string, Id>): seq<Id> {
    if hops == [] then []
    else
      var n := |hops| - 1;
      var before := ResolveHops(hops[..n], byAlias);
      var hop := Trim(hops[n]);
      if Ignored(hop) || HopName(hop) !in byAlias then before else before + [byAlias[HopName(hop)]]
  }

  /** The hops that nobody of that name is known for. */
  function MissingHops(hops: seq<string>, byAlias: map<string, Id>): seq<string> {
    if hops == [] then []
    else
      var n := |hops| - 1;
      var before := MissingHops(hops[..n], byAlias);
      var hop := Trim(hops[n]);
      if Ignored(hop) || HopName(hop) in byAlias then before else before + [HopName(hop)]
  }

  function Counted(hops: seq<string>): nat {
    if hops == [] then 0 else Counted(hops[..|hops| - 1]) + if Ignored(Trim(hops[|hops| - 1])) then 0 else 1
  }

  /** resolveJumpChain: every hop that counts is either found or reported missing. */
  method ResolveJumpChain(value: string, byAlias: map<string, Id>) returns (chain: seq<Id>, missing: seq<string>)
    ensures chain == ResolveHops(Split(value, ','), byAlias) && missing == MissingHops(Split(value, ','), byAlias)
    ensures |chain| + |missing| == Counted(Split(value, ','))
    ensures forall hop :: hop in missing ==> hop !in byAlias
  {
    hide Trim, HopName, Ignored;
    var hops := Split(value, ',');
    chain, missing := [], [];
    for i := 0 to |hops|
      invariant chain == ResolveHops(hops[..i], byAlias) && missing == MissingHops(hops[..i], byAlias)
      invariant |chain| + |missing| == Counted(hops[..i])
      invariant forall hop :: hop in missing ==> hop !in byAlias
    {
      assert hops[..i + 1][..i] == hops[..i];
      var hop := Trim(hops[i]);
      if !Ignored(hop) {
        if HopName(hop) in byAlias {
          chain := chain + [byAlias[HopName(hop)]];
        } else {
          missing := missing + [HopName(hop)];
        }
      }
    }
    assert hops[..|hops|] == hops;
  }

  // Writing.

  const Indent := "    "

  /** Lines that a reader passes over: blank ones and comments. */
  predicate Passed(lines: seq<string>) {
    forall i :: 0 <= i < |lines| ==> '\n' !in lines[i] && (lines[i] == "" || lines[i][0] == '#')
  }

  function KeyFilename(name: string): string { if Slug(name) == "" then "id_key" else Slug(name) }

  function Option1(keyword: string, value: string, there: bool): seq<string> {
    if there then [Indent + keyword + " " + value] else []
  }

  /** The hops by the names they would have if nobody else were called the same. */
  function HopNames(index: map<Id, Session>, chain: seq<Id>): seq<string> {
    if chain == [] then []
    else
      var n := |chain| - 1;
      if chain[n] in index then HopNames(index, chain[..n]) + [Base(index[chain[n]])] else HopNames(index, chain[..n])
  }

  function Block(s: Session, alias: string, hops: seq<string>): seq<string> {
    ["Host " + alias]
    + Option1("HostName", s.hostname, true)
    + Option1("User", s.username, s.username != "")
    + Option1("Port", if s.port >= 0 then Decimal(s.port) else "", s.port > 0 && s.port != 22)
    + Option1("IdentityFile", "~/.ssh/" + KeyFilename(s.key), s.key != "")
    + Option1("ProxyJump", Join(hops, ','), hops != [])
    + [""]
  }

  predicate IsSsh(s: Session) { s.protocol == "" || s.protocol == "ssh" }

  ghost function Blocks(index: map<Id, Session>, ss: seq<Session>, aliases: seq<string>): seq<string>
    requires |ss| == |aliases|
  {
    if ss == [] then []
    else
      var n := |ss| - 1;
      Blocks(index, ss[..n], aliases[..n]) + Block(ss[n], aliases[n], HopNames(index, ss[n].chain))
  }

  function Unlines(lines: seq<string>): string {
    if lines == [] then "" else Unlines(lines[..|lines| - 1]) + lines[|lines| - 1] + "\n"
  }

  function SshOnly(all: seq<Session>): seq<Session> {
    if all == [] then []
    else
      var n := |all| - 1;
      if IsSsh(all[n]) then SshOnly(all[..n]) + [all[n]] else SshOnly(all[..n])
  }

  /** Those of another protocol are left out of the file, and no others. */
  lemma {:induction false} SshOnlyExactly(all: seq<Session>)
    ensures forall s :: multiset(SshOnly(all))[s] == if s.protocol in ["", "ssh"] then multiset(all)[s] else 0
  {
    if all != [] {
      var n := |all| - 1;
      assert all == all[..n] + [all[n]];
      SshOnlyExactly(all[..n]);
    }
  }

  lemma UnlinesLast(a: seq<string>, x: string)
    ensures Unlines(a + [x]) == Unlines(a) + x + "\n"
  {
    assert (a + [x])[..|a|] == a;
  }

  lemma {:induction false} UnlinesJoin(a: seq<string>, b: seq<string>)
    ensures Unlines(a + b) == Unlines(a) + Unlines(b)
  {
    hide Unlines;
    if b == [] {
      assert a + b == a;
      assert Unlines([]) == "" by { NoLines(); }
    } else {
      var n := |b| - 1;
      UnlinesJoin(a, b[..n]);
      UnlinesLast(a + b[..n], b[n]);
      UnlinesLast(b[..n], b[n]);
      assert a + b == (a + b[..n]) + [b[n]] && b == b[..n] + [b[n]];
    }
  }

  lemma NoLines()
    ensures Unlines([]) == ""
  {
  }

  ghost function SshPaths(all: seq<Session>, paths: seq<seq<string>>): seq<seq<string>>
    requires |all| == |paths|
  {
    if all == [] then []
    else
      var n := |all| - 1;
      if IsSsh(all[n]) then SshPaths(all[..n], paths[..n]) + [paths[n]] else SshPaths(all[..n], paths[..n])
  }

  /**
   exportSSHConfig, for connections in the order they are to be written; each with its folder path. The file opens
   with a comment.
   */
  method ExportSshConfig(header: seq<string>, index: map<Id, Session>, all: seq<Session>, paths: seq<seq<string>>)
      returns (text: string, aliases: seq<string>)
    requires |all| == |paths|
    ensures AreAliases(SshOnly(all), SshPaths(all, paths), aliases)
    ensures text == Unlines(header + Blocks(index, SshOnly(all), aliases))
  {
    hide Block, HopNames, IsAlias;
    text := Unlines(header);
    aliases := [];
    var used: set<string> := {};
    assert header + Blocks(index, [], []) == header;
    for i := 0 to |all|
      invariant used == Used(aliases) && AreAliases(SshOnly(all[..i]), SshPaths(all[..i], paths[..i]), aliases)
      invariant text == Unlines(header + Blocks(index, SshOnly(all[..i]), aliases))
    {
      ghost var ss := SshOnly(all[..i]);
      assert all[..i + 1][..i] == all[..i] && paths[..i + 1][..i] == paths[..i];
      if IsSsh(all[i]) {
        var alias := MakeAlias(all[i], paths[i], used);
        var hops := CollectHops(index, all[i].chain);
        OneMoreAlias(ss, SshPaths(all[..i], paths[..i]), aliases, all[i], paths[i], alias);
        OneMoreBlock(header, index, ss, aliases, all[i], alias);
        text := text + Unlines(Block(all[i], alias, hops));
        used := used + {alias};
        aliases := aliases + [alias];
      }
    }
    assert all[..|all|] == all && paths[..|paths|] == paths;
  }

  method CollectHops(index: map<Id, Session>, chain: seq<Id>) returns (hops: seq<string>)
    ensures hops == HopNames(index, chain)
  {
    hops := [];
    for i := 0 to |chain|
      invariant hops == HopNames(index, chain[..i])
    {
      assert chain[..i + 1][..i] == chain[..i];
      if chain[i] in index {
        hops := hops + [Base(index[chain[i]])];
      }
    }
    assert chain[..|chain|] == chain;
  }

  lemma OneMoreAlias(ss: seq<Session>, paths: seq<seq<string>>, aliases: seq<string>, s: Session, path: seq<string>,
      alias: string)
    requires AreAliases(ss, paths, aliases) && IsAlias(s, path, Used(aliases), alias) && alias !in Used(aliases)
    ensures AreAliases(ss + [s], paths + [path], aliases + [alias]) && Used(aliases + [alias]) == Used(aliases) +
    {alias}
  {
    hide IsAlias;
    var more := aliases + [alias];
    assert Used(more) == Used(aliases) + {alias} by {
      assert forall i :: 0 <= i < |aliases| ==> more[i] == aliases[i];
      assert more[|aliases|] == alias;
    }
    forall k | 0 <= k < |more| ensures IsAlias((ss + [s])[k], (paths + [path])[k], Used(more[..k]), more[k])
        && more[k] !in Used(more[..k]) {
      if k < |aliases| { assert more[..k] == aliases[..k]; } else { assert more[..k] == aliases; }
    }
  }

  lemma OneMoreBlock(header: seq<string>, index: map<Id, Session>, ss: seq<Session>, aliases: seq<string>, s: Session,
      alias: string)
    requires |ss| == |aliases|
    ensures Unlines(header + Blocks(index, ss + [s], aliases + [alias]))
            == Unlines(header + Blocks(index, ss, aliases)) + Unlines(Block(s, alias, HopNames(index, s.chain)))
  {
    hide Block, HopNames, Unlines;
    assert (ss + [s])[..|ss|] == ss && (aliases + [alias])[..|ss|] == aliases;
    var more := Block(s, alias, HopNames(index, s.chain));
    assert header + Blocks(index, ss + [s], aliases + [alias]) == (header + Blocks(index, ss, aliases)) + more;
    UnlinesJoin(header + Blocks(index, ss, aliases), more);
  }
}
