/** Reading back an ssh_config that was written out. */
module SshRoundTrip {
  import opened Text
  import opened SshAlias
  import opened SshConfig

  // Trimming.

  lemma {:induction false} TrimLeftBlanks(indent: string, v: string)
    requires (forall i :: 0 <= i < |indent| ==> IsBlank(indent[i])) && (v == "" || !IsBlank(v[0]))
    ensures TrimLeft(indent + v) == v
  {
    if indent == "" {
      assert indent + v == v;
    } else {
      assert (indent + v)[1..] == indent[1..] + v;
      TrimLeftBlanks(indent[1..], v);
    }
  }

  lemma {:induction false} TrimRightFirst(s: string)
    requires s != "" && !IsBlank(s[0])
    ensures TrimRight(s) != "" && TrimRight(s)[0] == s[0]
  {
    if IsBlank(s[|s| - 1]) { TrimRightFirst(s[..|s| - 1]); }
  }

  // One line.

  /** A value that survives being written after a keyword. */
  ghost predicate Plain(v: string) {
    '\n' !in v && Trim(v) == v && (v != "" ==> v[0] != '=' && v[0] != '"' && v[|v| - 1] != '"')
  }

  ghost predicate Keyword(k: string) {
    k != "" && k[0] != '#' && forall i :: 0 <= i < |k| ==> !IsBlank(k[i]) && !Separates(k[i])
  }

  lemma UnquotePlain(v: string)
    requires Plain(v)
    ensures Unquote(v) == v
  {
  }

  lemma {:induction false} KeywordEnds(k: string, rest: string)
    requires (forall i :: 0 <= i < |k| ==> !Separates(k[i])) && (rest == "" || Separates(rest[0]))
    ensures KeywordEnd(k + rest) == |k|
  {
    if k == "" {
      assert k + rest == rest;
    } else {
      assert (k + rest)[1..] == k[1..] + rest;
      KeywordEnds(k[1..], rest);
    }
  }

  lemma LineTrimmed(indent: string, k: string, v: string)
    requires Keyword(k) && Plain(v) && (forall i :: 0 <= i < |indent| ==> IsBlank(indent[i]))
    ensures Trim(indent + k + " " + v) == if v == "" then k else k + " " + v
  {
    hide Trim, TrimLeft, TrimRight;
    assert indent + k + " " + v == indent + (k + " " + v);
    TrimLeftBlanks(indent, k + " " + v);
    TrimIs(indent + (k + " " + v));
    if v == "" {
      assert k + " " + v == k + " ";
      OneBlankRight(k);
    } else {
      TrimmedEnds(v);
      EndsTrimmed(k + " " + v);
    }
  }

  lemma TrimIs(s: string)
    ensures Trim(s) == TrimRight(TrimLeft(s))
  {
  }

  lemma OneBlankRight(k: string)
    requires Keyword(k)
    ensures TrimRight(k + " ") == k
  {
    assert (k + " ")[..|k|] == k;
  }

  lemma LineSplit(k: string, v: string)
    requires Keyword(k) && Plain(v)
    ensures SplitLine(if v == "" then k else k + " " + v) == (k, v)
  {
    hide Trim;
    if v == "" {
      KeywordEnds(k, "");
      assert k + "" == k;
    } else {
      var line := k + " " + v;
      assert line == k + (" " + v);
      KeywordEnds(k, " " + v);
      assert line[..|k|] == k && line[|k|..] == " " + v;
      TrimmedEnds(v);
      assert (" " + v)[1..] == v;
      assert DropSeparators(" " + v) == DropSeparators(v);
      assert DropSeparators(v) == v;
    }
  }

  /** A written line is read as its keyword and its value. */
  lemma LineRead(p: Parser, indent: string, k: string, v: string)
    requires Keyword(k) && Plain(v) && (forall i :: 0 <= i < |indent| ==> IsBlank(indent[i]))
    requires Lower(k) != "match" && Lower(k) != "include"
    ensures ReadLine(p, indent + k + " " + v)
            == if Lower(k) == "host" then BeginHost(p, v)
               else if p.current.None? then p
               else p.(current := Some(ApplyKeyword(p.current.value, k, v)))
  {
    hide Trim, SplitLine, Lower, ApplyKeyword, BeginHost;
    LineTrimmed(indent, k, v);
    LineSplit(k, v);
  }

  lemma LinePassed(p: Parser, raw: string)
    requires raw == "" || raw[0] == '#'
    ensures ReadLine(p, raw) == p
  {
    hide SplitLine, ApplyKeyword, BeginHost;
    if raw != "" { TrimRightFirst(raw); }
  }

  lemma {:induction false} LinesPassed(p: Parser, lines: seq<string>)
    requires Passed(lines)
    ensures ReadLines(p, lines) == p
  {
    hide ReadLine;
    if lines != [] {
      LinesPassed(p, lines[..|lines| - 1]);
      LinePassed(p, lines[|lines| - 1]);
    }
  }

  lemma {:induction false} ReadAppend(p: Parser, a: seq<string>, b: seq<string>)
    ensures ReadLines(p, a + b) == ReadLines(ReadLines(p, a), b)
  {
    hide ReadLine;
    if b == [] {
      assert a + b == a;
    } else {
      var n := |b| - 1;
      ReadAppend(p, a, b[..n]);
      assert (a + b)[..|a + b| - 1] == a + b[..n];
    }
  }

  lemma ReadOne(p: Parser, line: string)
    ensures ReadLines(p, [line]) == ReadLine(p, line)
  {
    hide ReadLine;
    assert [line][..0] == [];
  }

  // Values that are plain.

  lemma TamePlain(s: string)
    requires Tame(s)
    ensures Plain(s) && Lower(s) == s
  {
    hide Trim;
    TameChars(s);
    EndsTrimmed(s);
    assert Lower(s) == s;
  }

  ghost predicate TameOrComma(s: string) { forall i :: 0 <= i < |s| ==> Typable(s[i]) || s[i] in "-,~/" }

  lemma NearlyTamePlain(s: string)
    requires TameOrComma(s)
    ensures Plain(s)
  {
    hide Trim;
    EndsTrimmed(s);
  }

  lemma {:induction false} JoinTame(hops: seq<string>)
    requires forall i :: 0 <= i < |hops| ==> Tame(hops[i])
    ensures TameOrComma(Join(hops, ','))
  {
    if |hops| > 1 { JoinTame(hops[1..]); }
  }

  lemma NumberPlain(n: nat)
    ensures Plain(Decimal(n)) && (n <= MaxInt ==> Atoi(Decimal(n)) == Some(n))
  {
    hide Trim;
    NumberOfDecimal(n);
    TameNumber(n);
    TamePlain(Decimal(n));
  }

  // One block.

  /** Fields that an ssh_config can carry. */
  ghost predicate Writable(s: Session) { Plain(s.hostname) && Plain(s.username) && s.port < 65536 }

  function HostOf(s: Session, alias: string, hops: seq<string>): Host {
    Host(alias, s.hostname, s.username, if s.port > 0 && s.port != 22 then s.port else 0,
         if s.key != "" then ["~/.ssh/" + KeyFilename(s.key)] else [], Join(hops, ','), 0)
  }

  lemma AliasRead(p: Parser, alias: string)
    requires Tame(alias) && alias != ""
    ensures ReadLine(p, "Host " + alias) == Flush(p).(current := Some(NewHost(alias)), wild := false)
  {
    hide Trim, ReadLine;
    TamePlain(alias);
    TameChars(alias);
    assert Lower("Host") == "host";
    assert "Host " + alias == "" + "Host" + " " + alias;
    LineRead(p, "", "Host", alias);
    OneWord(alias);
  }

  lemma {:induction false} WordEnds(s: string)
    requires forall i :: 0 <= i < |s| ==> !IsBlank(s[i])
    ensures WordEnd(s) == |s|
  {
    if s != "" { WordEnds(s[1..]); }
  }

  lemma OneWord(s: string)
    requires s != "" && (forall c :: c in s ==> !IsBlank(c))
    ensures Fields(s) == [s]
  {
    WordEnds(s);
    assert s[..|s|] == s && s[|s|..] == "";
  }

  /** The current block with one more setting. */
  lemma SettingRead(p: Parser, k: string, v: string)
    requires Keyword(k) && Plain(v) && p.current.Some? && Lower(k) != "match" && Lower(k) != "include"
      && Lower(k) != "host"
    ensures ReadLines(p, [Indent + k + " " + v]) == p.(current := Some(ApplyKeyword(p.current.value, k, v)))
  {
    hide Lower, ApplyKeyword, Trim, Plain;
    ReadOne(p, Indent + k + " " + v);
    LineRead(p, Indent, k, v);
  }

  lemma OptionRead(p: Parser, k: string, v: string, there: bool)
    requires Keyword(k) && p.current.Some? && Lower(k) != "match" && Lower(k) != "include" && Lower(k) != "host"
    requires there ==> Plain(v)
    ensures ReadLines(p, Option1(k, v, there)) == if there
      then p.(current := Some(ApplyKeyword(p.current.value, k, v))) else p
  {
    hide Lower, ApplyKeyword, Plain;
    if there { SettingRead(p, k, v); }
  }

  lemma Keywords()
    ensures Keyword("HostName") && Lower("HostName") == "hostname"
    ensures Keyword("User") && Lower("User") == "user"
    ensures Keyword("Port") && Lower("Port") == "port"
    ensures Keyword("IdentityFile") && Lower("IdentityFile") == "identityfile"
    ensures Keyword("ProxyJump") && Lower("ProxyJump") == "proxyjump"
  {
    ShortKeywords();
    LongKeywords();
  }

  lemma ShortKeywords()
    ensures Keyword("HostName") && Lower("HostName") == "hostname"
    ensures Keyword("User") && Lower("User") == "user"
    ensures Keyword("Port") && Lower("Port") == "port"
  {
  }

  lemma LongKeywords()
    ensures Keyword("IdentityFile") && Lower("IdentityFile") == "identityfile"
    ensures Keyword("ProxyJump") && Lower("ProxyJump") == "proxyjump"
  {
  }

  /** A name, an address and a user. */
  lemma HeadRead(p: Parser, s: Session, alias: string)
    requires Writable(s) && Tame(alias) && alias != ""
    ensures ReadLines(ReadLines(ReadLines(p, ["Host " + alias]), Option1("HostName", s.hostname, true)),
      Option1("User", s.username, s.username != ""))
            == Flush(p).(current := Some(NewHost(alias).(hostName := s.hostname, user := s.username)), wild := false)
  {
    hide Lower, Plain, Tame, ReadLine, ReadLines, Unquote;
    Keywords();
    ReadOne(p, "Host " + alias);
    AliasRead(p, alias);
    var q := ReadLines(p, ["Host " + alias]);
    OptionRead(q, "HostName", s.hostname, true);
    UnquotePlain(s.hostname);
    var h := NewHost(alias).(hostName := s.hostname);
    var q1 := q.(current := Some(h));
    assert ReadLines(q, Option1("HostName", s.hostname, true)) == q1;
    OptionRead(q1, "User", s.username, s.username != "");
    UnquotePlain(s.username);
  }

  /** A key file and a way there. */
  lemma TailRead(p: Parser, key: string, hops: seq<string>)
    requires p.current.Some? && p.current.value.identities == [] && p.current.value.proxyJump == ""
      && (forall i :: 0 <= i < |hops| ==> Tame(hops[i]))
    ensures ReadLines(ReadLines(p, Option1("IdentityFile", "~/.ssh/" + KeyFilename(key), key != "")),
      Option1("ProxyJump", Join(hops, ','), hops != []))
            == p.(current :=
                Some(p.current.value.(identities := if key != "" then ["~/.ssh/" + KeyFilename(key)]
                else [], proxyJump := Join(hops, ','))))
  {
    hide Lower, Plain, Tame, ReadLine, ReadLines, KeyFilename, Unquote;
    Keywords();
    var file, jump := "~/.ssh/" + KeyFilename(key), Join(hops, ',');
    KeyPlain(key);
    JoinTame(hops);
    NearlyTamePlain(jump);
    OptionRead(p, "IdentityFile", file, key != "");
    UnquotePlain(file);
    assert [] + [file] == [file];
    var q := p.(current := Some(p.current.value.(identities := if key != "" then [file] else [])));
    assert ReadLines(p, Option1("IdentityFile", file, key != "")) == q;
    OptionRead(q, "ProxyJump", jump, hops != []);
    UnquotePlain(jump);
  }

  /** A block is read as the host it was written for. */
  lemma BlockRead(p: Parser, s: Session, alias: string, hops: seq<string>)
    requires Writable(s) && Tame(alias) && alias != "" && (forall i :: 0 <= i < |hops| ==> Tame(hops[i]))
    ensures ReadLines(p, Block(s, alias, hops)) == Flush(p).(current := Some(HostOf(s, alias, hops)), wild := false)
  {
    hide Plain, Tame, ReadLine, ReadLines, Decimal, KeyFilename, Join, Option1;
    var port := if s.port >= 0 then Decimal(s.port) else "";
    var a := ["Host " + alias];
    var b := Option1("HostName", s.hostname, true);
    var c := Option1("User", s.username, s.username != "");
    var d := Option1("Port", port, s.port > 0 && s.port != 22);
    var e := Option1("IdentityFile", "~/.ssh/" + KeyFilename(s.key), s.key != "");
    var f := Option1("ProxyJump", Join(hops, ','), hops != []);
    assert Block(s, alias, hops) == a + b + c + d + e + f + [""];
    ReadSeven(p, a, b, c, d, e, f);
    HeadRead(p, s, alias);
    var q := ReadLines(ReadLines(ReadLines(p, a), b), c);
    PortRead(q, s, port);
    var q' := ReadLines(q, d);
    TailRead(q', s.key, hops);
    var r := ReadLines(ReadLines(q', e), f);
    ReadOne(r, "");
    LinePassed(r, "");
  }

  lemma PortRead(p: Parser, s: Session, port: string)
    requires p.current.Some? && p.current.value.port == 0 && s.port < 65536 && (s.port >= 0 ==> port == Decimal(s.port))
    ensures ReadLines(p, Option1("Port", port, s.port > 0 && s.port != 22))
            == p.(current := Some(p.current.value.(port := if s.port > 0 && s.port != 22 then s.port else 0)))
  {
    hide Lower, Plain, Decimal, Atoi, ReadLines, Unquote;
    Keywords();
    if s.port > 0 { NumberPlain(s.port); UnquotePlain(port); }
    OptionRead(p, "Port", port, s.port > 0 && s.port != 22);
  }

  /** A key file is called by the words of its name, or by a name for when it has none. */
  lemma KeyNamed(key: string)
    ensures KeyFilename(key) == if Words(key) != [] then Join(Words(key), '-') else "id_key"
  {
    hide Slug, Words, Join;
    SlugIsWords(key);
  }

  lemma KeyPlain(key: string)
    ensures Plain("~/.ssh/" + KeyFilename(key))
  {
    hide Trim, Slug, Plain;
    SlugTame(key);
    NearlyTamePlain("~/.ssh/" + KeyFilename(key));
  }

  lemma ReadSeven(p: Parser, a: seq<string>, b: seq<string>, c: seq<string>, d: seq<string>, e: seq<string>,
      f: seq<string>)
    ensures ReadLines(p, a + b + c + d + e + f + [""])
            == ReadLines(ReadLines(ReadLines(ReadLines(ReadLines(ReadLines(ReadLines(p, a), b), c), d), e), f), [""])
  {
    hide ReadLines;
    ReadAppend(p, a, b);
    ReadAppend(p, a + b, c);
    ReadAppend(p, a + b + c, d);
    ReadAppend(p, a + b + c + d, e);
    ReadAppend(p, a + b + c + d + e, f);
    ReadAppend(p, a + b + c + d + e + f, [""]);
  }

  // The whole file.

  lemma {:induction false} SplitUnlines(lines: seq<string>)
    requires FreeOf(lines, '\n')
    ensures Split(Unlines(lines), '\n') == lines + [""]
  {
    hide Unlines;
    if lines == [] {
      UnlinesNone();
      FindPrefix("", '\n', "");
    } else {
      var x, rest := lines[0], lines[1..];
      SplitUnlines(rest);
      UnlinesFirst(x, rest);
      assert lines == [x] + rest;
      FindPrefix(x, '\n', Unlines(rest));
      var text := Unlines(lines);
      assert text == x + ['\n'] + Unlines(rest);
      assert text[..|x|] == x && text[|x| + 1..] == Unlines(rest);
    }
  }

  lemma UnlinesNone()
    ensures Unlines([]) == ""
  {
  }

  lemma UnlinesFirst(x: string, rest: seq<string>)
    ensures Unlines([x] + rest) == x + "\n" + Unlines(rest)
  {
    UnlinesJoin([x], rest);
    assert [x][..0] == [];
  }

  ghost function HostsOf(index: map<Id, Session>, ss: seq<Session>, aliases: seq<string>): seq<Host>
    requires |ss| == |aliases|
  {
    seq(|ss|, k requires 0 <= k < |ss| => HostOf(ss[k], aliases[k], HopNames(index, ss[k].chain)))
  }

  lemma {:induction false} HopNamesTame(index: map<Id, Session>, chain: seq<Id>)
    ensures forall i ::
      0 <= i < |HopNames(index, chain)| ==> Tame(HopNames(index, chain)[i]) && HopNames(index, chain)[i] != ""
  {
    hide Tame, Base;
    if chain != [] {
      var n := |chain| - 1;
      HopNamesTame(index, chain[..n]);
      if chain[n] in index { BaseTame(index[chain[n]]); }
    }
  }

  ghost predicate TameAll(aliases: seq<string>)
  { forall k :: 0 <= k < |aliases| ==> Tame(aliases[k]) && aliases[k] != "" }

  ghost predicate AllWritable(ss: seq<Session>) { forall k :: 0 <= k < |ss| ==> Writable(ss[k]) }

  lemma {:induction false} BlocksRead(p: Parser, index: map<Id, Session>, ss: seq<Session>, aliases: seq<string>)
    requires |ss| == |aliases| && TameAll(aliases) && AllWritable(ss) && p.current.None? && !p.wild
    ensures Flush(ReadLines(p, Blocks(index, ss, aliases))) == p.(hosts := p.hosts + HostsOf(index, ss, aliases))
  {
    hide Tame, Writable, ReadLines, Block, HopNames, HostOf;
    if ss == [] {
      assert ReadLines(p, []) == p by { ReadNone(p); }
      assert p.hosts + HostsOf(index, ss, aliases) == p.hosts;
    } else {
      var n := |ss| - 1;
      var b, hops := Blocks(index, ss[..n], aliases[..n]), HopNames(index, ss[n].chain);
      BlocksRead(p, index, ss[..n], aliases[..n]);
      ReadAppend(p, b, Block(ss[n], aliases[n], hops));
      HopNamesTame(index, ss[n].chain);
      BlockRead(ReadLines(p, b), ss[n], aliases[n], hops);
      assert HostsOf(index, ss, aliases) == HostsOf(index, ss[..n], aliases[..n]) + [HostOf(ss[n], aliases[n], hops)];
      assert p.hosts + HostsOf(index, ss[..n], aliases[..n]) + [HostOf(ss[n], aliases[n], hops)]
          == p.hosts + HostsOf(index, ss, aliases);
    }
  }

  lemma ReadNone(p: Parser)
    ensures ReadLines(p, []) == p
  {
  }

  lemma OptionFree(k: string, v: string, there: bool)
    requires '\n' !in k && (there ==> '\n' !in v)
    ensures FreeOf(Option1(k, v, there), '\n')
  {
  }

  lemma FreeJoins(a: seq<string>, b: seq<string>)
    requires FreeOf(a, '\n') && FreeOf(b, '\n')
    ensures FreeOf(a + b, '\n')
  {
  }

  /** No line written holds a newline. */
  lemma BlockFree(s: Session, alias: string, hops: seq<string>)
    requires Writable(s) && Tame(alias) && (forall i :: 0 <= i < |hops| ==> Tame(hops[i]))
    ensures FreeOf(Block(s, alias, hops), '\n')
  {
    hide Trim, KeyFilename, Join, Decimal, FreeOf, Option1, Tame;
    TameChars(alias);
    KeyPlain(s.key);
    JoinTame(hops);
    NearlyTamePlain(Join(hops, ','));
    if s.port >= 0 { NumberPlain(s.port); }
    var port := if s.port >= 0 then Decimal(s.port) else "";
    var a := ["Host " + alias];
    var b := Option1("HostName", s.hostname, true);
    var c := Option1("User", s.username, s.username != "");
    var d := Option1("Port", port, s.port > 0 && s.port != 22);
    var e := Option1("IdentityFile", "~/.ssh/" + KeyFilename(s.key), s.key != "");
    var f := Option1("ProxyJump", Join(hops, ','), hops != []);
    FirstFree(alias);
    OptionFree("HostName", s.hostname, true);
    OptionFree("User", s.username, s.username != "");
    OptionFree("Port", port, s.port > 0 && s.port != 22);
    OptionFree("IdentityFile", "~/.ssh/" + KeyFilename(s.key), s.key != "");
    OptionFree("ProxyJump", Join(hops, ','), hops != []);
    FreeJoins(a, b);
    FreeJoins(a + b, c);
    FreeJoins(a + b + c, d);
    FreeJoins(a + b + c + d, e);
    FreeJoins(a + b + c + d + e, f);
    FreeJoins(a + b + c + d + e + f, [""]);
  }

  lemma FirstFree(alias: string)
    requires '\n' !in alias
    ensures FreeOf(["Host " + alias], '\n') && FreeOf([""], '\n')
  {
  }

  lemma {:induction false} BlocksFree(index: map<Id, Session>, ss: seq<Session>, aliases: seq<string>)
    requires |ss| == |aliases| && TameAll(aliases) && AllWritable(ss)
    ensures FreeOf(Blocks(index, ss, aliases), '\n')
  {
    hide Tame, Writable, Block, HopNames;
    if ss != [] {
      var n := |ss| - 1;
      BlocksFree(index, ss[..n], aliases[..n]);
      HopNamesTame(index, ss[n].chain);
      BlockFree(ss[n], aliases[n], HopNames(index, ss[n].chain));
    }
  }

  lemma AliasesTame(ss: seq<Session>, paths: seq<seq<string>>, aliases: seq<string>)
    requires AreAliases(ss, paths, aliases)
    ensures TameAll(aliases)
  {
    hide IsAlias, Tame;
    forall k | 0 <= k < |aliases| ensures Tame(aliases[k]) && aliases[k] != "" {
      AliasTame(ss[k], paths[k], Used(aliases[..k]), aliases[k]);
    }
  }

  /** Reading the exported file gives one host for each SSH connection, in order, with what was written for it. */
  lemma FileRead(header: seq<string>, index: map<Id, Session>, ss: seq<Session>, paths: seq<seq<string>>,
      aliases: seq<string>)
    requires Passed(header) && AreAliases(ss, paths, aliases) && AllWritable(ss)
    ensures Parse(Unlines(header + Blocks(index, ss, aliases))) == Parser(HostsOf(index, ss, aliases), [], None, false)
  {
    hide AreAliases, ReadLines, Blocks, Unlines, AllWritable, TameAll, HostsOf, ReadLine;
    assert |ss| == |aliases| by { SameLength(ss, paths, aliases); }
    var lines := header + Blocks(index, ss, aliases);
    AliasesTame(ss, paths, aliases);
    BlocksFree(index, ss, aliases);
    SplitUnlines(lines);
    ReadAppend(Start, lines, [""]);
    ReadAppend(Start, header, Blocks(index, ss, aliases));
    LinesPassed(Start, header);
    BlocksRead(Start, index, ss, aliases);
    ReadOne(ReadLines(Start, lines), "");
    LinePassed(ReadLines(Start, lines), "");
    assert [] + HostsOf(index, ss, aliases) == HostsOf(index, ss, aliases);
  }

  lemma SameLength(ss: seq<Session>, paths: seq<seq<string>>, aliases: seq<string>)
    requires AreAliases(ss, paths, aliases)
    ensures |ss| == |aliases|
  {
  }

  // Jump chains.

  function ByAlias(hosts: seq<Host>, ids: seq<Id>): map<string, Id>
    requires |hosts| == |ids|
  {
    if hosts == [] then map[]
    else
      var n := |hosts| - 1;
      ByAlias(hosts[..n], ids[..n])[hosts[n].alias := ids[n]]
  }

  lemma {:induction false} ByAliasFinds(hosts: seq<Host>, ids: seq<Id>, k: nat)
    requires |hosts| == |ids| && k < |hosts| && forall i, j :: 0 <= i < j < |hosts| ==> hosts[i].alias != hosts[j].alias
    ensures hosts[k].alias in ByAlias(hosts, ids) && ByAlias(hosts, ids)[hosts[k].alias] == ids[k]
  {
    var n := |hosts| - 1;
    if k < n { ByAliasFinds(hosts[..n], ids[..n], k); }
  }

  lemma {:induction false} ByAliasOnly(hosts: seq<Host>, ids: seq<Id>, alias: string) returns (k: nat)
    requires |hosts| == |ids| && alias in ByAlias(hosts, ids)
    ensures k < |hosts| && hosts[k].alias == alias
  {
    var n := |hosts| - 1;
    if hosts[n].alias == alias { k := n; } else { k := ByAliasOnly(hosts[..n], ids[..n], alias); }
  }

  /** The hops that are known, by name. */
  function Known(hops: seq<string>, byAlias: map<string, Id>): seq<Id> {
    if hops == [] then []
    else
      var n := |hops| - 1;
      if hops[n] != "none" && hops[n] in byAlias then Known(hops[..n], byAlias) + [byAlias[hops[n]]]
          else Known(hops[..n], byAlias)
  }

  lemma {:induction false} NoneLast(s: string, c: char)
    requires c !in s
    ensures AfterLast(s, c) == s
  {
    if s != "" { NoneLast(s[..|s| - 1], c); }
  }

  lemma {:induction false} ResolveTame(hops: seq<string>, byAlias: map<string, Id>)
    requires TameAll(hops)
    ensures ResolveHops(hops, byAlias) == Known(hops, byAlias)
  {
    hide Trim, Lower, Tame, AfterLast, BeforeLast;
    if hops != [] {
      var n := |hops| - 1;
      ResolveTame(hops[..n], byAlias);
      TamePlain(hops[n]);
      TameChars(hops[n]);
      NoneLast(hops[n], '@');
      assert BeforeLast(hops[n], ':') == hops[n] by { NoColon(hops[n]); }
    }
  }

  lemma NoColon(s: string)
    requires ':' !in s
    ensures BeforeLast(s, ':') == s
  {
  }

  lemma ChainRead(hops: seq<string>, byAlias: map<string, Id>)
    requires TameAll(hops)
    ensures hops != [] ==> ResolveHops(Split(Join(hops, ','), ','), byAlias) == Known(hops, byAlias)
    ensures Join(hops, ',') == "" <==> hops == []
  {
    hide Tame, ResolveHops, Known, Split;
    if hops != [] {
      forall i | 0 <= i < |hops| ensures ',' !in hops[i] { TameChars(hops[i]); }
      SplitJoin(hops, ',');
      ResolveTame(hops, byAlias);
      assert hops[0] != "";
    }
  }
}
