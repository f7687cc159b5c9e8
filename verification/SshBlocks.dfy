/** What any ssh_config means, block by block. */
module SshBlocks {
  import opened Text
  import opened SshConfig
  import opened SshRoundTrip

  /** The keyword of a line, in small letters; blank for a blank line or a comment. */
  function KeywordOf(raw: string): string {
    var line := Trim(raw);
    if line == "" || line[0] == '#' then "" else Lower(SplitLine(line).0)
  }

  function ValueOf(raw: string): string { SplitLine(Trim(raw)).1 }

  /** Where a block ends that begins before these lines: at the next Host or Match, or at the end. */
  function BodyEnd(lines: seq<string>): (n: nat)
    ensures n <= |lines|
  {
    if lines == [] || KeywordOf(lines[0]) == "host" || KeywordOf(lines[0]) == "match" then 0
    else 1 + BodyEnd(lines[1..])
  }

  function Body(lines: seq<string>): seq<string> { lines[..BodyEnd(lines)] }

  /** The value of the last of the lines with that keyword, out of its quotes. */
  function LastOf(body: seq<string>, key: string, default: string): string {
    if body == [] then default
    else
      var n := |body| - 1;
      if KeywordOf(body[n]) == key then Unquote(ValueOf(body[n])) else LastOf(body[..n], key, default)
  }

  /** The number on the last of the lines with that keyword on which there is one from 1 to `most`. */
  function LastNumber(body: seq<string>, key: string, most: int, default: int): int {
    if body == [] then default
    else
      var n := |body| - 1;
      var value := Atoi(Unquote(ValueOf(body[n])));
      if KeywordOf(body[n]) == key && value.Some? && 1 <= value.value <= most then value.value
      else LastNumber(body[..n], key, most, default)
  }

  /** The values of all the lines with that keyword, in order. */
  function AllOf(body: seq<string>, key: string): seq<string> {
    if body == [] then []
    else
      var n := |body| - 1;
      AllOf(body[..n], key) + if KeywordOf(body[n]) == key then [Unquote(ValueOf(body[n]))] else []
  }

  /** The host that a block of these lines describes. */
  function HostFrom(alias: string, body: seq<string>): Host {
    Host(alias, LastOf(body, "hostname", ""), LastOf(body, "user", ""), LastNumber(body, "port", 65535, 0),
         AllOf(body, "identityfile"), LastOf(body, "proxyjump", ""),
         LastNumber(body, "serveraliveinterval", MaxInt, 0))
  }

  /** The block that the first of the lines opens, if it is a Host line of that sort: with or without a plain name. */
  function Opened(lines: seq<string>, wild: bool): seq<Host>
    requires lines != []
  {
    var patterns := Fields(ValueOf(lines[0]));
    var alias := FirstConcrete(patterns);
    if KeywordOf(lines[0]) == "host" && patterns != [] && (alias == "") == wild then
      [HostFrom(if wild then Spaced(patterns) else alias, Body(lines[1..]))]
    else []
  }

  /** The blocks of that sort, in order. */
  function BlocksOf(lines: seq<string>, wild: bool): seq<Host> {
    if lines == [] then [] else Opened(lines, wild) + BlocksOf(lines[1..], wild)
  }

  // One line at a time.

  /** A host with the settings of some further lines. */
  function Overlaid(h: Host, body: seq<string>): Host {
    Host(h.alias, LastOf(body, "hostname", h.hostName), LastOf(body, "user", h.user),
         LastNumber(body, "port", 65535, h.port), h.identities + AllOf(body, "identityfile"),
         LastOf(body, "proxyjump", h.proxyJump), LastNumber(body, "serveraliveinterval", MaxInt, h.keepAlive))
  }

  lemma {:induction false} LastOfFront(x: string, rest: seq<string>, key: string, default: string)
    ensures LastOf([x] + rest, key, default)
            == LastOf(rest, key, if KeywordOf(x) == key then Unquote(ValueOf(x)) else default)
  {
    hide KeywordOf, ValueOf, Unquote;
    if rest == [] {
      assert [x] + rest == [x] && [x][..0] == [];
    } else {
      LastOfFront(x, rest[..|rest| - 1], key, default);
      assert ([x] + rest)[..|rest|] == [x] + rest[..|rest| - 1];
    }
  }

  lemma {:induction false} LastNumberFront(x: string, rest: seq<string>, key: string, most: int, default: int)
    ensures var value := Atoi(Unquote(ValueOf(x)));
            LastNumber([x] + rest, key, most, default)
            == LastNumber(rest, key, most,
                 if KeywordOf(x) == key && value.Some? && 1 <= value.value <= most then value.value else default)
  {
    hide KeywordOf, ValueOf, Unquote, Atoi;
    if rest == [] {
      assert [x] + rest == [x] && [x][..0] == [];
    } else {
      LastNumberFront(x, rest[..|rest| - 1], key, most, default);
      assert ([x] + rest)[..|rest|] == [x] + rest[..|rest| - 1];
    }
  }

  lemma {:induction false} AllOfFront(x: string, rest: seq<string>, key: string)
    ensures AllOf([x] + rest, key) == (if KeywordOf(x) == key then [Unquote(ValueOf(x))] else []) + AllOf(rest, key)
  {
    hide KeywordOf, ValueOf, Unquote;
    if rest == [] {
      assert [x] + rest == [x] && [x][..0] == [];
    } else {
      AllOfFront(x, rest[..|rest| - 1], key);
      assert ([x] + rest)[..|rest|] == [x] + rest[..|rest| - 1];
    }
  }

  /** What one setting does to the host. */
  function Set(h: Host, x: string): Host {
    var (key, value) := (KeywordOf(x), Unquote(ValueOf(x)));
    var n := Atoi(value);
    Host(h.alias, if key == "hostname" then value else h.hostName, if key == "user" then value else h.user,
         if key == "port" && n.Some? && 1 <= n.value <= 65535 then n.value else h.port,
         h.identities + if key == "identityfile" then [value] else [],
         if key == "proxyjump" then value else h.proxyJump,
         if key == "serveraliveinterval" && n.Some? && 1 <= n.value <= MaxInt then n.value else h.keepAlive)
  }

  lemma OverlaidFront(h: Host, x: string, rest: seq<string>)
    ensures Overlaid(h, [x] + rest) == Overlaid(Set(h, x), rest)
  {
    hide KeywordOf, ValueOf, Unquote, Atoi, LastOf, LastNumber, AllOf;
    LastOfFront(x, rest, "hostname", h.hostName);
    LastOfFront(x, rest, "user", h.user);
    LastNumberFront(x, rest, "port", 65535, h.port);
    AllOfFront(x, rest, "identityfile");
    LastOfFront(x, rest, "proxyjump", h.proxyJump);
    LastNumberFront(x, rest, "serveraliveinterval", MaxInt, h.keepAlive);
  }

  lemma OverlaidNone(h: Host)
    ensures Overlaid(h, []) == h
  {
  }

  lemma OverlaidNew(alias: string, body: seq<string>)
    ensures Overlaid(NewHost(alias), body) == HostFrom(alias, body)
  {
    hide LastOf, LastNumber, AllOf;
  }

  lemma AtoiInRange(s: string)
    ensures Atoi(s).Some? ==> Atoi(s).value <= MaxInt
  {
  }

  lemma LineSets(h: Host, raw: string)
    requires KeywordOf(raw) != ""
    ensures Set(h, raw) == ApplyKeyword(h, SplitLine(Trim(raw)).0, SplitLine(Trim(raw)).1)
  {
    hide Trim, SplitLine, Lower, Unquote, Atoi;
    AtoiInRange(Unquote(ValueOf(raw)));
  }

  lemma SetsNothing(h: Host, raw: string)
    requires KeywordOf(raw) in ["", "include"]
    ensures Set(h, raw) == h
  {
    hide KeywordOf, ValueOf, Unquote, Atoi;
  }

  lemma LineMeans(p: Parser, raw: string)
    ensures ReadLine(p, raw)
            == if KeywordOf(raw) == "host" then BeginHost(p, ValueOf(raw))
               else if KeywordOf(raw) == "match" then Flush(p)
               else if p.current.None? then p
               else p.(current := Some(Set(p.current.value, raw)))
  {
    hide Trim, SplitLine, Lower, ApplyKeyword, Set, BeginHost, Flush;
    if p.current.Some? {
      if KeywordOf(raw) in ["", "include"] { SetsNothing(p.current.value, raw); }
      if KeywordOf(raw) != "" { LineSets(p.current.value, raw); }
    }
    if KeywordOf(raw) == "" { NoKeyword(p, raw); }
  }

  /** A line that begins with a separator has a blank keyword, and sets nothing either. */
  lemma NoKeyword(p: Parser, raw: string)
    requires KeywordOf(raw) == ""
    ensures ReadLine(p, raw) == p
  {
    hide Trim, SplitLine, BeginHost, Flush, Unquote;
  }

  // The whole file.

  function Pending(p: Parser, lines: seq<string>, wild: bool): seq<Host> {
    if p.current.Some? && p.wild == wild then [Overlaid(p.current.value, Body(lines))] else []
  }

  lemma BodyNext(lines: seq<string>)
    requires lines != []
    ensures Body(lines) == if KeywordOf(lines[0]) == "host" || KeywordOf(lines[0]) == "match" then []
                           else [lines[0]] + Body(lines[1..])
  {
    hide KeywordOf;
  }

  lemma ReadFront(p: Parser, lines: seq<string>)
    requires lines != []
    ensures ReadLines(p, lines) == ReadLines(ReadLine(p, lines[0]), lines[1..])
  {
    hide ReadLine, ReadLines;
    ReadAppend(p, [lines[0]], lines[1..]);
    ReadOne(p, lines[0]);
    assert lines == [lines[0]] + lines[1..];
  }

  lemma ReadNone(p: Parser)
    ensures ReadLines(p, []) == p && Body([]) == []
  {
  }

  function Done(p: Parser, wild: bool): seq<Host> { if wild then p.wildcards else p.hosts }

  /** One line either goes into what is pending or finishes it, and may open the next block. */
  lemma OneLine(p: Parser, lines: seq<string>, wild: bool)
    requires lines != []
    ensures var q := ReadLine(p, lines[0]);
            Done(q, wild) + Pending(q, lines[1..], wild)
            == Done(p, wild) + Pending(p, lines, wild) + Opened(lines, wild)
  {
    hide ReadLine, KeywordOf, ValueOf, Body, Set, Fields, FirstConcrete, Spaced, HostFrom, Overlaid;
    LineMeans(p, lines[0]);
    BodyNext(lines);
    var body := Body(lines[1..]);
    if KeywordOf(lines[0]) == "host" {
      var patterns := Fields(ValueOf(lines[0]));
      OverlaidNew(FirstConcrete(patterns), body);
      OverlaidNew(Spaced(patterns), body);
      if p.current.Some? { OverlaidNone(p.current.value); }
    } else if p.current.Some? {
      OverlaidNone(p.current.value);
      OverlaidFront(p.current.value, lines[0], body);
    }
  }

  /** What is pending is finished by the lines up to the next block, and then come the blocks. */
  lemma {:induction false} ReadsOn(p: Parser, lines: seq<string>, wild: bool)
    ensures Done(Flush(ReadLines(p, lines)), wild) == Done(p, wild) + Pending(p, lines, wild) + BlocksOf(lines, wild)
    decreases |lines|
  {
    hide ReadLine, ReadLines, Opened, Body, Overlaid;
    if lines == [] {
      ReadNone(p);
      if p.current.Some? { OverlaidNone(p.current.value); }
    } else {
      ReadFront(p, lines);
      ReadsOn(ReadLine(p, lines[0]), lines[1..], wild);
      OneLine(p, lines, wild);
      hide Pending, Done, Flush;
    }
  }

  /**
   Any file at all: a host for each Host line with a plain name and a wildcard for each other that has a pattern, in
   the order of the file, each with the settings of the lines between its own and the next Host or Match, and of no
   other line.
   */
  lemma ReadsBlocks(text: string)
    ensures Parse(text).hosts == BlocksOf(Split(text, '\n'), false)
    ensures Parse(text).wildcards == BlocksOf(Split(text, '\n'), true)
  {
    hide ReadLines, Split, BlocksOf;
    ReadsOn(Start, Split(text, '\n'), false);
    ReadsOn(Start, Split(text, '\n'), true);
  }

  // Lines that mean nothing.

  /** At the end of these lines no block is open: a Match, or a Host without a pattern, has ended the last one. */
  ghost predicate Outside(lines: seq<string>) {
    lines == []
    || var last := lines[|lines| - 1];
       if KeywordOf(last) == "host" then Fields(ValueOf(last)) == []
       else KeywordOf(last) == "match" || Outside(lines[..|lines| - 1])
  }

  lemma {:induction false} NothingCurrent(lines: seq<string>)
    requires Outside(lines)
    ensures ReadLines(Start, lines).current == None
  {
    hide ReadLine, KeywordOf, ValueOf, Fields;
    if lines != [] {
      var init, last := lines[..|lines| - 1], lines[|lines| - 1];
      LineMeans(ReadLines(Start, init), last);
      if KeywordOf(last) !in ["host", "match"] { NothingCurrent(init); }
    }
  }

  lemma {:induction false} PassedOver(p: Parser, lines: seq<string>)
    requires p.current.None? && forall i :: 0 <= i < |lines| ==> KeywordOf(lines[i]) != "host"
    ensures ReadLines(p, lines) == p
  {
    hide ReadLine, KeywordOf, BeginHost, Set;
    if lines != [] {
      PassedOver(p, lines[..|lines| - 1]);
      LineMeans(p, lines[|lines| - 1]);
    }
  }

  /**
   The lines of a Match block, and whatever else is outside every block, change neither the hosts nor the wildcards: the
   file reads the same without them.
   */
  lemma OutsideIgnored(a: seq<string>, b: seq<string>, c: seq<string>)
    requires FreeOf(a + b + c, '\n') && a + c != [] && Outside(a)
    requires forall i :: 0 <= i < |b| ==> KeywordOf(b[i]) != "host"
    ensures Parse(Join(a + b + c, '\n')) == Parse(Join(a + c, '\n'))
  {
    hide ReadLines, Join, Split, KeywordOf, Outside;
    assert FreeOf(a + c, '\n') by {
      assert forall i :: 0 <= i < |a + c| ==> (a + c)[i] == (a + b + c)[if i < |a| then i else i + |b|];
    }
    SplitJoin(a + b + c, '\n');
    SplitJoin(a + c, '\n');
    ReadAppend(Start, a + b, c);
    ReadAppend(Start, a, b);
    ReadAppend(Start, a, c);
    NothingCurrent(a);
    PassedOver(ReadLines(Start, a), b);
  }

  /** Blank lines, comments and Include lines change nothing wherever they are. */
  lemma IdleIgnored(a: seq<string>, x: string, b: seq<string>)
    requires FreeOf(a + [x] + b, '\n') && a + b != [] && KeywordOf(x) in ["", "include"]
    ensures Parse(Join(a + [x] + b, '\n')) == Parse(Join(a + b, '\n'))
  {
    hide ReadLines, Join, Split, KeywordOf, ReadLine, Set;
    assert FreeOf(a + b, '\n') by {
      assert forall i :: 0 <= i < |a + b| ==> (a + b)[i] == (a + [x] + b)[if i < |a| then i else i + 1];
    }
    SplitJoin(a + [x] + b, '\n');
    SplitJoin(a + b, '\n');
    ReadAppend(Start, a + [x], b);
    ReadAppend(Start, a, [x]);
    ReadAppend(Start, a, b);
    var p := ReadLines(Start, a);
    ReadOne(p, x);
    LineMeans(p, x);
    if p.current.Some? { SetsNothing(p.current.value, x); }
  }
}
