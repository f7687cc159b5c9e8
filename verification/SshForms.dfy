/** The ways of writing the lines, patterns and hops of an ssh_config. */
module SshForms {
  import opened Text
  import opened SshConfig
  import opened SshRoundTrip
  import opened SshBlocks

  // Lines.

  ghost predicate Blanks(s: string) { forall i :: 0 <= i < |s| ==> IsBlank(s[i]) }

  ghost predicate Separators(s: string) { s != "" && forall i :: 0 <= i < |s| ==> Separates(s[i]) }

  /** A value as it stands after its keyword: nothing to trim, and no separator in front. */
  ghost predicate Bare(v: string) { v != "" && !IsBlank(v[0]) && !Separates(v[0]) && !IsBlank(v[|v| - 1]) }

  lemma {:induction false} TrimRightBlanks(v: string, tail: string)
    requires Blanks(tail) && (v == "" || !IsBlank(v[|v| - 1]))
    ensures TrimRight(v + tail) == v
  {
    if tail == "" {
      assert v + tail == v;
    } else {
      var n := |tail| - 1;
      assert (v + tail)[..|v + tail| - 1] == v + tail[..n];
      TrimRightBlanks(v, tail[..n]);
    }
  }

  lemma {:induction false} SeparatorsDropped(gap: string, v: string)
    requires (forall i :: 0 <= i < |gap| ==> Separates(gap[i])) && Bare(v)
    ensures DropSeparators(gap + v) == v
  {
    if gap == "" {
      assert gap + v == v;
    } else {
      assert (gap + v)[1..] == gap[1..] + v;
      SeparatorsDropped(gap[1..], v);
    }
  }

  /**
   A keyword in letters of either case, indented or not, and its value after any blanks, tabs and equals signs: the
   keyword is read in small letters and the value without what is around it.
   */
  lemma LineForms(indent: string, k: string, gap: string, v: string, tail: string)
    requires Blanks(indent) && Keyword(k) && Separators(gap) && Bare(v) && Blanks(tail)
    ensures KeywordOf(indent + k + gap + v + tail) == Lower(k) && ValueOf(indent + k + gap + v + tail) == v
  {
    hide TrimLeft, TrimRight, DropSeparators, Lower;
    var line := k + gap + v;
    assert indent + k + gap + v + tail == indent + (line + tail);
    TrimLeftBlanks(indent, line + tail);
    TrimRightBlanks(line, tail);
    assert line == k + (gap + v);
    KeywordEnds(k, gap + v);
    assert line[..|k|] == k && line[|k|..] == gap + v;
    SeparatorsDropped(gap, v);
    EndsTrimmed(v);
  }

  /** A line that begins with a number sign is a comment, whatever follows. */
  lemma CommentForm(indent: string, rest: string)
    requires Blanks(indent)
    ensures KeywordOf(indent + "#" + rest) == ""
  {
    hide TrimLeft, TrimRight, SplitLine, Lower;
    assert indent + "#" + rest == indent + ("#" + rest);
    TrimLeftBlanks(indent, "#" + rest);
    TrimRightFirst("#" + rest);
  }

  lemma BlankForm(s: string)
    requires Blanks(s)
    ensures KeywordOf(s) == ""
  {
    hide TrimLeft, TrimRight, SplitLine, Lower;
    TrimLeftBlanks(s, "");
    assert s + "" == s;
    EndsTrimmed("");
  }

  /** Quotes around a value are not part of it. */
  lemma QuotesDropped(v: string)
    requires v != "" ==> v[0] != '"' && v[|v| - 1] != '"'
    ensures Unquote("\"" + v + "\"") == v && Unquote(v) == v
  {
    var s := "\"" + v + "\"";
    assert s[1..] == v + "\"";
    if v == "" {
      assert s == "\"\"" && s[1..] == "\"" && s[1..][1..] == "";
      assert DropQuotes(s) == DropQuotes(s[1..]) == DropQuotes(s[1..][1..]) == "";
    } else {
      var t := v + "\"";
      assert DropQuotes(s) == DropQuotes(t) == t;
      assert t[|t| - 1] == '"' && t[..|t| - 1] == v;
      assert DropQuotesRight(t) == DropQuotesRight(v) == v;
    }
  }

  // Patterns.

  /** The words of a Host line are what stands between the blanks. */
  lemma {:induction false} FieldsAre(words: seq<string>)
    requires forall i :: 0 <= i < |words| ==> words[i] != "" && forall j ::
      0 <= j < |words[i]| ==> !IsBlank(words[i][j])
    ensures Fields(Spaced(words)) == words
  {
    if words != [] {
      var w, rest := words[0], words[1..];
      FieldsAre(rest);
      if rest == [] {
        WordStops(w, "");
        assert w + "" == w;
      } else {
        var more := " " + Spaced(rest);
        assert Spaced(words) == w + more;
        WordStops(w, more);
        assert (w + more)[|w|..] == more && more[1..] == Spaced(rest);
        assert Fields(more) == Fields(more[1..]);
      }
    }
  }

  lemma {:induction false} WordStops(w: string, rest: string)
    requires (forall j :: 0 <= j < |w| ==> !IsBlank(w[j])) && (rest == "" || IsBlank(rest[0]))
    ensures WordEnd(w + rest) == |w|
  {
    if w == "" {
      assert w + rest == rest;
    } else {
      assert (w + rest)[1..] == w[1..] + rest;
      WordStops(w[1..], rest);
    }
  }

  ghost predicate Concrete(pattern: string) { forall c :: c in pattern ==> c !in "*?!" }

  /** A host is called by the first of its patterns that holds no wildcard and no negation. */
  lemma {:induction false} CalledBy(patterns: seq<string>)
    requires forall i :: 0 <= i < |patterns| ==> patterns[i] != ""
    ensures FirstConcrete(patterns) == "" <==> forall i :: 0 <= i < |patterns| ==> !Concrete(patterns[i])
    ensures FirstConcrete(patterns) != "" ==>
              exists i :: 0 <= i < |patterns| && patterns[i] == FirstConcrete(patterns) && Concrete(patterns[i])
                          && forall j :: 0 <= j < i ==> !Concrete(patterns[j])
  {
    if patterns != [] {
      assert HasWildcard(patterns[0]) <==> !Concrete(patterns[0]);
      CalledBy(patterns[1..]);
      if HasWildcard(patterns[0]) && FirstConcrete(patterns) != "" {
        var i :| 0 <= i < |patterns[1..]| && patterns[1..][i] == FirstConcrete(patterns) && Concrete(patterns[1..][i])
                 && forall j :: 0 <= j < i ==> !Concrete(patterns[1..][j]);
        assert patterns[i + 1] == FirstConcrete(patterns);
        forall j | 0 <= j < i + 1 ensures !Concrete(patterns[j]) {
          if j > 0 { assert !Concrete(patterns[1..][j - 1]); }
        }
      }
    }
  }

  // Hops.

  lemma {:induction false} AfterLastIs(a: string, c: char, b: string)
    requires c !in b
    ensures AfterLast(a + [c] + b, c) == b && AfterLast(b, c) == b
  {
    if b == "" {
      assert a + [c] + b == a + [c];
    } else {
      var n := |b| - 1;
      assert b == b[..n] + [b[n]];
      AfterLastIs(a, c, b[..n]);
      assert (a + [c] + b)[..|a + [c] + b| - 1] == a + [c] + b[..n];
    }
  }

  lemma {:induction false} BeforeLastIs(a: string, c: char, b: string)
    requires c !in b
    ensures BeforeLast(a + [c] + b, c) == a
  {
    var s := a + [c] + b;
    assert s[|a|] == c;
    if b == "" {
      assert s[..|s| - 1] == a;
    } else {
      var n := |b| - 1;
      assert b[n] != c;
      BeforeLastIs(a, c, b[..n]);
      assert s[..|s| - 1] == a + [c] + b[..n];
    }
  }

  /**
   A hop is looked up by the host part alone, whatever user and port are written with it. An address in brackets is
   the exception: it keeps its port.
   */
  lemma HopForms(user: string, host: string, port: string)
    requires '@' !in host && '@' !in port && ':' !in port
    ensures ']' !in host && ']' !in port ==>
              && HopName(host + ":" + port) == host && HopName(user + "@" + host + ":" + port) == host
              && (':' !in host ==> HopName(host) == host && HopName(user + "@" + host) == host)
    ensures ']' in host ==>
              && HopName(host) == host && HopName(user + "@" + host) == host
              && HopName(user + "@" + host + ":" + port) == host + ":" + port
  {
    var whole := host + ":" + port;
    assert user + "@" + host + ":" + port == user + "@" + whole;
    AfterLastIs(user, '@', host);
    AfterLastIs(user, '@', whole);
    assert ']' in whole <==> ']' in host || ']' in port;
    BeforeLastIs(host, ':', port);
  }
}
