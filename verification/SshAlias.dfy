/** Names for hosts in an ssh_config: typable, and no two alike. */
module SshAlias {
  import opened Text

  type Id = string

  /**
   A saved connection as the exporter sees it; `port` is the port it dials, `key` the name of its SSH key credential
   or blank.
   */
  datatype Session = Session(id: Id, name: string, protocol: string, hostname: string, port: int, username: string,
                             key: string, chain: seq<Id>)

  predicate Typable(c: char) { 'a' <= c <= 'z' || '0' <= c <= '9' || c == '.' || c == '_' }

  /** The loop of slug from some point on. */
  function SlugFrom(s: string, lastDash: bool): string {
    if s == "" then ""
    else
      var c := LowerChar(s[0]);
      if Typable(c) then [c] + SlugFrom(s[1..], false)
      else if !lastDash then "-" + SlugFrom(s[1..], true)
      else SlugFrom(s[1..], true)
  }

  function DropDashes(s: string): string { if s != "" && s[0] == '-' then DropDashes(s[1..]) else s }

  function DropDashesRight(s: string): string
  { if s != "" && s[|s| - 1] == '-' then DropDashesRight(s[..|s| - 1]) else s }

  function Slug(name: string): string { DropDashesRight(DropDashes(SlugFrom(name, true))) }

  /** slug. */
  method MakeSlug(name: string) returns (r: string)
    ensures r == Slug(name)
  {
    var b := "";
    var lastDash := true;
    for i := 0 to |name|
      invariant SlugFrom(name, true) == b + SlugFrom(name[i..], lastDash)
    {
      var c := LowerChar(name[i]);
      assert name[i..][0] == name[i] && name[i..][1..] == name[i + 1..];
      if Typable(c) {
        b := b + [c];
        lastDash := false;
      } else if !lastDash {
        b := b + "-";
        lastDash := true;
      }
    }
    assert b == SlugFrom(name, true);
    r := DropDashesRight(DropDashes(b));
  }

  /** Lower-case letters, digits, dots, underscores and dashes only. */
  ghost predicate Tame(s: string) { forall i :: 0 <= i < |s| ==> Typable(s[i]) || s[i] == '-' }

  lemma {:induction false} SlugFromTame(s: string, lastDash: bool)
    ensures Tame(SlugFrom(s, lastDash))
  {
    if s != "" {
      SlugFromTame(s[1..], false);
      SlugFromTame(s[1..], true);
    }
  }

  lemma {:induction false} DropTame(s: string)
    requires Tame(s)
    ensures Tame(DropDashes(s)) && Tame(DropDashesRight(s))
  {
    if s != "" {
      if s[0] == '-' { DropTame(s[1..]); }
      if s[|s| - 1] == '-' { DropTame(s[..|s| - 1]); }
    }
  }

  lemma SlugTame(name: string)
    ensures Tame(Slug(name))
  {
    SlugFromTame(name, true);
    DropTame(SlugFrom(name, true));
    DropTame(DropDashes(SlugFrom(name, true)));
  }

  // A slug is its own slug.

  /** Dashes only between other characters, one at a time. */
  ghost predicate Single(s: string, afterDash: bool) {
    && (s != "" && afterDash ==> s[0] != '-')
    && forall i :: 0 <= i < |s| - 1 ==> !(s[i] == '-' && s[i + 1] == '-')
  }

  lemma {:induction false} SlugFromSingle(s: string, lastDash: bool)
    ensures Single(SlugFrom(s, lastDash), lastDash)
  {
    if s != "" {
      SlugFromSingle(s[1..], false);
      SlugFromSingle(s[1..], true);
    }
  }

  lemma {:induction false} SlugKeeps(s: string, lastDash: bool)
    requires Tame(s) && Single(s, lastDash)
    ensures SlugFrom(s, lastDash) == s
  {
    if s != "" {
      assert Tame(s[1..]);
      assert s == [s[0]] + s[1..];
      assert |s| > 1 ==> !(s[0] == '-' && s[0 + 1] == '-');
      SlugKeeps(s[1..], s[0] == '-');
    }
  }

  /** Single dashes and no dash in front leave at most one at the end to drop. */
  lemma DropsFew(s: string)
    requires Single(s, true)
    ensures DropDashes(s) == s && Single(DropDashesRight(s), true)
    ensures DropDashesRight(s) == "" || DropDashesRight(s)[|DropDashesRight(s)| - 1] != '-'
  {
    if s != "" && s[|s| - 1] == '-' {
      assert |s| > 1;
      var m := |s| - 2;
      assert s[m + 1] == '-';
      assert s[m] != '-';
      assert DropDashesRight(s) == s[..|s| - 1];
    }
  }

  /** Slugging twice is slugging once: an exported alias, imported as a name, is exported the same again. */
  lemma SlugTwice(name: string)
    ensures Slug(Slug(name)) == Slug(name)
  {
    var s := SlugFrom(name, true);
    SlugFromSingle(name, true);
    DropsFew(s);
    SlugTame(name);
    SlugKeeps(Slug(name), true);
    DropsFew(Slug(name));
  }

  // A slug is the words of the name.

  /** How long the run of letters, digits, dots and underscores is that a name begins with. */
  function RunEnd(s: string): (i: nat)
    ensures i <= |s| && (s != "" && Typable(LowerChar(s[0])) ==> i > 0)
  {
    if s == "" || !Typable(LowerChar(s[0])) then 0 else 1 + RunEnd(s[1..])
  }

  /** Those runs, in small letters. */
  function Words(s: string): seq<string>
    decreases |s|
  {
    if s == "" then []
    else if !Typable(LowerChar(s[0])) then Words(s[1..])
    else [Lower(s[..RunEnd(s)])] + Words(s[RunEnd(s)..])
  }

  lemma LowerCons(c: char, t: string)
    ensures Lower([c] + t) == [LowerChar(c)] + Lower(t)
  {
  }

  lemma SlugOne(s: string, lastDash: bool)
    requires s != ""
    ensures SlugFrom(s, lastDash)
      == if Typable(LowerChar(s[0])) then [LowerChar(s[0])] + SlugFrom(s[1..], false)
         else (if lastDash then "" else "-") + SlugFrom(s[1..], true)
  {
  }

  lemma {:induction false} RunSlugged(s: string, lastDash: bool)
    requires RunEnd(s) > 0
    ensures SlugFrom(s, lastDash) == Lower(s[..RunEnd(s)]) + SlugFrom(s[RunEnd(s)..], false)
  {
    hide Lower, SlugFrom, LowerChar, Typable;
    var i := RunEnd(s);
    SlugOne(s, lastDash);
    LowerCons(s[0], s[1..i]);
    assert s[..i] == [s[0]] + s[1..i];
    assert s[1..][..i - 1] == s[1..i] && s[1..][i - 1..] == s[i..];
    if i > 1 { RunSlugged(s[1..], false); } else { NoneLower(s[1..i]); }
  }

  lemma NoneLower(s: string)
    requires s == ""
    ensures Lower(s) == ""
  {
  }

  lemma {:induction false} RunTypable(s: string)
    ensures forall i :: 0 <= i < RunEnd(s) ==> Typable(LowerChar(s[i]))
    ensures RunEnd(s) < |s| ==> !Typable(LowerChar(s[RunEnd(s)]))
  {
    if s != "" && Typable(LowerChar(s[0])) { RunTypable(s[1..]); }
  }

  /** The dash after the last word, if anything follows it. */
  function Trailing(s: string): string {
    if Words(s) != [] && !Typable(LowerChar(s[|s| - 1])) then "-" else ""
  }

  lemma {:induction false} NoLetters(s: string)
    requires Words(s) == []
    ensures forall i :: 0 <= i < |s| ==> !Typable(LowerChar(s[i]))
  {
    if s != "" { NoLetters(s[1..]); }
  }

  lemma WordsOne(s: string)
    requires s != ""
    ensures Words(s)
      == if Typable(LowerChar(s[0])) then [Lower(s[..RunEnd(s)])] + Words(s[RunEnd(s)..]) else Words(s[1..])
  {
  }

  lemma {:induction false} SlugFromWords(s: string)
    ensures SlugFrom(s, true) == Join(Words(s), '-') + Trailing(s)
    decreases |s|
  {
    hide Join, Lower, SlugFrom, Words, LowerChar, Typable, RunEnd;
    NoWords();
    if s == "" {
      NothingSlugged();
    } else {
      SlugOne(s, true);
      WordsOne(s);
      if !Typable(LowerChar(s[0])) {
        SlugFromWords(s[1..]);
        if s[1..] == "" { NothingSlugged(); }
      } else {
        WordThenRest(s);
      }
    }
  }

  lemma NothingSlugged()
    ensures SlugFrom("", true) == SlugFrom("", false) == "" && Words("") == []
  {
  }

  lemma WordThenRest(s: string)
    requires s != "" && Typable(LowerChar(s[0]))
    ensures SlugFrom(s, true) == Join(Words(s), '-') + Trailing(s)
    decreases |s|, 0
  {
    hide Join, Lower, SlugFrom, Words, LowerChar, Typable;
    var i := RunEnd(s);
    var w, rest := Lower(s[..i]), s[i..];
    RunSlugged(s, true);
    RunTypable(s);
    WordsOne(s);
    OneJoined(w);
    NothingSlugged();
    if rest != "" {
      SlugOne(rest, false);
      WordsOne(rest);
      SlugFromWords(rest[1..]);
      NoWords();
      assert s[|s| - 1] == rest[|rest| - 1];
      if Words(rest) == [] { NoLetters(rest); } else { JoinCons(w, Words(rest), '-'); }
    }
  }

  lemma NoWords()
    ensures Join([], '-') == ""
  {
  }

  lemma OneJoined(w: string)
    ensures Join([w], '-') == w && [w] + [] == [w]
  {
  }

  /** Every word is such a run. */
  lemma {:induction false} WordsTypable(s: string)
    ensures forall w :: w in Words(s) ==> w != "" && forall i :: 0 <= i < |w| ==> Typable(w[i])
    decreases |s|
  {
    if s != "" {
      if !Typable(LowerChar(s[0])) {
        WordsTypable(s[1..]);
      } else {
        RunTypable(s);
        WordsTypable(s[RunEnd(s)..]);
      }
    }
  }

  lemma {:induction false} JoinedEnds(words: seq<string>)
    requires words != [] && forall w :: w in words ==> w != "" && forall i :: 0 <= i < |w| ==> Typable(w[i])
    ensures var r := Join(words, '-'); r != "" && r[0] != '-' && r[|r| - 1] != '-'
  {
    assert words[0] in words;
    if |words| > 1 { JoinedEnds(words[1..]); }
  }

  /** A slug is the words of the name with one dash between, in small letters. */
  lemma SlugIsWords(name: string)
    ensures Slug(name) == Join(Words(name), '-') && (Slug(name) == "" <==> Words(name) == [])
  {
    hide SlugFrom, Words, Join;
    SlugFromWords(name);
    WordsTypable(name);
    NoWords();
    if Words(name) != [] {
      JoinedEnds(Words(name));
      var r := Join(Words(name), '-');
      assert (r + "-")[..|r|] == r && r + "" == r;
    }
  }

  // Aliases.

  function Base(s: Session): string {
    if Slug(s.name) != "" then Slug(s.name) else if Slug(s.hostname) != "" then Slug(s.hostname) else "host"
  }

  function Qualified(s: Session, path: seq<string>): string {
    if path != [] then Slug(path[|path| - 1]) + "-" + Base(s) else Base(s)
  }

  function Numbered(base: string, i: nat): string { base + "-" + Decimal(i) }

  /** What sshAlias answers: the plain name, else the name with its folder, else the first free number from two on. */
  ghost predicate IsAlias(s: Session, path: seq<string>, used: set<string>, alias: string) {
    if Base(s) !in used then alias == Base(s)
    else if Qualified(s, path) !in used then alias == Qualified(s, path)
    else exists k: nat :: IsFirstFree(Base(s), used, k) && alias == Numbered(Base(s), k)
  }

  ghost predicate IsFirstFree(base: string, used: set<string>, k: nat) {
    2 <= k && Numbered(base, k) !in used && forall j: nat :: 2 <= j < k ==> Numbered(base, j) in used
  }

  lemma NumbersDiffer(base: string, i: nat, j: nat)
    requires Numbered(base, i) == Numbered(base, j)
    ensures i == j
  {
    NumberOfDecimal(i);
    NumberOfDecimal(j);
    var n := |base + "-"|;
    assert Numbered(base, i)[n..] == Decimal(i) && Numbered(base, j)[n..] == Decimal(j);
  }

  /** sshAlias. The loop over numbers ends because only finitely many names are used. */
  method MakeAlias(s: Session, path: seq<string>, used: set<string>) returns (alias: string)
    ensures IsAlias(s, path, used, alias) && alias !in used
  {
    hide Base, Qualified, Numbered;
    var base := Base(s);
    if base !in used {
      return base;
    }
    var qualified := Qualified(s, path);
    ghost var pool := used;
    var i := 2;
    while qualified in used
      invariant 2 <= i && pool <= used && (i == 2 ==> qualified == Qualified(s, path))
      invariant i > 2 ==> Qualified(s, path) in used && qualified == Numbered(base, i - 1)
      invariant forall j: nat :: 2 <= j < i - 1 ==> Numbered(base, j) in used
      invariant forall j: nat :: 2 <= j && i - 1 <= j && Numbered(base, j) in used ==> Numbered(base, j) in pool
      decreases |pool|, if i == 2 then 1 else 0
    {
      if i > 2 {
        forall j: nat | i <= j ensures Numbered(base, j) != Numbered(base, i - 1) {
          if Numbered(base, j) == Numbered(base, i - 1) { NumbersDiffer(base, j, i - 1); }
        }
        assert qualified in pool;
        pool := pool - {qualified};
      }
      qualified := Numbered(base, i);
      i := i + 1;
    }
    if i > 2 { assert IsFirstFree(base, used, i - 1); }
    return qualified;
  }

  lemma BaseTame(s: Session)
    ensures Tame(Base(s)) && Base(s) != ""
  {
    hide Slug;
    SlugTame(s.name);
    SlugTame(s.hostname);
  }

  lemma TameJoin(a: string, b: string)
    requires Tame(a) && Tame(b)
    ensures Tame(a + b)
  {
  }

  lemma TameNumber(n: nat)
    ensures Tame(Decimal(n))
  {
    NumberOfDecimal(n);
    forall i | 0 <= i < |Decimal(n)| ensures Typable(Decimal(n)[i]) { assert IsDigit(Decimal(n)[i]); }
  }

  /** The plain name: the words of the name, of the address where it has none, or "host". */
  lemma BaseIs(s: Session)
    ensures Base(s) == if Words(s.name) != [] then Join(Words(s.name), '-')
                       else if Words(s.hostname) != [] then Join(Words(s.hostname), '-') else "host"
  {
    hide Slug, Words, Join;
    SlugIsWords(s.name);
    SlugIsWords(s.hostname);
  }

  /** An alias is the plain name, that after the words of the innermost folder, or that and the least number free. */
  lemma AliasIs(s: Session, path: seq<string>, used: set<string>, alias: string)
    requires IsAlias(s, path, used, alias)
    ensures var qualified := if path == [] then Base(s) else Join(Words(path[|path| - 1]), '-') + "-" + Base(s);
            if Base(s) !in used then alias == Base(s)
            else if qualified !in used then alias == qualified
            else exists k: nat :: 2 <= k && alias == Base(s) + "-" + Decimal(k) && alias !in used
                   && forall j: nat :: 2 <= j < k ==> Base(s) + "-" + Decimal(j) in used
  {
    hide Slug, Words, Join, Base, Decimal;
    if path != [] { SlugIsWords(path[|path| - 1]); }
    if Base(s) in used && Qualified(s, path) in used {
      var k: nat :| IsFirstFree(Base(s), used, k) && alias == Numbered(Base(s), k);
      forall j: nat | 2 <= j < k ensures Base(s) + "-" + Decimal(j) in used { assert Numbered(Base(s), j) in used; }
    }
  }

  /** Every alias is typable: no blank, no wildcard, no separator of any kind. */
  lemma AliasTame(s: Session, path: seq<string>, used: set<string>, alias: string)
    requires IsAlias(s, path, used, alias)
    ensures Tame(alias) && alias != ""
    ensures forall c :: c in alias ==> !IsBlank(c) && c !in "*?!,@:=\"#\n"
  {
    hide Base, Slug, Tame;
    BaseTame(s);
    assert Tame("-") by { DashTame(); }
    if Base(s) in used {
      if Qualified(s, path) !in used {
        if path != [] {
          SlugTame(path[|path| - 1]);
          TameJoin(Slug(path[|path| - 1]), "-");
          TameJoin(Slug(path[|path| - 1]) + "-", Base(s));
        }
      } else {
        var k: nat :| IsFirstFree(Base(s), used, k) && alias == Numbered(Base(s), k);
        TameNumber(k);
        TameJoin(Base(s), "-");
        TameJoin(Base(s) + "-", Decimal(k));
      }
    }
    TameChars(alias);
  }

  lemma DashTame()
    ensures Tame("-")
  {
  }

  lemma TameChars(s: string)
    requires Tame(s)
    ensures forall c :: c in s ==> !IsBlank(c) && c !in "*?!,@:=\"#\n"
  {
    forall c | c in s ensures !IsBlank(c) && c !in "*?!,@:=\"#\n" {
      var i :| 0 <= i < |s| && s[i] == c;
      assert Typable(s[i]) || s[i] == '-';
    }
  }

  /** One alias for each session, each given with the earlier ones in use. */
  ghost predicate AreAliases(ss: seq<Session>, paths: seq<seq<string>>, aliases: seq<string>) {
    && |paths| == |ss| == |aliases|
    && (forall k ::
        0 <= k < |ss| ==> IsAlias(ss[k], paths[k], Used(aliases[..k]), aliases[k]) && aliases[k] !in Used(aliases[..k]))
  }

  ghost function Used(aliases: seq<string>): set<string> { set i | 0 <= i < |aliases| :: aliases[i] }

  /** No two hosts of one file are called the same. */
  lemma AliasesDiffer(ss: seq<Session>, paths: seq<seq<string>>, aliases: seq<string>, i: nat, j: nat)
    requires AreAliases(ss, paths, aliases) && i < j < |aliases|
    ensures aliases[i] != aliases[j]
  {
    assert aliases[..j][i] == aliases[i];
    assert aliases[i] in Used(aliases[..j]);
  }

  /** With base names that differ everybody gets the plain one. */
  lemma {:induction false} DistinctBases(ss: seq<Session>, paths: seq<seq<string>>, aliases: seq<string>, k: nat)
    requires AreAliases(ss, paths, aliases) && k < |ss|
    requires forall i, j :: 0 <= i < j < |ss| ==> Base(ss[i]) != Base(ss[j])
    ensures aliases[k] == Base(ss[k])
  {
    hide Base, Qualified, Numbered;
    if Base(ss[k]) in Used(aliases[..k]) {
      var i :| 0 <= i < k && aliases[..k][i] == Base(ss[k]);
      DistinctBases(ss, paths, aliases, i);
    }
  }

  /** A session's base name is always in use once its alias is given: by itself, or by an earlier one. */
  lemma BaseUsed(ss: seq<Session>, paths: seq<seq<string>>, aliases: seq<string>, k: nat)
    requires AreAliases(ss, paths, aliases) && k < |ss|
    ensures Base(ss[k]) in aliases[..k + 1]
  {
    hide Base, Qualified, Numbered;
    assert aliases[..k + 1] == aliases[..k] + [aliases[k]];
    if Base(ss[k]) in Used(aliases[..k]) {
      var i :| 0 <= i < k && aliases[..k][i] == Base(ss[k]);
    }
  }
}
