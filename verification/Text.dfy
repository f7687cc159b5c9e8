/** Joining and splitting text on a separator character. */
module Text {

  /** Go's `strings.Join` with a one-character separator. */
  function Join(parts: seq<string>, sep: char): string {
    if |parts| == 0 then ""
    else if |parts| == 1 then parts[0]
    else parts[0] + [sep] + Join(parts[1..], sep)
  }

  /** The first position of `c` in `s`, or `|s|`. */
  function Find(s: string, c: char): (i: nat)
    ensures i <= |s|
    ensures c !in s[..i]
    ensures i < |s| ==> s[i] == c
  {
    if s == "" || s[0] == c then 0
    else
      var i := Find(s[1..], c) + 1;
      assert s[..i] == [s[0]] + s[1..][..i - 1];
      i
  }

  /** Go's `strings.Split` with a one-character separator. */
  function Split(s: string, sep: char): seq<string>
    decreases |s|
  {
    var i := Find(s, sep);
    if i == |s| then [s] else [s[..i]] + Split(s[i + 1..], sep)
  }

  function Count(s: string, c: char): nat {
    if s == "" then 0 else (if s[0] == c then 1 else 0) + Count(s[1..], c)
  }

  ghost predicate FreeOf(parts: seq<string>, c: char) {
    forall i :: 0 <= i < |parts| ==> c !in parts[i]
  }

  lemma {:induction false} FindPrefix(a: string, c: char, rest: string)
    requires c !in a
    ensures Find(a, c) == |a|
    ensures Find(a + [c] + rest, c) == |a|
  {
    if a != "" {
      FindPrefix(a[1..], c, rest);
      assert (a + [c] + rest)[1..] == a[1..] + [c] + rest;
    }
  }

  /** Splitting undoes joining whenever no part contains the separator. */
  lemma {:induction false} SplitJoin(parts: seq<string>, sep: char)
    requires parts != [] && FreeOf(parts, sep)
    ensures Split(Join(parts, sep), sep) == parts
  {
    if |parts| == 1 {
      FindPrefix(parts[0], sep, "");
      assert parts == [parts[0]];
    } else {
      var tail := Join(parts[1..], sep);
      FindPrefix(parts[0], sep, tail);
      SplitJoin(parts[1..], sep);
      var whole := Join(parts, sep);
      assert whole[..|parts[0]|] == parts[0];
      assert whole[|parts[0]| + 1..] == tail;
    }
  }

  lemma SplitOnce(t: string, sep: char)
    ensures var i := Find(t, sep);
            Split(t, sep) == if i == |t| then [t] else [t[..i]] + Split(t[i + 1..], sep)
  {
    hide Find;
  }

  lemma JoinCons(x: string, rest: seq<string>, sep: char)
    requires rest != []
    ensures Join([x] + rest, sep) == x + [sep] + Join(rest, sep)
  {
    assert ([x] + rest)[1..] == rest;
  }

  /** And joining undoes splitting, always. */
  lemma {:induction false} SplitJoined(t: string, sep: char)
    ensures Split(t, sep) != [] && Join(Split(t, sep), sep) == t
    decreases |t|
  {
    hide Split;
    var i := Find(t, sep);
    SplitOnce(t, sep);
    if i < |t| {
      SplitJoined(t[i + 1..], sep);
      JoinCons(t[..i], Split(t[i + 1..], sep), sep);
      assert t == t[..i] + [sep] + t[i + 1..];
    }
  }

  lemma FindIn(x: string, c: char, rest: string)
    requires Find(x, c) < |x|
    ensures Find(x + rest, c) == Find(x, c)
  {
    var i := Find(x, c);
    assert x == x[..i] + [c] + x[i + 1..];
    FindPrefix(x[..i], c, x[i + 1..] + rest);
    assert x + rest == x[..i] + [c] + (x[i + 1..] + rest);
  }

  /** A separator between two texts splits them, whatever separators they hold themselves. */
  lemma {:induction false} SplitBetween(x: string, sep: char, rest: string)
    ensures Split(x + [sep] + rest, sep) == Split(x, sep) + Split(rest, sep)
    decreases |x|
  {
    hide Split;
    var t := x + [sep] + rest;
    SplitOnce(x, sep);
    SplitOnce(t, sep);
    var i := Find(x, sep);
    if i == |x| {
      FindPrefix(x, sep, rest);
      assert t[..|x|] == x && t[|x| + 1..] == rest;
    } else {
      FindIn(x, sep, [sep] + rest);
      assert t == x + ([sep] + rest);
      SplitBetween(x[i + 1..], sep, rest);
      assert t[..i] == x[..i] && t[i + 1..] == x[i + 1..] + [sep] + rest;
    }
  }

  /** The parts, each split in its turn. */
  function Flat(parts: seq<string>, sep: char): seq<string> {
    if parts == [] then [] else Split(parts[0], sep) + Flat(parts[1..], sep)
  }

  lemma {:induction false} SplitFlat(parts: seq<string>, sep: char)
    requires parts != []
    ensures Split(Join(parts, sep), sep) == Flat(parts, sep)
  {
    hide Split;
    if |parts| == 1 {
      assert Flat(parts[1..], sep) == [];
    } else {
      SplitFlat(parts[1..], sep);
      SplitBetween(parts[0], sep, Join(parts[1..], sep));
    }
  }

  /** Joined text is the same exactly when the parts are, once split. */
  lemma JoinSameExactly(a: seq<string>, b: seq<string>, sep: char)
    requires a != [] && b != []
    ensures Join(a, sep) == Join(b, sep) <==> Flat(a, sep) == Flat(b, sep)
  {
    hide Split, Join, Flat;
    SplitFlat(a, sep);
    SplitFlat(b, sep);
    SplitJoined(Join(a, sep), sep);
    SplitJoined(Join(b, sep), sep);
  }

  /** So joined text identifies its parts. */
  lemma JoinInjective(a: seq<string>, b: seq<string>, sep: char)
    requires a != [] && b != [] && FreeOf(a, sep) && FreeOf(b, sep)
    requires Join(a, sep) == Join(b, sep)
    ensures a == b
  {
    SplitJoin(a, sep);
    SplitJoin(b, sep);
  }

  lemma {:induction false} CountAppend(a: string, b: string, c: char)
    ensures Count(a + b, c) == Count(a, c) + Count(b, c)
  {
    if a == "" {
      assert a + b == b;
    } else {
      CountAppend(a[1..], b, c);
      assert (a + b)[1..] == a[1..] + b;
    }
  }

  lemma {:induction false} CountAbsent(a: string, c: char)
    requires c !in a
    ensures Count(a, c) == 0
  {
    if a != "" { CountAbsent(a[1..], c); }
  }

  lemma {:induction false} CountJoin(parts: seq<string>, sep: char)
    requires parts != [] && FreeOf(parts, sep)
    ensures Count(Join(parts, sep), sep) == |parts| - 1
  {
    CountAbsent(parts[0], sep);
    if |parts| > 1 {
      CountJoin(parts[1..], sep);
      CountAppend(parts[0] + [sep], Join(parts[1..], sep), sep);
      CountAppend(parts[0], [sep], sep);
    }
  }

  // Letters, blanks and numbers.

  function LowerChar(c: char): char { if 'A' <= c <= 'Z' then c - 'A' + 'a' else c }

  /** Go's `strings.ToLower`, on ASCII. */
  function Lower(s: string): (r: string)
    ensures |r| == |s|
  {
    seq(|s|, i requires 0 <= i < |s| => LowerChar(s[i]))
  }

  predicate IsBlank(c: char) { c == ' ' || ('\t' <= c <= '\r') }

  function TrimLeft(s: string): string {
    if s != "" && IsBlank(s[0]) then TrimLeft(s[1..]) else s
  }

  function TrimRight(s: string): string {
    if s != "" && IsBlank(s[|s| - 1]) then TrimRight(s[..|s| - 1]) else s
  }

  /** Go's `strings.TrimSpace`, on ASCII. */
  function Trim(s: string): string { TrimRight(TrimLeft(s)) }

  lemma TrimmedEnds(v: string)
    requires Trim(v) == v && v != ""
    ensures !IsBlank(v[0]) && !IsBlank(v[|v| - 1])
  {
    TrimShrinks(v);
  }

  lemma {:induction false} TrimShrinks(v: string)
    ensures |TrimLeft(v)| <= |v| && |TrimRight(v)| <= |v| && |Trim(v)| <= |v|
    ensures v != "" && IsBlank(v[0]) ==> |Trim(v)| < |v|
    ensures v != "" && IsBlank(v[|v| - 1]) ==> |TrimRight(v)| < |v|
    decreases |v|
  {
    if v != "" {
      TrimShrinks(v[1..]);
      TrimShrinks(v[..|v| - 1]);
    }
  }

  lemma EndsTrimmed(v: string)
    requires v != "" ==> !IsBlank(v[0]) && !IsBlank(v[|v| - 1])
    ensures TrimLeft(v) == v && TrimRight(v) == v && Trim(v) == v
  {
  }

  function DigitOf(d: nat): char
    requires d < 10
  {
    '0' + d as char
  }

  /** A number as Go's `%d` writes it. */
  function Decimal(n: nat): string {
    if n < 10 then [DigitOf(n)] else Decimal(n / 10) + [DigitOf(n % 10)]
  }

  /** The number a string of digits stands for. */
  function NumberOf(s: string): int {
    if s == "" then 0 else NumberOf(s[..|s| - 1]) * 10 + (s[|s| - 1] as int - '0' as int)
  }

  predicate IsDigit(c: char) { '0' <= c <= '9' }

  ghost predicate AllDigits(s: string) { forall i :: 0 <= i < |s| ==> IsDigit(s[i]) }

  /** Reading a number undoes writing it. */
  lemma {:induction false} NumberOfDecimal(n: nat)
    ensures NumberOf(Decimal(n)) == n && AllDigits(Decimal(n)) && Decimal(n) != ""
  {
    if n >= 10 {
      NumberOfDecimal(n / 10);
      assert Decimal(n)[..|Decimal(n)| - 1] == Decimal(n / 10);
    } else {
      assert Decimal(n)[..0] == "";
    }
  }
}
