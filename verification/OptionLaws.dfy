/** What option tokens mean (docopt.py:301-366), said without the parser: for usage patterns and
for argv, for options that are known and for those that are not, and what is refused.
 */
module OptionLaws {
  import opened Basics
  import opened Elements
  import opened Patterns
  import opened Options
  import U = UsageParser
  import A = ArgvParser

  // ---------- lookups ----------

  lemma {:induction false} OneLong(table: Table, long: string, i: nat)
    requires i < |table| && table[i].long == Some(long)
    requires forall j :: 0 <= j < |table| && j != i ==> table[j].long != Some(long)
    ensures WithLong(table, long) == [table[i]]
  {
    if i == 0 {
      WithLongNone(table[1..], long);
    } else {
      OneLong(table[1..], long, i - 1);
    }
  }

  lemma {:induction false} TwoLongs(table: Table, long: string, i: nat, j: nat)
    requires i < j < |table| && table[i].long == table[j].long == Some(long)
    ensures |WithLong(table, long)| > 1
  {
    if i == 0 {
      WithLongMembers(table[1..], long);
      assert table[1..][j - 1] in table[1..];
      assert table[j] in WithLong(table[1..], long);
    } else {
      TwoLongs(table[1..], long, i - 1, j - 1);
    }
  }

  lemma {:induction false} OneShort(table: Table, short: string, i: nat)
    requires i < |table| && table[i].short == Some(short)
    requires forall j :: 0 <= j < |table| && j != i ==> table[j].short != Some(short)
    ensures WithShort(table, short) == [table[i]]
  {
    if i == 0 {
      WithShortNone(table[1..], short);
    } else {
      OneShort(table[1..], short, i - 1);
    }
  }

  lemma {:induction false} TwoShorts(table: Table, short: string, i: nat, j: nat)
    requires i < j < |table| && table[i].short == table[j].short == Some(short)
    ensures |WithShort(table, short)| > 1
  {
    if i == 0 {
      WithShortMembers(table[1..], short);
      assert table[1..][j - 1] in table[1..];
      assert table[j] in WithShort(table[1..], short);
    } else {
      TwoShorts(table[1..], short, i - 1, j - 1);
    }
  }

  predicate HasPrefix(o: Known, prefix: string) {
    o.long.Some? && |prefix| <= |o.long.value| && o.long.value[..|prefix|] == prefix
  }

  lemma {:induction false} NoPrefix(table: Table, prefix: string)
    requires forall j :: 0 <= j < |table| ==> !HasPrefix(table[j], prefix)
    ensures WithPrefix(table, prefix) == []
  {
    if table != [] {
      NoPrefix(table[1..], prefix);
      assert !HasPrefix(table[0], prefix);
    }
  }

  lemma {:induction false} OnePrefix(table: Table, prefix: string, i: nat)
    requires i < |table| && HasPrefix(table[i], prefix)
    requires forall j :: 0 <= j < |table| && j != i ==> !HasPrefix(table[j], prefix)
    ensures WithPrefix(table, prefix) == [table[i]]
  {
    if i == 0 {
      NoPrefix(table[1..], prefix);
    } else {
      OnePrefix(table[1..], prefix, i - 1);
      assert !HasPrefix(table[0], prefix);
    }
  }

  lemma {:induction false} SomePrefix(table: Table, prefix: string, j: nat)
    requires j < |table| && HasPrefix(table[j], prefix)
    ensures WithPrefix(table, prefix) != []
  {
    if j > 0 {
      SomePrefix(table[1..], prefix, j - 1);
    }
  }

  lemma {:induction false} TwoPrefixes(table: Table, prefix: string, i: nat, j: nat)
    requires i < j < |table| && HasPrefix(table[i], prefix) && HasPrefix(table[j], prefix)
    ensures |WithPrefix(table, prefix)| > 1
  {
    if i == 0 {
      SomePrefix(table[1..], prefix, j - 1);
    } else {
      TwoPrefixes(table[1..], prefix, i - 1, j - 1);
    }
  }

  // ---------- long options ----------

  /** The name `long` may mean option `i`: it is its name, or, in argv and if it is nobody's
      name, the beginning of it. */
  predicate MayMean(table: Table, long: string, exit: bool, i: nat) {
    i < |table| && (
      || table[i].long == Some(long)
      || (exit && HasPrefix(table[i], long) && forall j :: 0 <= j < |table| ==> table[j].long != Some(long)))
  }

  /** A token is a name, or a name and an argument. */
  function LongToken(long: string, value: Option<string>): string {
    if value.Some? then long + "=" + value.value else long
  }

  lemma LongParts(long: string, value: Option<string>)
    requires '=' !in long
    ensures Partition(LongToken(long, value)) == (long, value)
  {
    if value.Some? {
      PartitionAt(long, value.value);
    } else {
      PartitionWhole(long);
    }
  }

  lemma SimilarNone(table: Table, long: string, exit: bool)
    requires forall i :: 0 <= i < |table| ==> !MayMean(table, long, exit, i)
    ensures Similar(table, long, exit) == []
  {
    forall i | 0 <= i < |table|
      ensures table[i].long != Some(long)
    {
      assert !MayMean(table, long, exit, i);
    }
    WithLongNone(table, long);
    if exit {
      forall i | 0 <= i < |table|
        ensures !HasPrefix(table[i], long)
      {
        assert !MayMean(table, long, exit, i);
      }
      NoPrefix(table, long);
    }
  }

  lemma SimilarOne(table: Table, long: string, exit: bool, i: nat)
    requires MayMean(table, long, exit, i)
    requires forall j :: 0 <= j < |table| && j != i ==> !MayMean(table, long, exit, j)
    ensures Similar(table, long, exit) == [table[i]]
  {
    forall j | 0 <= j < |table| && j != i
      ensures table[j].long != Some(long)
      ensures table[i].long != Some(long) ==> !HasPrefix(table[j], long)
    {
      assert !MayMean(table, long, exit, j);
    }
    if table[i].long == Some(long) {
      OneLong(table, long, i);
    } else {
      WithLongNone(table, long);
      OnePrefix(table, long, i);
    }
  }

  lemma SimilarTwo(table: Table, long: string, exit: bool, i: nat, j: nat)
    requires i < j && MayMean(table, long, exit, i) && MayMean(table, long, exit, j)
    ensures |Similar(table, long, exit)| > 1
  {
    if table[i].long == Some(long) {
      TwoLongs(table, long, i, j);
    } else {
      WithLongNone(table, long);
      TwoPrefixes(table, long, i, j);
    }
  }

  /** A name nothing is known by makes a new option, with an argument if one is given.  argv has
      its value; the table, and a usage pattern, the option itself. */
  lemma NewLong(long: string, value: Option<string>, rest: Tokens, table: Table, exit: bool)
    requires '=' !in long && forall i :: 0 <= i < |table| ==> !MayMean(table, long, exit, i)
    ensures var o := if value.Some? then Opt(None, Some(long), 1, Null) else Opt(None, Some(long), 0, Flag(false));
            var v := if value.Some? then Text(value.value) else Flag(true);
            ParseLong([LongToken(long, value)] + rest, table, exit)
            == Ok(Parsed(if exit then Opt(None, Some(long), o.argcount, v) else o, rest, table + [o]))
  {
    LongParts(long, value);
    SimilarNone(table, long, exit);
  }

  /** A name one option is known by: its argument is what is given or else the next token, and
      what is missing or too much is refused. */
  lemma KnownLong(long: string, value: Option<string>, rest: Tokens, table: Table, exit: bool, i: nat)
    requires '=' !in long && MayMean(table, long, exit, i)
    requires forall j :: 0 <= j < |table| && j != i ==> !MayMean(table, long, exit, j)
    requires table[i].argcount != 0 ==> table[i].value != Flag(false)
    ensures var o, r := table[i], ParseLong([LongToken(long, value)] + rest, table, exit);
            if o.argcount == 0 then
              r == if value.Some? then Err(NoArgumentAllowed)
                   else Ok(Parsed(Opt(o.short, o.long, 0, if exit then Flag(true) else o.value), rest, table))
            else if value.Some? then
              r == Ok(Parsed(Opt(o.short, o.long, o.argcount, if exit then Text(value.value) else o.value), rest, table))
            else if rest == [] || rest[0] == "--" then r == Err(ArgumentRequired)
            else r == Ok(Parsed(Opt(o.short, o.long, o.argcount, if exit then Text(rest[0]) else o.value), rest[1..], table))
  {
    LongParts(long, value);
    SimilarOne(table, long, exit, i);
  }

  /** A name that may mean two options is refused. */
  lemma AmbiguousLong(long: string, value: Option<string>, rest: Tokens, table: Table, exit: bool, i: nat, j: nat)
    requires '=' !in long && i < j && MayMean(table, long, exit, i) && MayMean(table, long, exit, j)
    ensures ParseLong([LongToken(long, value)] + rest, table, exit) == Err(NotUniquePrefix)
  {
    LongParts(long, value);
    SimilarTwo(table, long, exit, i, j);
  }

  // ---------- letters ----------

  predicate IsLetterOf(o: Known, c: char) {
    o.short == Some(['-', c])
  }

  /** The letter is nobody's yet, or one option's that takes no argument. */
  predicate IsFlag(table: Table, c: char) {
    && (forall i, j :: 0 <= i < j < |table| ==> !(IsLetterOf(table[i], c) && IsLetterOf(table[j], c)))
    && (forall i :: 0 <= i < |table| && IsLetterOf(table[i], c) ==> table[i].argcount == 0)
  }

  predicate AreFlags(table: Table, s: string) {
    forall k :: 0 <= k < |s| ==> IsFlag(table, s[k])
  }

  predicate IsNew(table: Table, c: char) {
    forall i :: 0 <= i < |table| ==> !IsLetterOf(table[i], c)
  }

  function NewFlag(c: char): Known {
    Opt(Some(['-', c]), None, 0, Flag(false))
  }

  /** What a letter is read as: in argv set, in a usage pattern as the option is known. */
  predicate ReadAs(item: Known, c: char, table: Table, exit: bool) {
    && (IsNew(table, c) ==> item == Opt(Some(['-', c]), None, 0, Flag(exit)))
    && forall i :: 0 <= i < |table| && IsLetterOf(table[i], c) ==>
         item == Opt(Some(['-', c]), table[i].long, 0, if exit then Flag(true) else table[i].value)
  }

  function NewFlags(cs: string): (r: Table)
    ensures |r| == |cs| && forall i :: 0 <= i < |cs| ==> r[i] == NewFlag(cs[i])
  {
    seq(|cs|, i requires 0 <= i < |cs| => NewFlag(cs[i]))
  }

  /** `news` are the letters of `s` that are new to the table, each once. */
  ghost predicate AreNews(news: string, s: string, table: Table) {
    NoDuplicates(news) && forall c :: c in news <==> c in s && IsNew(table, c)
  }

  lemma FindsLetter(table: Table, c: char, i: nat)
    requires i < |table| && IsLetterOf(table[i], c) && IsFlag(table, c)
    ensures WithShort(table, ['-', c]) == [table[i]]
  {
    forall j | 0 <= j < |table| && j != i
      ensures table[j].short != Some(['-', c])
    {
      assert !(IsLetterOf(table[i], c) && IsLetterOf(table[j], c));
    }
    OneShort(table, ['-', c], i);
  }

  lemma FindsNoLetter(table: Table, c: char)
    requires IsNew(table, c)
    ensures WithShort(table, ['-', c]) == []
  {
    forall i | 0 <= i < |table|
      ensures table[i].short != Some(['-', c])
    {
      assert !IsLetterOf(table[i], c);
    }
    WithShortNone(table, ['-', c]);
  }

  lemma NewAfter(table: Table, c: char, d: char)
    ensures IsNew(table + [NewFlag(c)], d) <==> IsNew(table, d) && d != c
  {
    var more := table + [NewFlag(c)];
    assert more[|table|] == NewFlag(c);
    assert forall i :: 0 <= i < |table| ==> more[i] == table[i];
    if IsNew(more, d) {
      assert !IsLetterOf(more[|table|], d);
      forall i | 0 <= i < |table|
        ensures !IsLetterOf(table[i], d)
      {
        assert !IsLetterOf(more[i], d);
      }
    }
  }

  /** With one more flag in the table the letters are still flags and read as before. */
  lemma FlagAdded(table: Table, c: char, d: char)
    requires IsNew(table, c) && IsFlag(table, d)
    ensures IsFlag(table + [NewFlag(c)], d)
  {
    var more := table + [NewFlag(c)];
    assert forall i :: 0 <= i < |table| ==> more[i] == table[i];
  }

  lemma FlagsAdded(table: Table, c: char, s: string)
    requires IsNew(table, c) && AreFlags(table, s)
    ensures AreFlags(table + [NewFlag(c)], s)
  {
    forall k | 0 <= k < |s|
      ensures IsFlag(table + [NewFlag(c)], s[k])
    {
      FlagAdded(table, c, s[k]);
    }
  }

  lemma ReadBefore(item: Known, d: char, table: Table, c: char, exit: bool)
    requires IsNew(table, c) && ReadAs(item, d, table + [NewFlag(c)], exit)
    ensures ReadAs(item, d, table, exit)
  {
    var more := table + [NewFlag(c)];
    NewAfter(table, c, d);
    assert more[|table|] == NewFlag(c);
    forall i | 0 <= i < |table| && IsLetterOf(table[i], d)
      ensures item == Opt(Some(['-', d]), table[i].long, 0, if exit then Flag(true) else table[i].value)
    {
      assert more[i] == table[i];
    }
  }

  lemma MoreNews(table: Table, c: char, s: string, news: string)
    requires IsNew(table, c) && AreNews(news, s, table + [NewFlag(c)])
    ensures AreNews([c] + news, [c] + s, table)
    ensures table + [NewFlag(c)] + NewFlags(news) == table + NewFlags([c] + news)
  {
    forall d
      ensures d in [c] + news <==> d in [c] + s && IsNew(table, d)
      ensures d == c ==> d !in news
    {
      NewAfter(table, c, d);
    }
  }

  /** What reading the letters `s` gives. */
  ghost predicate LettersRead(p: Parsed<seq<Known>>, s: string, rest: Tokens, table: Table, exit: bool, news: string) {
    && |p.item| == |s| && (forall k :: 0 <= k < |s| ==> ReadAs(p.item[k], s[k], table, exit))
    && p.rest == rest && AreNews(news, s, table) && p.table == table + NewFlags(news)
  }

  lemma NewLetterRead(c: char, t: string, rest: Tokens, table: Table, exit: bool, q: Parsed<seq<Known>>, news: string)
    requires IsNew(table, c) && LettersRead(q, t, rest, table + [NewFlag(c)], exit, news)
    ensures LettersRead(Parsed([Opt(Some(['-', c]), None, 0, Flag(exit))] + q.item, rest, q.table), [c] + t, rest, table, exit,
                        [c] + news)
  {
    MoreNews(table, c, t, news);
    var first := Opt(Some(['-', c]), None, 0, Flag(exit));
    var items := [first] + q.item;
    forall k | 0 <= k < |[c] + t|
      ensures ReadAs(items[k], ([c] + t)[k], table, exit)
    {
      if k > 0 {
        ReadBefore(q.item[k - 1], t[k - 1], table, c, exit);
      }
    }
  }

  lemma KnownLetterRead(c: char, i: nat, t: string, rest: Tokens, table: Table, exit: bool, q: Parsed<seq<Known>>, news: string)
    requires i < |table| && IsLetterOf(table[i], c) && IsFlag(table, c) && LettersRead(q, t, rest, table, exit, news)
    ensures var first := Opt(Some(['-', c]), table[i].long, 0, if exit then Flag(true) else table[i].value);
            LettersRead(Parsed([first] + q.item, rest, q.table), [c] + t, rest, table, exit, news)
  {
    var first := Opt(Some(['-', c]), table[i].long, 0, if exit then Flag(true) else table[i].value);
    forall j | 0 <= j < |table| && IsLetterOf(table[j], c)
      ensures j == i
    {
    }
    assert ReadAs(first, c, table, exit);
    assert forall k :: 0 < k < |[c] + t| ==> ([first] + q.item)[k] == q.item[k - 1] && ([c] + t)[k] == t[k - 1];
  }

  lemma TailFlags(table: Table, s: string)
    requires s != [] && AreFlags(table, s)
    ensures AreFlags(table, s[1..]) && IsFlag(table, s[0])
  {
    forall k | 0 <= k < |s[1..]|
      ensures IsFlag(table, s[1..][k])
    {
      assert s[1..][k] == s[k + 1];
    }
  }

  /** One letter of a cluster. */
  lemma ClusterNew(c: char, t: string, rest: Tokens, table: Table, exit: bool)
    requires IsNew(table, c)
    ensures Cluster([c] + t, rest, table, exit)
         == Behind([Opt(Some(['-', c]), None, 0, Flag(exit))], Cluster(t, rest, table + [NewFlag(c)], exit))
  {
    FindsNoLetter(table, c);
    assert ([c] + t)[1..] == t;
  }

  lemma ClusterKnown(c: char, i: nat, t: string, rest: Tokens, table: Table, exit: bool)
    requires i < |table| && IsLetterOf(table[i], c) && IsFlag(table, c)
    ensures Cluster([c] + t, rest, table, exit)
         == Behind([Opt(Some(['-', c]), table[i].long, 0, if exit then Flag(true) else table[i].value)],
                   Cluster(t, rest, table, exit))
  {
    FindsLetter(table, c, i);
    assert ([c] + t)[1..] == t;
  }

  /** A cluster of flags, known or new, in a usage pattern or in argv: one option per letter, in
      order; the tokens after it stay; the new letters become known, each once. */
  lemma {:induction false} FlagsRead(s: string, rest: Tokens, table: Table, exit: bool) returns (news: string)
    requires AreFlags(table, s)
    ensures Cluster(s, rest, table, exit).Ok?
    ensures LettersRead(Cluster(s, rest, table, exit).value, s, rest, table, exit, news)
  {
    if s == [] {
      news := [];
    } else {
      var c, t := s[0], s[1..];
      assert s == [c] + t;
      TailFlags(table, s);
      if IsNew(table, c) {
        FlagsAdded(table, c, t);
        news := FlagsRead(t, rest, table + [NewFlag(c)], exit);
        ClusterNew(c, t, rest, table, exit);
        NewLetterRead(c, t, rest, table, exit, Cluster(t, rest, table + [NewFlag(c)], exit).value, news);
        news := [c] + news;
      } else {
        var i :| 0 <= i < |table| && IsLetterOf(table[i], c);
        news := FlagsRead(t, rest, table, exit);
        ClusterKnown(c, i, t, rest, table, exit);
        KnownLetterRead(c, i, t, rest, table, exit, Cluster(t, rest, table, exit).value, news);
      }
    }
  }

  /** Options read before what a cluster goes on with. */
  function Behind(items: seq<Known>, r: Result<Parsed<seq<Known>>>): Result<Parsed<seq<Known>>> {
    match r
    case Ok(q) => Ok(Parsed(items + q.item, q.rest, q.table))
    case Err(e) => Err(e)
  }

  lemma BehindTwice(x: seq<Known>, y: seq<Known>, r: Result<Parsed<seq<Known>>>)
    ensures Behind(x, Behind(y, r)) == Behind(x + y, r)
  {
    if r.Ok? {
      assert x + (y + r.value.item) == x + y + r.value.item;
    }
  }

  lemma {:induction false} ClusterSplits(s: string, t: string, rest: Tokens, table: Table, exit: bool)
    requires AreFlags(table, s) && Cluster(s, rest, table, exit).Ok?
    ensures var p := Cluster(s, rest, table, exit).value;
            Cluster(s + t, rest, table, exit) == Behind(p.item, Cluster(t, rest, p.table, exit))
  {
    if s == [] {
      assert s + t == t;
      assert Cluster(t, rest, table, exit).Ok? ==>
          [] + Cluster(t, rest, table, exit).value.item == Cluster(t, rest, table, exit).value.item;
    } else {
      var c, u := s[0], s[1..];
      assert s == [c] + u && s + t == [c] + (u + t);
      TailFlags(table, s);
      if IsNew(table, c) {
        var more := table + [NewFlag(c)];
        FlagsAdded(table, c, u);
        var news := FlagsRead(u, rest, more, exit);
        ClusterNew(c, u, rest, table, exit);
        ClusterNew(c, u + t, rest, table, exit);
        ClusterSplits(u, t, rest, more, exit);
        var q := Cluster(u, rest, more, exit).value;
        BehindTwice([Opt(Some(['-', c]), None, 0, Flag(exit))], q.item, Cluster(t, rest, q.table, exit));
      } else {
        var i :| 0 <= i < |table| && IsLetterOf(table[i], c);
        var news := FlagsRead(u, rest, table, exit);
        ClusterKnown(c, i, u, rest, table, exit);
        ClusterKnown(c, i, u + t, rest, table, exit);
        ClusterSplits(u, t, rest, table, exit);
        var q := Cluster(u, rest, table, exit).value;
        BehindTwice([Opt(Some(['-', c]), table[i].long, 0, if exit then Flag(true) else table[i].value)], q.item,
                    Cluster(t, rest, q.table, exit));
      }
    }
  }

  /** A letter that takes an argument ends the cluster: the argument is what is left of it, or
      else the next token; if there is none it is refused. */
  lemma ArgumentRead(s: string, c: char, arg: string, rest: Tokens, table: Table, exit: bool, i: nat) returns (news: string)
    requires AreFlags(table, s) && i < |table| && IsLetterOf(table[i], c)
    requires forall j :: 0 <= j < |table| && j != i ==> !IsLetterOf(table[j], c)
    requires table[i].argcount != 0 && table[i].value != Flag(false)
    ensures Cluster(s, rest, table, exit).Ok?
    ensures var p, o := Cluster(s, rest, table, exit).value, table[i];
            var r := Cluster(s + [c] + arg, rest, table, exit);
            && LettersRead(p, s, rest, table, exit, news)
            && if arg != [] then
                 r == Ok(Parsed(p.item + [Opt(o.short, o.long, o.argcount, if exit then Text(arg) else o.value)], rest, p.table))
               else if rest == [] || rest[0] == "--" then r == Err(ArgumentRequired)
               else r == Ok(Parsed(p.item + [Opt(o.short, o.long, o.argcount, if exit then Text(rest[0]) else o.value)],
                                   rest[1..], p.table))
  {
    news := FlagsRead(s, rest, table, exit);
    var p := Cluster(s, rest, table, exit).value;
    ClusterSplits(s, [c] + arg, rest, table, exit);
    assert s + ([c] + arg) == s + [c] + arg;
    OnlyOneLetter(table, news, s, c, i);
    ArgumentLetter(c, arg, rest, p.table, exit, i);
  }

  lemma ArgumentLetter(c: char, arg: string, rest: Tokens, table: Table, exit: bool, i: nat)
    requires i < |table| && IsLetterOf(table[i], c)
    requires forall j :: 0 <= j < |table| && j != i ==> !IsLetterOf(table[j], c)
    requires table[i].argcount != 0 && table[i].value != Flag(false)
    ensures var o, r := table[i], Cluster([c] + arg, rest, table, exit);
            if arg != [] then r == Ok(Parsed([Opt(o.short, o.long, o.argcount, if exit then Text(arg) else o.value)], rest, table))
            else if rest == [] || rest[0] == "--" then r == Err(ArgumentRequired)
            else r == Ok(Parsed([Opt(o.short, o.long, o.argcount, if exit then Text(rest[0]) else o.value)], rest[1..], table))
  {
    forall j | 0 <= j < |table| && j != i
      ensures table[j].short != Some(['-', c])
    {
      assert !IsLetterOf(table[j], c);
    }
    OneShort(table, ['-', c], i);
    assert ([c] + arg)[1..] == arg;
  }

  lemma OnlyOneLetter(table: Table, news: string, s: string, c: char, i: nat)
    requires AreNews(news, s, table) && i < |table| && IsLetterOf(table[i], c)
    requires forall j :: 0 <= j < |table| && j != i ==> !IsLetterOf(table[j], c)
    ensures var table' := table + NewFlags(news);
            i < |table'| && table'[i] == table[i] && forall j :: 0 <= j < |table'| && j != i ==> !IsLetterOf(table'[j], c)
  {
    var table' := table + NewFlags(news);
    assert !IsNew(table, c);
    forall j | |table| <= j < |table'|
      ensures !IsLetterOf(table'[j], c)
    {
      assert table'[j] == NewFlag(news[j - |table|]) && news[j - |table|] in news;
    }
  }

  /** A letter two options have is refused. */
  lemma AmbiguousLetter(s: string, c: char, t: string, rest: Tokens, table: Table, exit: bool, i: nat, j: nat)
    requires AreFlags(table, s) && i < j < |table| && IsLetterOf(table[i], c) && IsLetterOf(table[j], c)
    ensures Cluster(s + [c] + t, rest, table, exit) == Err(Ambiguous)
  {
    var news := FlagsRead(s, rest, table, exit);
    var p := Cluster(s, rest, table, exit).value;
    ClusterSplits(s, [c] + t, rest, table, exit);
    assert s + ([c] + t) == s + [c] + t;
    assert p.table[i] == table[i] && p.table[j] == table[j];
    TwoShorts(p.table, ['-', c], i, j);
  }

  // ---------- in their places ----------

  lemma DashStripped(s: string)
    requires s == [] || s[0] != '-'
    ensures StripDashes("-" + s) == s
  {
    assert ("-" + s)[1..] == s;
  }

  /** A cluster of flags as an atom of a usage pattern: one leaf per letter. */
  lemma FlagsInUsage(s: string, rest: Tokens, table: Table) returns (p: Parsed<seq<Known>>, news: string)
    requires s != [] && s[0] != '-' && AreFlags(table, s)
    ensures LettersRead(p, s, rest, table, false, news)
    ensures U.ParseAtom(["-" + s] + rest, table) == Ok(Parsed(U.AsLeaves(p.item), rest, p.table))
  {
    DashStripped(s);
    news := FlagsRead(s, rest, table, false);
    p := Cluster(s, rest, table, false).value;
    assert (["-" + s] + rest)[1..] == rest;
  }

  /** A cluster of flags in argv: one element per letter, and reading goes on behind it. */
  lemma FlagsInArgv(s: string, rest: Tokens, table: Table, optionsFirst: bool) returns (p: Parsed<seq<Known>>, news: string)
    requires s != [] && s[0] != '-' && AreFlags(table, s)
    ensures LettersRead(p, s, rest, table, true, news)
    ensures A.ParseArgv(["-" + s] + rest, table, optionsFirst)
         == A.Then(A.Upcast(p.item), A.ParseArgv(rest, p.table, optionsFirst))
  {
    DashStripped(s);
    news := FlagsRead(s, rest, table, true);
    p := Cluster(s, rest, table, true).value;
    assert (["-" + s] + rest)[1..] == rest;
  }

  // ---------- words and brackets of a usage pattern ----------

  /** A token that is no bracket, bar, option or keyword is a word of its own: an argument if it
      is in angle brackets or has capitals and no small letters, and else a command. */
  lemma WordOfUsage(t: string, rest: Tokens, table: Table)
    requires t != [] && t !in {"(", "[", "options"} && (t[0] != '-' || t == "-" || t == "--")
    ensures var angled := t[0] == '<' && t[|t| - 1] == '>';
            var capital := (exists i :: 0 <= i < |t| && 'A' <= t[i] <= 'Z') && forall i :: 0 <= i < |t| ==> !('a' <= t[i] <= 'z');
            var leaf := if angled || capital then Argument(Some(t), Null) else Command(Some(t), Flag(false));
            U.ParseAtom([t] + rest, table) == Ok(Parsed([Leaf(leaf)], rest, table))
  {
    assert ([t] + rest)[1..] == rest;
    assert |t| >= 2 && t[..2] == "--" ==> t[0] == '-';
  }

  /** What is in round brackets must be matched, what is in square ones may be, and `options`
      stands for the documented options. */
  lemma BracketsRead(cs: U.Trees, rest: Tokens, table: Table)
    requires Clean(table) && U.NormalBody(cs, table)
    ensures U.ParseAtom(["("] + U.PrintBody(cs) + [")"] + rest, table) == Ok(Parsed([Required(cs)], rest, table))
    ensures U.ParseAtom(["["] + U.PrintBody(cs) + ["]"] + rest, table) == Ok(Parsed([Optional(cs)], rest, table))
    ensures U.ParseAtom(["options"] + rest, table) == Ok(Parsed([OptionsShortcut([])], rest, table))
  {
    BracketRead("(", ")", cs, rest, table);
    BracketRead("[", "]", cs, rest, table);
    assert (["options"] + rest)[1..] == rest;
  }

  lemma BracketRead(open: string, close: string, cs: U.Trees, rest: Tokens, table: Table)
    requires (open == "(" && close == ")") || (open == "[" && close == "]")
    requires Clean(table) && U.NormalBody(cs, table)
    ensures U.ParseAtom([open] + U.PrintBody(cs) + [close] + rest, table)
         == Ok(Parsed([if open == "(" then Required(cs) else Optional(cs)], rest, table))
  {
    var tail := [close] + rest;
    assert [open] + U.PrintBody(cs) + [close] + rest == [open] + (U.PrintBody(cs) + tail);
    assert ([open] + (U.PrintBody(cs) + tail))[1..] == U.PrintBody(cs) + tail;
    U.BodyRoundTrip(cs, tail, table);
    assert tail[1..] == rest;
  }

  /** An ellipsis repeats what it follows. */
  lemma RepeatRead(p: Pattern<Element>, rest: Tokens, table: Table)
    requires Clean(table) && U.NormalItem(p, table) && !p.OneOrMore? && U.EndsSeq(rest)
    ensures U.ParseSeq(U.Print(p) + ["..."] + rest, table) == Ok(Parsed([OneOrMore([p])], rest, table))
  {
    var tail := ["..."] + rest;
    var none: U.Trees := [];
    U.FirstToken(p, table);
    U.AtomRoundTrip(p, tail, table);
    assert U.Print(p) + ["..."] + rest == U.Print(p) + tail && tail[1..] == rest;
    assert U.ParseSeq(rest, table) == Ok(Parsed(none, rest, table));
    assert [OneOrMore([p])] + none == [OneOrMore([p])];
  }

  /** A bracket that is not closed where its contents end is refused. */
  lemma UnmatchedBracket(open: string, cs: U.Trees, rest: Tokens, table: Table)
    requires open == "(" || open == "["
    requires Clean(table) && U.NormalBody(cs, table) && U.EndsExpr(rest)
    requires rest == [] || rest[0] != if open == "(" then ")" else "]"
    ensures U.ParseAtom([open] + U.PrintBody(cs) + rest, table) == Err(Unmatched)
  {
    var toks := [open] + U.PrintBody(cs) + rest;
    assert toks[1..] == U.PrintBody(cs) + rest;
    U.BodyRoundTrip(cs, rest, table);
  }

  /** A pattern with something left over, which can only be a closing bracket, is refused. */
  lemma LeftOver(cs: U.Trees, rest: Tokens, table: Table)
    requires Clean(table) && U.NormalBody(cs, table) && U.EndsExpr(rest) && rest != []
    ensures U.ParsePattern(U.PrintBody(cs) + rest, table) == Err(UnexpectedEnding)
  {
    U.BodyRoundTrip(cs, rest, table);
  }

  // ---------- alternatives ----------

  /** Alternatives as they are usually written, without brackets around each. */
  function PrintBare(alts: seq<U.Trees>): Tokens
    requires alts != []
  {
    U.PrintAll(alts[0]) + MoreBare(alts[1..])
  }

  function MoreBare(alts: seq<U.Trees>): Tokens {
    if alts == [] then [] else ["|"] + U.PrintAll(alts[0]) + MoreBare(alts[1..])
  }

  /** What the alternatives stand for: one item for itself, several for all of them, none for
      nothing. */
  function Meant(alts: seq<U.Trees>): U.Trees {
    if alts == [] then []
    else
      var s, more := alts[0], Meant(alts[1..]);
      if |s| == 0 then more else if |s| == 1 then [s[0]] + more else [Required(s)] + more
  }

  ghost predicate AllNormal(alts: seq<U.Trees>, table: Table) {
    forall i :: 0 <= i < |alts| ==> U.NormalItems(alts[i], table)
  }

  lemma BareEndsSeq(alts: seq<U.Trees>, rest: Tokens)
    requires U.EndsExpr(rest)
    ensures U.EndsSeq(MoreBare(alts) + rest)
    ensures alts != [] ==> U.At(MoreBare(alts) + rest, "|")
    ensures alts != [] ==> (MoreBare(alts) + rest)[1..] == U.PrintAll(alts[0]) + (MoreBare(alts[1..]) + rest)
  {
    if alts == [] {
      assert MoreBare(alts) + rest == rest;
    } else {
      BarBefore(U.PrintAll(alts[0]), MoreBare(alts[1..]), rest);
    }
  }

  lemma BarBefore(a: Tokens, b: Tokens, c: Tokens)
    ensures var all := ["|"] + a + b + c;
            all == ["|"] + (a + (b + c)) && all[0] == "|" && all[1..] == a + (b + c)
  {
  }

  /** One alternative more. */
  lemma BareStep(done: U.Trees, alts: seq<U.Trees>, rest: Tokens, table: Table)
    requires Clean(table) && alts != [] && U.NormalItems(alts[0], table) && U.EndsExpr(rest)
    ensures U.ParseAlternatives(done, MoreBare(alts) + rest, table)
         == U.ParseAlternatives(done + U.Wrap(alts[0]), MoreBare(alts[1..]) + rest, table)
  {
    BareEndsSeq(alts, rest);
    BareEndsSeq(alts[1..], rest);
    U.SeqRoundTrip(alts[0], MoreBare(alts[1..]) + rest, table);
  }

  lemma MeantFirst(alts: seq<U.Trees>)
    requires alts != []
    ensures Meant(alts) == U.Wrap(alts[0]) + Meant(alts[1..])
  {
    if |alts[0]| == 1 {
      assert alts[0] == [alts[0][0]];
    }
  }

  lemma {:induction false} BareRead(done: U.Trees, alts: seq<U.Trees>, rest: Tokens, table: Table)
    requires Clean(table) && AllNormal(alts, table) && U.EndsExpr(rest)
    ensures U.ParseAlternatives(done, MoreBare(alts) + rest, table) == Ok(Parsed(done + Meant(alts), rest, table))
    decreases |alts|
  {
    if alts == [] {
      BareEndsSeq(alts, rest);
      assert MoreBare(alts) + rest == rest && done + Meant(alts) == done;
    } else {
      BareStep(done, alts, rest, table);
      BareRead(done + U.Wrap(alts[0]), alts[1..], rest, table);
      MeantFirst(alts);
      assert done + U.Wrap(alts[0]) + Meant(alts[1..]) == done + Meant(alts);
    }
  }

  /** Alternatives without brackets are read as an Either of what they stand for. */
  lemma AlternativesRead(alts: seq<U.Trees>, rest: Tokens, table: Table)
    requires Clean(table) && AllNormal(alts, table) && U.EndsExpr(rest) && |alts| >= 2
    ensures var cs := Meant(alts);
            U.ParseExpr(PrintBare(alts) + rest, table)
            == Ok(Parsed(if |cs| >= 2 then [Either(cs)] else cs, rest, table))
  {
    var s, more := alts[0], MoreBare(alts[1..]) + rest;
    assert PrintBare(alts) + rest == U.PrintAll(s) + more;
    BareEndsSeq(alts[1..], rest);
    assert U.NormalItems(s, table);
    U.SeqRoundTrip(s, more, table);
    BareRead(U.Wrap(s), alts[1..], rest, table);
    MeantFirst(alts);
  }
}
