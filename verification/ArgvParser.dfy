/** Parsing of the argument vector (docopt.py:428-449) and its round trip.

The user may spell an option in several ways: a long name in full or cut down to a prefix
that is still unique, its argument after `=` or as the next word, short options one by one
or in a cluster, the argument of the last one attached or as the next word.  A `Chunk` is
one such spelling; whatever chunks are written down, the parser reads what they mean.
 */
module ArgvParser {
  import opened Basics
  import opened Elements
  import opened Options

  // ---------- the parser ----------

  function Word(w: string): Element {
    Argument(None, Text(w))
  }

  function Words(toks: Tokens): (r: seq<Element>)
    ensures |r| == |toks|
    ensures forall i :: 0 <= i < |toks| ==> r[i] == Word(toks[i])
  {
    if toks == [] then [] else [Word(toks[0])] + Words(toks[1..])
  }

  function Upcast(os: seq<Known>): (r: seq<Element>)
    ensures |r| == |os|
    ensures forall i :: 0 <= i < |os| ==> r[i] == os[i]
  {
    if os == [] then [] else [os[0]] + Upcast(os[1..])
  }

  datatype Argv = Argv(items: seq<Element>, table: Table)

  /** Lines 428-449. */
  function ParseArgv(toks: Tokens, table: Table, optionsFirst: bool): Result<Argv>
    decreases |toks|
  {
    if toks == [] then Ok(Argv([], table))
    else if toks[0] == "--" then Ok(Argv(Words(toks), table))
    else if StartsWith(toks[0], "--") then
      var o :- ParseLong(toks, table, true);
      var more :- ParseArgv(o.rest, o.table, optionsFirst);
      Ok(Argv([o.item] + more.items, more.table))
    else if StartsWith(toks[0], "-") && toks[0] != "-" then
      var os :- ParseShorts(toks, table, true);
      var more :- ParseArgv(os.rest, os.table, optionsFirst);
      Ok(Argv(Upcast(os.item) + more.items, more.table))
    else if optionsFirst then Ok(Argv(Words(toks), table))
    else
      var more :- ParseArgv(toks[1..], table, optionsFirst);
      Ok(Argv([Word(toks[0])] + more.items, more.table))
  }

  // ---------- spellings ----------

  datatype Chunk =
    | Plain(word: string)                                      // word
    | LongFlag(option: Known, name: string)                    // --name
    | LongEq(option: Known, name: string, arg: string)         // --name=arg
    | LongNext(option: Known, name: string, arg: string)       // --name arg
    | Flags(flags: seq<Known>)                                 // -abc
    | Attached(flags: seq<Known>, option: Known, arg: string)  // -abcARG
    | Next(flags: seq<Known>, option: Known, arg: string)      // -abc ARG

  function Letters(flags: seq<Known>): string {
    if flags == [] then []
    else (if flags[0].short.Some? && |flags[0].short.value| == 2 then [flags[0].short.value[1]] else []) + Letters(flags[1..])
  }

  function Letter(o: Known): string {
    Letters([o])
  }

  /** The words of a chunk. */
  function Spell(c: Chunk): Tokens {
    match c
    case Plain(w) => [w]
    case LongFlag(_, name) => [name]
    case LongEq(_, name, arg) => [name + "=" + arg]
    case LongNext(_, name, arg) => [name, arg]
    case Flags(flags) => ["-" + Letters(flags)]
    case Attached(flags, o, arg) => ["-" + Letters(flags) + Letter(o) + arg]
    case Next(flags, o, arg) => ["-" + Letters(flags) + Letter(o), arg]
  }

  function SpellAll(cs: seq<Chunk>): Tokens {
    if cs == [] then [] else Spell(cs[0]) + SpellAll(cs[1..])
  }

  function SetAll(flags: seq<Known>): (r: seq<Known>)
    ensures |r| == |flags|
    ensures forall i :: 0 <= i < |flags| ==> r[i] == Valued(flags[i], Flag(true))
  {
    if flags == [] then [] else [Valued(flags[0], Flag(true))] + SetAll(flags[1..])
  }

  /** The argv elements a chunk stands for. */
  function Meaning(c: Chunk): seq<Element> {
    match c
    case Plain(w) => [Word(w)]
    case LongFlag(o, _) => [Valued(o, Flag(true))]
    case LongEq(o, _, arg) => [Valued(o, Text(arg))]
    case LongNext(o, _, arg) => [Valued(o, Text(arg))]
    case Flags(flags) => Upcast(SetAll(flags))
    case Attached(flags, o, arg) => Upcast(SetAll(flags) + [Valued(o, Text(arg))])
    case Next(flags, o, arg) => Upcast(SetAll(flags) + [Valued(o, Text(arg))])
  }

  function MeaningAll(cs: seq<Chunk>): seq<Element> {
    if cs == [] then [] else Meaning(cs[0]) + MeaningAll(cs[1..])
  }

  /** `name` is the long name of `o`, or a prefix of it that no other option has and that is
      nobody's full name. */
  ghost predicate Denotes(name: string, o: Known, table: Table) {
    && IsLong(name) && o in table && o.long.Some?
    && (name == o.long.value ||
        (StartsWith(o.long.value, name)
         && forall k :: k in table && k.long.Some? && StartsWith(k.long.value, name) ==> k == o && k.long.value != name))
  }

  ghost predicate FlagsOf(flags: seq<Known>, table: Table) {
    forall i :: 0 <= i < |flags| ==> flags[i] in table && flags[i].short.Some? && flags[i].argcount == 0
  }

  /** A chunk the user may write, `--` excepted, which ends the options. */
  ghost predicate Legal(c: Chunk, table: Table) {
    match c
    case Plain(w) => !StartsWith(w, "-") || w == "-"
    case LongFlag(o, name) => Denotes(name, o, table) && o.argcount == 0
    case LongEq(o, name, _) => Denotes(name, o, table) && o.argcount != 0
    case LongNext(o, name, arg) => Denotes(name, o, table) && o.argcount != 0 && arg != "--"
    case Flags(flags) => flags != [] && FlagsOf(flags, table)
    case Attached(flags, o, arg) =>
      FlagsOf(flags, table) && o in table && o.short.Some? && o.argcount != 0 && arg != []
    case Next(flags, o, arg) =>
      FlagsOf(flags, table) && o in table && o.short.Some? && o.argcount != 0 && arg != "--"
  }

  // ---------- long options ----------

  lemma {:induction false} PrefixNone(table: Table, name: string)
    requires forall k :: k in table && k.long.Some? ==> !StartsWith(k.long.value, name)
    ensures WithPrefix(table, name) == []
  {
    if table != [] {
      assert table == [table[0]] + table[1..];
      PrefixNone(table[1..], name);
    }
  }

  lemma {:induction false} PrefixFinds(table: Table, name: string, o: Known)
    requires Clean(table) && o in table && o.long.Some? && StartsWith(o.long.value, name)
    requires forall k :: k in table && k.long.Some? && StartsWith(k.long.value, name) ==> k == o
    ensures WithPrefix(table, name) == [o]
  {
    if table[0] == o {
      forall k | k in table[1..] && k.long.Some?
        ensures !StartsWith(k.long.value, name)
      {
        var j :| 0 < j < |table| && table[j] == k;
        assert table[0].long != table[j].long;
      }
      PrefixNone(table[1..], name);
    } else {
      assert table == [table[0]] + table[1..];
      PrefixFinds(table[1..], name, o);
    }
  }

  lemma SimilarFinds(table: Table, name: string, o: Known)
    requires Clean(table) && Denotes(name, o, table)
    ensures Similar(table, name, true) == [o]
  {
    if name == o.long.value {
      WithLongFinds(table, o);
    } else {
      forall i | 0 <= i < |table|
        ensures table[i].long != Some(name)
      {
        assert table[i] in table && StartsWith(name, name);
      }
      WithLongNone(table, name);
      PrefixFinds(table, name, o);
    }
  }

  lemma LongShape(t: string, name: string)
    requires IsLong(name) && name <= t
    ensures StartsWith(t, "--") && t != "--"
  {
    assert t[..2] == name[..2] == "--";
  }

  // ---------- clusters ----------

  /** Reading `os` and then whatever follows in the cluster. */
  function After(os: seq<Known>, r: Result<Parsed<seq<Known>>>): Result<Parsed<seq<Known>>> {
    match r
    case Ok(p) => Ok(Parsed(os + p.item, p.rest, p.table))
    case Err(e) => Err(e)
  }

  lemma AfterAfter(os: seq<Known>, ps: seq<Known>, r: Result<Parsed<seq<Known>>>)
    ensures After(os, After(ps, r)) == After(os + ps, r)
  {
    if r.Ok? {
      assert os + (ps + r.value.item) == (os + ps) + r.value.item;
    }
  }

  /** The letters of legal flags, read from the front of a cluster. */
  lemma {:induction false} ClusterFlags(flags: seq<Known>, left: string, rest: Tokens, table: Table)
    requires Clean(table) && FlagsOf(flags, table)
    ensures Cluster(Letters(flags) + left, rest, table, true) == After(SetAll(flags), Cluster(left, rest, table, true))
  {
    var r := Cluster(left, rest, table, true);
    if flags == [] {
      assert Letters(flags) + left == left;
      assert r.Ok? ==> SetAll(flags) + r.value.item == r.value.item;
    } else {
      var o := flags[0];
      LetterOf(o, table);
      assert Letters(flags) + left == Letter(o) + (Letters(flags[1..]) + left);
      FlagStep(o, Letters(flags[1..]) + left, rest, table);
      ClusterFlags(flags[1..], left, rest, table);
      AfterAfter([Valued(o, Flag(true))], SetAll(flags[1..]), r);
    }
  }

  lemma LetterOf(o: Known, table: Table)
    requires Clean(table) && o in table && o.short.Some?
    ensures o.short.value == "-" + Letter(o) && |Letter(o)| == 1 && Letter(o)[0] != '-'
  {
    assert Writable(o);
    assert [o][1..] == [];
    assert Letters([o]) == [o.short.value[1]] + Letters([o][1..]);
  }

  lemma FlagStep(o: Known, left: string, rest: Tokens, table: Table)
    requires Clean(table) && o in table && o.short.Some? && o.argcount == 0
    ensures Cluster(Letter(o) + left, rest, table, true) == After([Valued(o, Flag(true))], Cluster(left, rest, table, true))
  {
    LetterOf(o, table);
    WithShortFinds(table, o);
    var all := Letter(o) + left;
    assert all[1..] == left && ['-', all[0]] == o.short.value;
  }

  lemma ArgStep(o: Known, left: string, rest: Tokens, table: Table)
    requires Clean(table) && o in table && o.short.Some? && o.argcount != 0
    requires left == [] ==> rest != [] && rest[0] != "--"
    ensures Cluster(Letter(o) + left, rest, table, true) ==
            Ok(Parsed([Valued(o, Text(if left == [] then rest[0] else left))], if left == [] then rest[1..] else rest, table))
  {
    LetterOf(o, table);
    WithShortFinds(table, o);
    var all := Letter(o) + left;
    assert all[1..] == left && ['-', all[0]] == o.short.value;
  }

  lemma {:induction false} FirstLetter(flags: seq<Known>, o: Known, table: Table)
    requires Clean(table) && FlagsOf(flags, table)
    requires o in table && o.short.Some?
    ensures var s := Letters(flags) + Letter(o); s != [] && s[0] != '-'
    ensures flags != [] ==> Letters(flags) != [] && Letters(flags)[0] != '-'
  {
    LetterOf(o, table);
    if flags != [] {
      LetterOf(flags[0], table);
      assert Letters(flags) == Letter(flags[0]) + Letters(flags[1..]);
    }
  }

  /** A cluster's word starts with exactly one dash. */
  lemma ClusterShape(s: string)
    requires s != [] && s[0] != '-'
    ensures StripDashes("-" + s) == s
    ensures StartsWith("-" + s, "-") && !StartsWith("-" + s, "--") && "-" + s != "-" && "-" + s != "--"
  {
    var t := "-" + s;
    assert t[1..] == s && t[1] != '-';
  }

  // ---------- round trip ----------

  /** Reading `items` and then whatever follows. */
  function Then(items: seq<Element>, r: Result<Argv>): Result<Argv> {
    match r
    case Ok(a) => Ok(Argv(items + a.items, a.table))
    case Err(e) => Err(e)
  }

  lemma LongEqChunk(c: Chunk, rest: Tokens, table: Table, optionsFirst: bool)
    requires Clean(table) && Legal(c, table) && c.LongEq?
    ensures ParseArgv(Spell(c) + rest, table, optionsFirst) == Then(Meaning(c), ParseArgv(rest, table, optionsFirst))
  {
    var toks := Spell(c) + rest;
    assert Writable(c.option);
    SimilarFinds(table, c.name, c.option);
    assert MakeOption(c.option.short, c.option.long, c.option.argcount, c.option.value) == c.option;
    PartitionAt(c.name, c.arg);
    LongShape(c.name + "=" + c.arg, c.name);
    assert toks[1..] == rest;
    assert ParseLong(toks, table, true) == Ok(Parsed(Valued(c.option, Text(c.arg)), rest, table));
  }

  lemma LongChunk(c: Chunk, rest: Tokens, table: Table, optionsFirst: bool)
    requires Clean(table) && Legal(c, table)
    requires c.LongFlag? || c.LongEq? || c.LongNext?
    ensures ParseArgv(Spell(c) + rest, table, optionsFirst) == Then(Meaning(c), ParseArgv(rest, table, optionsFirst))
  {
    var toks := Spell(c) + rest;
    assert Writable(c.option);
    SimilarFinds(table, c.name, c.option);
    assert MakeOption(c.option.short, c.option.long, c.option.argcount, c.option.value) == c.option;
    match c {
      case LongFlag(o, name) =>
        PartitionWhole(name);
        LongShape(name, name);
        assert toks[1..] == rest;
        assert ParseLong(toks, table, true) == Ok(Parsed(Valued(o, Flag(true)), rest, table));
      case LongEq(_, _, _) => LongEqChunk(c, rest, table, optionsFirst);
      case LongNext(o, name, arg) =>
        PartitionWhole(name);
        LongShape(name, name);
        assert toks[1..] == [arg] + rest && ([arg] + rest)[1..] == rest;
        assert ParseLong(toks, table, true) == Ok(Parsed(Valued(o, Text(arg)), rest, table));
    }
  }

  /** A word holding a cluster that reads as `os`. */
  lemma ClusterWord(s: string, after: Tokens, os: seq<Known>, rest: Tokens, table: Table, optionsFirst: bool)
    requires s != [] && s[0] != '-'
    requires Cluster(s, after, table, true) == Ok(Parsed(os, rest, table))
    ensures ParseArgv(["-" + s] + after, table, optionsFirst) == Then(Upcast(os), ParseArgv(rest, table, optionsFirst))
  {
    ClusterShape(s);
    var toks := ["-" + s] + after;
    assert toks[1..] == after;
    assert ParseShorts(toks, table, true) == Ok(Parsed(os, rest, table));
  }

  lemma FlagsChunk(flags: seq<Known>, rest: Tokens, table: Table, optionsFirst: bool)
    requires Clean(table) && Legal(Flags(flags), table)
    ensures ParseArgv(Spell(Flags(flags)) + rest, table, optionsFirst)
         == Then(Meaning(Flags(flags)), ParseArgv(rest, table, optionsFirst))
  {
    FirstLetter(flags, flags[0], table);
    ClusterFlags(flags, [], rest, table);
    assert Letters(flags) + [] == Letters(flags);
    var none: seq<Known> := [];
    assert Cluster([], rest, table, true) == Ok(Parsed(none, rest, table));
    assert SetAll(flags) + none == SetAll(flags);
    ClusterWord(Letters(flags), rest, SetAll(flags), rest, table, optionsFirst);
  }

  lemma AttachedChunk(flags: seq<Known>, o: Known, arg: string, rest: Tokens, table: Table, optionsFirst: bool)
    requires Clean(table) && Legal(Attached(flags, o, arg), table)
    ensures ParseArgv(Spell(Attached(flags, o, arg)) + rest, table, optionsFirst)
         == Then(Meaning(Attached(flags, o, arg)), ParseArgv(rest, table, optionsFirst))
  {
    var s := Letters(flags) + (Letter(o) + arg);
    FirstLetter(flags, o, table);
    AttachedCluster(flags, o, arg, rest, table);
    SpellAttached(flags, o, arg);
    ClusterWord(s, rest, SetAll(flags) + [Valued(o, Text(arg))], rest, table, optionsFirst);
  }

  lemma AttachedCluster(flags: seq<Known>, o: Known, arg: string, rest: Tokens, table: Table)
    requires Clean(table) && Legal(Attached(flags, o, arg), table)
    ensures Cluster(Letters(flags) + (Letter(o) + arg), rest, table, true)
         == Ok(Parsed(SetAll(flags) + [Valued(o, Text(arg))], rest, table))
  {
    ClusterFlags(flags, Letter(o) + arg, rest, table);
    ArgStep(o, arg, rest, table);
  }

  lemma SpellAttached(flags: seq<Known>, o: Known, arg: string)
    ensures Spell(Attached(flags, o, arg)) == ["-" + (Letters(flags) + (Letter(o) + arg))]
    ensures Letters(flags) + (Letter(o) + arg) == (Letters(flags) + Letter(o)) + arg
  {
    assert "-" + Letters(flags) + Letter(o) + arg == "-" + (Letters(flags) + (Letter(o) + arg));
  }

  lemma NextChunk(flags: seq<Known>, o: Known, arg: string, rest: Tokens, table: Table, optionsFirst: bool)
    requires Clean(table) && Legal(Next(flags, o, arg), table)
    ensures ParseArgv(Spell(Next(flags, o, arg)) + rest, table, optionsFirst)
         == Then(Meaning(Next(flags, o, arg)), ParseArgv(rest, table, optionsFirst))
  {
    var s, after := Letters(flags) + Letter(o), [arg] + rest;
    FirstLetter(flags, o, table);
    ClusterFlags(flags, Letter(o), after, table);
    LastLetter(o, after, table);
    assert after[1..] == rest;
    ClusterWord(s, after, SetAll(flags) + [Valued(o, Text(arg))], rest, table, optionsFirst);
    SpellNext(flags, o, arg, rest);
  }

  lemma LastLetter(o: Known, after: Tokens, table: Table)
    requires Clean(table) && o in table && o.short.Some? && o.argcount != 0
    requires after != [] && after[0] != "--"
    ensures Cluster(Letter(o), after, table, true) == Ok(Parsed([Valued(o, Text(after[0]))], after[1..], table))
  {
    ArgStep(o, [], after, table);
    assert Letter(o) + [] == Letter(o);
  }

  lemma SpellNext(flags: seq<Known>, o: Known, arg: string, rest: Tokens)
    ensures Spell(Next(flags, o, arg)) + rest == ["-" + (Letters(flags) + Letter(o))] + ([arg] + rest)
  {
    assert "-" + Letters(flags) + Letter(o) == "-" + (Letters(flags) + Letter(o));
  }

  lemma DashPrefix(w: string)
    ensures StartsWith(w, "--") ==> StartsWith(w, "-") && w != "-"
  {
  }

  lemma ChunkRoundTrip(c: Chunk, rest: Tokens, table: Table, optionsFirst: bool)
    requires Clean(table) && Legal(c, table)
    requires optionsFirst ==> !c.Plain?
    ensures ParseArgv(Spell(c) + rest, table, optionsFirst) == Then(Meaning(c), ParseArgv(rest, table, optionsFirst))
  {
    match c
    case Plain(w) =>
      var toks := Spell(c) + rest;
      assert toks[1..] == rest;
      DashPrefix(w);
    case LongFlag(_, _) => LongChunk(c, rest, table, optionsFirst);
    case LongEq(_, _, _) => LongChunk(c, rest, table, optionsFirst);
    case LongNext(_, _, _) => LongChunk(c, rest, table, optionsFirst);
    case Flags(flags) => FlagsChunk(flags, rest, table, optionsFirst);
    case Attached(flags, o, arg) => AttachedChunk(flags, o, arg, rest, table, optionsFirst);
    case Next(flags, o, arg) => NextChunk(flags, o, arg, rest, table, optionsFirst);
  }

  /** Words that are taken as they are: nothing, `--` and anything after it, or, with options
      first, a word that is not an option and anything after it. */
  predicate IsTail(tail: Tokens, optionsFirst: bool) {
    || tail == []
    || tail[0] == "--"
    || (optionsFirst && (!StartsWith(tail[0], "-") || tail[0] == "-"))
  }

  lemma FirstChunk(cs: seq<Chunk>, tail: Tokens)
    requires cs != []
    ensures SpellAll(cs) + tail == Spell(cs[0]) + (SpellAll(cs[1..]) + tail)
    ensures MeaningAll(cs) + Words(tail) == Meaning(cs[0]) + (MeaningAll(cs[1..]) + Words(tail))
  {
  }

  /** Whatever the spelling, argv is read as what the user meant, in the same order, and the
      table of options stays as it was. */
  lemma {:induction false} ArgvRoundTrip(cs: seq<Chunk>, tail: Tokens, table: Table, optionsFirst: bool)
    requires Clean(table) && IsTail(tail, optionsFirst)
    requires forall i :: 0 <= i < |cs| ==> Legal(cs[i], table) && (optionsFirst ==> !cs[i].Plain?)
    ensures ParseArgv(SpellAll(cs) + tail, table, optionsFirst) == Ok(Argv(MeaningAll(cs) + Words(tail), table))
  {
    if cs == [] {
      assert SpellAll(cs) + tail == tail && MeaningAll(cs) + Words(tail) == Words(tail);
    } else {
      FirstChunk(cs, tail);
      ChunkRoundTrip(cs[0], SpellAll(cs[1..]) + tail, table, optionsFirst);
      ArgvRoundTrip(cs[1..], tail, table, optionsFirst);
    }
  }
}
