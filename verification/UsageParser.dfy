/** The recursive-descent parser of usage patterns (docopt.py:369-425) and the printing of
pattern trees back to tokens.

Tokens are the strings `Tokens.from_pattern` produces: not empty, brackets on their own.
The functions say what each procedure computes; `Procedures.Source` has the procedures themselves.
 */
module UsageParser {
  import opened Basics
  import opened Elements
  import opened Patterns
  import opened Options

  type Tree = Pattern<Element>
  type Trees = seq<Tree>

  // ---------- kinds of tokens ----------

  predicate IsStop(t: string) {
    t == "]" || t == ")" || t == "|"
  }

  predicate IsUpper(s: string) {
    && (exists i :: 0 <= i < |s| && 'A' <= s[i] <= 'Z')
    && (forall i :: 0 <= i < |s| ==> !('a' <= s[i] <= 'z'))
  }

  predicate IsLongToken(t: string) {
    StartsWith(t, "--") && t != "--"
  }

  predicate IsShortsToken(t: string) {
    StartsWith(t, "-") && t != "-" && t != "--"
  }

  predicate IsArgumentToken(t: string) {
    || (StartsWith(t, "<") && t != [] && t[|t| - 1] == '>')
    || IsUpper(t)
  }

  // ---------- the parser, as functions ----------

  predicate At(toks: Tokens, t: string) {
    toks != [] && toks[0] == t
  }

  /** Lines 377-387. */
  function ParseExpr(toks: Tokens, table: Table): (r: Result<Parsed<Trees>>)
    ensures r.Ok? ==> |r.value.rest| <= |toks|
    decreases |toks|, 3
  {
    var s :- ParseSeq(toks, table);
    if !At(s.rest, "|") then Ok(s) else
      var alts :- ParseAlternatives(Wrap(s.item), s.rest, s.table);
      Ok(Parsed(if |alts.item| > 1 then [Either(alts.item)] else alts.item, alts.rest, alts.table))
  }

  /** `[Required(*seq)] if len(seq) > 1 else seq` */
  function Wrap(s: Trees): Trees {
    if |s| > 1 then [Required(s)] else s
  }

  /** The loop of lines 383-386. */
  function ParseAlternatives(result: Trees, toks: Tokens, table: Table): (r: Result<Parsed<Trees>>)
    ensures r.Ok? ==> |r.value.rest| <= |toks|
    decreases |toks|, 2
  {
    if !At(toks, "|") then Ok(Parsed(result, toks, table)) else
      var s :- ParseSeq(toks[1..], table);
      ParseAlternatives(result + Wrap(s.item), s.rest, s.table)
  }

  /** Lines 390-399. */
  function ParseSeq(toks: Tokens, table: Table): (r: Result<Parsed<Trees>>)
    ensures r.Ok? ==> |r.value.rest| <= |toks|
    decreases |toks|, 1
  {
    if toks == [] || IsStop(toks[0]) then Ok(Parsed([], toks, table)) else
      var a :- ParseAtom(toks, table);
      var atom := if At(a.rest, "...") then [OneOrMore(a.item)] else a.item;
      var rest := if At(a.rest, "...") then a.rest[1..] else a.rest;
      var s :- ParseSeq(rest, a.table);
      Ok(Parsed(atom + s.item, s.rest, s.table))
  }

  function LeafOf(e: Element): Tree {
    Leaf(e)
  }

  function AsLeaves(os: seq<Known>): (r: Trees)
    ensures |r| == |os|
    ensures forall i :: 0 <= i < |os| ==> r[i] == LeafOf(os[i])
  {
    if os == [] then [] else [LeafOf(os[0])] + AsLeaves(os[1..])
  }

  /** Lines 402-425. */
  function ParseAtom(toks: Tokens, table: Table): (r: Result<Parsed<Trees>>)
    requires toks != []
    ensures r.Ok? ==> |r.value.rest| < |toks|
    decreases |toks|, 0
  {
    var t, rest := toks[0], toks[1..];
    if t == "(" || t == "[" then
      var e :- ParseExpr(rest, table);
      if !At(e.rest, if t == "(" then ")" else "]") then Err(Unmatched)
      else Ok(Parsed([if t == "(" then Required(e.item) else Optional(e.item)], e.rest[1..], e.table))
    else if t == "options" then Ok(Parsed([OptionsShortcut([])], rest, table))
    else if IsLongToken(t) then
      var o :- ParseLong(toks, table, false);
      Ok(Parsed([LeafOf(o.item)], o.rest, o.table))
    else if IsShortsToken(t) then
      var os :- ParseShorts(toks, table, false);
      Ok(Parsed(AsLeaves(os.item), os.rest, os.table))
    else if IsArgumentToken(t) then Ok(Parsed([Leaf(Argument(Some(t), Null))], rest, table))
    else Ok(Parsed([Leaf(Command(Some(t), Flag(false)))], rest, table))
  }

  /** Lines 369-374. */
  function ParsePattern(toks: Tokens, table: Table): Result<(Tree, Table)> {
    var e :- ParseExpr(toks, table);
    if e.rest != [] then Err(UnexpectedEnding) else Ok((Required(e.item), e.table))
  }

  // ---------- normal form ----------

  /** A leaf that can be written down with the options of `table`. */
  ghost predicate NormalLeaf(l: Element, table: Table) {
    match l
    case Argument(Some(t), Null) =>
      IsArgumentToken(t) && !IsStop(t) && t != "(" && t != "[" && t != "options" && t != "..."
      && !IsLongToken(t) && !IsShortsToken(t)
    case Command(Some(t), Flag(false)) =>
      !IsArgumentToken(t) && !IsStop(t) && t != "(" && t != "[" && t != "options" && t != "..."
      && !IsLongToken(t) && !IsShortsToken(t)
    case Opt(_, _, _, _) => l in table
    case _ => false
  }

  /** A tree the grammar can produce as one item of a sequence. */
  ghost predicate NormalItem(p: Tree, table: Table)
    decreases p, 1
  {
    match p
    case Leaf(l) => NormalLeaf(l, table)
    case OptionsShortcut(cs) => cs == []
    case Required(cs) => NormalBody(cs, table)
    case Optional(cs) => NormalBody(cs, table)
    case OneOrMore(cs) => |cs| == 1 && !cs[0].OneOrMore? && NormalItem(cs[0], table)
    case Either(_) => false
  }

  /** The inside of brackets: a sequence of items, or alternatives. */
  ghost predicate NormalBody(cs: Trees, table: Table)
    decreases cs, 0
  {
    || (forall i :: 0 <= i < |cs| ==> NormalItem(cs[i], table))
    || (|cs| == 1 && cs[0].Either? && |cs[0].children| >= 2
        && forall i :: 0 <= i < |cs[0].children| ==> NormalItem(cs[0].children[i], table))
  }

  ghost predicate NormalItems(cs: Trees, table: Table) {
    forall i :: 0 <= i < |cs| ==> NormalItem(cs[i], table)
  }

  ghost predicate NormalPattern(p: Tree, table: Table) {
    p.Required? && NormalBody(p.children, table)
  }

  // ---------- printing ----------

  function PrintOption(o: Known): Tokens {
    if o.long.Some? then [o.long.value + if o.argcount == 0 then "" else "=ARG"]
    else if o.short.Some? then [o.short.value] + if o.argcount == 0 then [] else ["ARG"]
    else []
  }

  function PrintLeaf(l: Element): Tokens {
    match l
    case Argument(name, _) => if name.Some? then [name.value] else []
    case Command(name, _) => if name.Some? then [name.value] else []
    case Opt(_, _, _, _) => PrintOption(l)
  }

  function Print(p: Tree): Tokens
    decreases p, 2
  {
    match p
    case Leaf(l) => PrintLeaf(l)
    case OptionsShortcut(_) => ["options"]
    case Required(cs) => ["("] + PrintBody(cs) + [")"]
    case Optional(cs) => ["["] + PrintBody(cs) + ["]"]
    case OneOrMore(cs) => PrintAll(cs) + ["..."]
    case Either(cs) => PrintAlternatives(cs)
  }

  function PrintAll(cs: Trees): Tokens
    decreases cs, 0
  {
    if cs == [] then [] else Print(cs[0]) + PrintAll(cs[1..])
  }

  function PrintAlternatives(cs: Trees): Tokens
    decreases cs, 0
  {
    if cs == [] then []
    else if |cs| == 1 then Print(cs[0])
    else Print(cs[0]) + ["|"] + PrintAlternatives(cs[1..])
  }

  function PrintBody(cs: Trees): Tokens
    decreases cs, 1
  {
    PrintAll(cs)
  }

  // ---------- round trip ----------

  /** What follows does not continue a sequence. */
  predicate EndsSeq(rest: Tokens) {
    rest == [] || IsStop(rest[0])
  }

  predicate EndsExpr(rest: Tokens) {
    rest == [] || rest[0] == "]" || rest[0] == ")"
  }

  lemma Dashes(short: string)
    requires IsShort(short)
    ensures StripDashes(short) == [short[1]]
  {
    assert short[1..] == [short[1]];
    assert StripDashes(short) == StripDashes(short[1..]);
  }

  lemma ShortToken(short: string)
    requires IsShort(short)
    ensures IsShortsToken(short) && !IsLongToken(short)
    ensures short != "(" && short != "[" && short != "options" && !IsStop(short) && short != "..."
  {
    assert short[0] == '-' && short[1] != '-';
    assert "-" <= short;
    assert short[..2] == short;
  }

  lemma LongToken(long: string, argcount: nat)
    requires IsLong(long)
    ensures var t := long + if argcount == 0 then "" else "=ARG";
            IsLongToken(t) && t != "(" && t != "[" && t != "options" && !IsStop(t) && t != "..."
  {
    var t := long + if argcount == 0 then "" else "=ARG";
    assert t[0] == '-' && t[1] == '-';
    assert t[..2] == "--";
  }

  lemma LongRoundTrip(o: Known, rest: Tokens, table: Table)
    requires Clean(table) && o in table && o.long.Some?
    ensures ParseLong(PrintOption(o) + rest, table, false) == Ok(Parsed(o, rest, table))
  {
    var long, toks := o.long.value, PrintOption(o) + rest;
    assert Writable(o);
    WithLongFinds(table, o);
    if o.argcount == 0 {
      PartitionWhole(long);
      assert long + "" == long;
    } else {
      PartitionAt(long, "ARG");
      assert long + "=ARG" == long + "=" + "ARG";
    }
    assert toks[1..] == rest;
  }

  lemma ShortRoundTrip(o: Known, rest: Tokens, table: Table)
    requires Clean(table) && o in table && o.long.None?
    ensures ParseShorts(PrintOption(o) + rest, table, false) == Ok(Parsed([o], rest, table))
  {
    assert Writable(o);
    var short, toks := o.short.value, PrintOption(o) + rest;
    WithShortFinds(table, o);
    Dashes(short);
    assert ['-', short[1]] == short;
    assert [short[1]][1..] == [];
    if o.argcount != 0 {
      assert toks[1..] == ["ARG"] + rest && (["ARG"] + rest)[1..] == rest;
    } else {
      assert toks[1..] == rest;
      var none: seq<Known> := [];
      assert Cluster([], rest, table, false) == Ok(Parsed(none, rest, table));
      assert [o] + none == [o];
    }
  }

  lemma OptionRoundTrip(o: Known, rest: Tokens, table: Table)
    requires Clean(table) && o in table
    ensures PrintOption(o) != [] && !IsStop(PrintOption(o)[0]) && PrintOption(o)[0] != "..."
    ensures ParseAtom(PrintOption(o) + rest, table) == Ok(Parsed([LeafOf(o)], rest, table))
  {
    assert Writable(o);
    if o.long.Some? {
      LongToken(o.long.value, o.argcount);
      LongRoundTrip(o, rest, table);
    } else {
      ShortToken(o.short.value);
      ShortRoundTrip(o, rest, table);
      assert AsLeaves([o]) == [LeafOf(o)] by { assert [o][1..] == []; }
    }
  }

  // ---------- the round trip, by structure ----------

  /** The first token of an item can neither end a sequence nor repeat what precedes it. */
  lemma {:induction false} FirstToken(p: Tree, table: Table)
    requires Clean(table) && NormalItem(p, table)
    ensures Print(p) != [] && !IsStop(Print(p)[0]) && Print(p)[0] != "..."
    decreases p
  {
    match p
    case Leaf(l) =>
      if l.Opt? {
        OptionRoundTrip(l, [], table);
      }
    case OneOrMore(cs) =>
      FirstToken(cs[0], table);
      assert PrintAll(cs) == Print(cs[0]) + PrintAll(cs[1..]);
    case _ =>
  }

  /** Parsing a printed item that is not repeated gives back the item. */
  lemma {:induction false} AtomRoundTrip(p: Tree, rest: Tokens, table: Table)
    requires Clean(table) && NormalItem(p, table) && !p.OneOrMore?
    ensures ParseAtom(Print(p) + rest, table) == Ok(Parsed([p], rest, table))
    decreases p, 1
  {
    var toks := Print(p) + rest;
    match p
    case Leaf(l) =>
      if l.Opt? {
        OptionRoundTrip(l, rest, table);
      } else {
        assert toks[1..] == rest;
      }
    case OptionsShortcut(_) =>
      assert toks[1..] == rest;
    case Required(cs) => BracketRoundTrip(p, "(", ")", rest, table);
    case Optional(cs) => BracketRoundTrip(p, "[", "]", rest, table);
  }

  lemma {:induction false} BracketRoundTrip(p: Tree, open: string, close: string, rest: Tokens, table: Table)
    requires Clean(table) && NormalItem(p, table)
    requires if p.Required? then open == "(" && close == ")" else p.Optional? && open == "[" && close == "]"
    ensures ParseAtom(Print(p) + rest, table) == Ok(Parsed([p], rest, table))
    decreases p, 0
  {
    var cs := p.children;
    var toks := Print(p) + rest;
    assert toks == [open] + (PrintBody(cs) + ([close] + rest));
    assert toks[1..] == PrintBody(cs) + ([close] + rest);
    BodyRoundTrip(cs, [close] + rest, table);
    assert ([close] + rest)[1..] == rest;
  }

  lemma PrintOne(p: Tree)
    ensures PrintAll([p]) == Print(p)
  {
    assert [p][1..] == [];
    assert PrintAll([p]) == Print(p) + PrintAll([p][1..]);
  }

  /** An item in front of a sequence. */
  lemma {:induction false} ItemRoundTrip(p: Tree, rest: Tokens, table: Table)
    requires Clean(table) && NormalItem(p, table)
    requires !At(rest, "...")
    ensures ParseSeq(Print(p) + rest, table) ==
            match ParseSeq(rest, table)
            case Ok(s) => Ok(Parsed([p] + s.item, s.rest, s.table))
            case Err(e) => Err(e)
    decreases p, 2
  {
    var toks := Print(p) + rest;
    FirstToken(p, table);
    if p.OneOrMore? {
      var c := p.children[0];
      FirstToken(c, table);
      assert p.children == [c];
      PrintOne(c);
      var tail := ["..."] + rest;
      assert toks == Print(c) + tail;
      AtomRoundTrip(c, tail, table);
      assert tail[1..] == rest;
    } else {
      AtomRoundTrip(p, rest, table);
    }
  }

  lemma {:induction false} SeqRoundTrip(cs: Trees, rest: Tokens, table: Table)
    requires Clean(table) && NormalItems(cs, table) && EndsSeq(rest)
    ensures ParseSeq(PrintAll(cs) + rest, table) == Ok(Parsed(cs, rest, table))
    ensures !At(PrintAll(cs) + rest, "...")
    decreases cs, 3
  {
    if cs == [] {
      assert PrintAll(cs) + rest == rest;
    } else {
      SeqRoundTrip(cs[1..], rest, table);
      var tail := PrintAll(cs[1..]) + rest;
      assert PrintAll(cs) + rest == Print(cs[0]) + tail;
      FirstToken(cs[0], table);
      ItemRoundTrip(cs[0], tail, table);
      assert [cs[0]] + cs[1..] == cs;
    }
  }

  lemma OneItem(p: Tree, rest: Tokens, table: Table)
    requires Clean(table) && NormalItem(p, table) && EndsSeq(rest)
    ensures ParseSeq(Print(p) + rest, table) == Ok(Parsed([p], rest, table))
    decreases p, 4
  {
    var none: Trees := [];
    ItemRoundTrip(p, rest, table);
    assert [p] + none == [p];
  }

  /** What remains to be printed after the first of several alternatives. */
  function MoreAlternatives(cs: Trees, rest: Tokens): Tokens {
    if cs == [] then rest else ["|"] + PrintAlternatives(cs) + rest
  }

  lemma FirstAlternative(cs: Trees, rest: Tokens)
    requires cs != []
    ensures PrintAlternatives(cs) + rest == Print(cs[0]) + MoreAlternatives(cs[1..], rest)
  {
  }

  lemma NextAlternative(cs: Trees, rest: Tokens)
    requires cs != []
    ensures MoreAlternatives(cs, rest) == ["|"] + (Print(cs[0]) + MoreAlternatives(cs[1..], rest))
  {
    FirstAlternative(cs, rest);
    BarFirst(PrintAlternatives(cs), rest);
  }

  lemma BarFirst(s: Tokens, t: Tokens)
    ensures ["|"] + s + t == ["|"] + (s + t)
  {
  }

  lemma AlternativeStep(done: Trees, p: Tree, tail: Tokens, table: Table)
    requires Clean(table) && NormalItem(p, table) && EndsSeq(tail)
    ensures ParseAlternatives(done, ["|"] + (Print(p) + tail), table) == ParseAlternatives(done + [p], tail, table)
    decreases p, 5
  {
    var toks := ["|"] + (Print(p) + tail);
    assert toks[1..] == Print(p) + tail;
    OneItem(p, tail, table);
    assert Wrap([p]) == [p];
  }

  lemma {:induction false} AlternativesRoundTrip(done: Trees, cs: Trees, rest: Tokens, table: Table)
    requires Clean(table) && NormalItems(cs, table) && EndsExpr(rest)
    ensures ParseAlternatives(done, MoreAlternatives(cs, rest), table) == Ok(Parsed(done + cs, rest, table))
    decreases cs, 5
  {
    if cs == [] {
      assert done + cs == done;
    } else {
      var tail := MoreAlternatives(cs[1..], rest);
      NextAlternative(cs, rest);
      AlternativeStep(done, cs[0], tail, table);
      AlternativesRoundTrip(done + [cs[0]], cs[1..], rest, table);
      assert done + [cs[0]] + cs[1..] == done + cs;
    }
  }

  lemma {:induction false} BodyRoundTrip(cs: Trees, rest: Tokens, table: Table)
    requires Clean(table) && NormalBody(cs, table) && EndsExpr(rest)
    ensures ParseExpr(PrintBody(cs) + rest, table) == Ok(Parsed(cs, rest, table))
    decreases cs, 6
  {
    if NormalItems(cs, table) {
      SeqRoundTrip(cs, rest, table);
    } else {
      assert cs == [Either(cs[0].children)];
      PrintOne(cs[0]);
      ChoiceRoundTrip(cs[0].children, rest, table);
    }
  }

  /** Several alternatives without brackets. */
  lemma ChoiceRoundTrip(alts: Trees, rest: Tokens, table: Table)
    requires Clean(table) && NormalItems(alts, table) && EndsExpr(rest) && |alts| >= 2
    ensures ParseExpr(PrintAlternatives(alts) + rest, table) == Ok(Parsed([Either(alts)], rest, table))
    decreases alts, 6
  {
    var first, more := alts[0], MoreAlternatives(alts[1..], rest);
    FirstAlternative(alts, rest);
    OneItem(first, more, table);
    AlternativesRoundTrip([first], alts[1..], rest, table);
    assert [first] + alts[1..] == alts && Wrap([first]) == [first];
  }

  /** Printing a pattern in normal form and parsing the tokens gives back the pattern, for
      any nesting of brackets, alternatives and repetitions. */
  lemma PatternRoundTrip(p: Tree, table: Table)
    requires Clean(table) && NormalPattern(p, table)
    ensures ParsePattern(PrintBody(p.children), table) == Ok((p, table))
  {
    BodyRoundTrip(p.children, [], table);
    assert PrintBody(p.children) + [] == PrintBody(p.children);
  }

  // ---------- what the parser returns is in normal form ----------

  /** A parsed tree that repeats one thing at a time, and has no command `...` and no option
      called `--`, neither of which can be written down again. */
  ghost predicate Tidy(p: Tree)
    decreases p
  {
    match p
    case Leaf(l) => (l.Command? ==> l.name != Some("...")) && (l.Opt? ==> TidyOption(l))
    case OneOrMore(cs) => |cs| == 1 && Tidy(cs[0])
    case Required(cs) => TidyAll(cs)
    case Optional(cs) => TidyAll(cs)
    case OptionsShortcut(cs) => TidyAll(cs)
    case Either(cs) => TidyAll(cs)
  }

  predicate TidyOption(o: Known) {
    (o.long.Some? ==> o.long.value != "--") && (o.short.Some? ==> IsShort(o.short.value))
  }

  ghost predicate TidyAll(cs: Trees) {
    forall i :: 0 <= i < |cs| ==> Tidy(cs[i])
  }

  /** Tables only grow, and stay clean as long as what is added is tidy. */
  ghost predicate Grows(table: Table, table': Table) {
    table <= table'
  }

  lemma {:induction false} NormalGrows(p: Tree, table: Table, table': Table)
    requires NormalItem(p, table) && Grows(table, table')
    ensures NormalItem(p, table')
    decreases p, 1
  {
    match p
    case Leaf(l) =>
      if l.Opt? {
        var i :| 0 <= i < |table| && table[i] == l;
        assert table'[i] == l;
      }
    case OptionsShortcut(_) =>
    case Required(cs) => BodyGrows(cs, table, table');
    case Optional(cs) => BodyGrows(cs, table, table');
    case OneOrMore(cs) => NormalGrows(cs[0], table, table');
  }

  lemma {:induction false} BodyGrows(cs: Trees, table: Table, table': Table)
    requires NormalBody(cs, table) && Grows(table, table')
    ensures NormalBody(cs, table')
    ensures NormalItems(cs, table) ==> NormalItems(cs, table')
    decreases cs, 0
  {
    if NormalItems(cs, table) {
      forall i | 0 <= i < |cs|
        ensures NormalItem(cs[i], table')
      {
        NormalGrows(cs[i], table, table');
      }
    } else {
      forall i | 0 <= i < |cs[0].children|
        ensures NormalItem(cs[0].children[i], table')
      {
        NormalGrows(cs[0].children[i], table, table');
      }
    }
  }

  lemma ItemsGrow(cs: Trees, table: Table, table': Table)
    requires NormalItems(cs, table) && Grows(table, table')
    ensures NormalItems(cs, table')
  {
    BodyGrows(cs, table, table');
  }

  /** The options read are in the resulting table, which is still clean. */
  ghost predicate OptionsIn(os: seq<Known>, table: Table, table': Table) {
    && Grows(table, table') && Clean(table')
    && forall i :: 0 <= i < |os| ==> os[i] in table'
  }

  lemma CleanSnoc(table: Table, o: Known)
    requires Clean(table) && Writable(o)
    requires forall i :: 0 <= i < |table| ==>
               && (o.long.Some? ==> table[i].long != o.long)
               && (o.short.Some? ==> table[i].short != o.short)
    ensures Clean(table + [o])
  {
  }

  lemma CopyIsSame(o: Known)
    requires Writable(o)
    ensures MakeOption(o.short, o.long, o.argcount, o.value) == o
  {
  }

  lemma LongOptionIn(toks: Tokens, table: Table)
    requires toks != [] && IsLongToken(toks[0]) && Clean(table)
    requires ParseLong(toks, table, false).Ok? && TidyOption(ParseLong(toks, table, false).value.item)
    ensures var p := ParseLong(toks, table, false).value; OptionsIn([p.item], table, p.table)
  {
    var t := toks[0];
    var (long, value) := Partition(t);
    PartitionHead(t);
    WithLongMembers(table, long);
    var similar := WithLong(table, long);
    var p := ParseLong(toks, table, false).value;
    if similar == [] {
      LongHead(t);
      assert p.table == table + [p.item];
      forall i | 0 <= i < |table|
        ensures table[i].long != Some(long)
      {
        assert table[i] in table;
      }
      CleanSnoc(table, p.item);
    } else {
      assert similar[0] in similar;
      CopyIsSame(similar[0]);
    }
  }

  /** The part of a long token before `=` is a long name. */
  lemma LongHead(t: string)
    requires IsLongToken(t)
    ensures Partition(t).0 != "--" ==> IsLong(Partition(t).0)
  {
    PartitionHead(t);
    var (head, value) := Partition(t);
    assert t[0] == '-' && t[1] == '-';
    assert value.Some? ==> t[|head|] == '=';
    assert head == t[..|head|] && |head| >= 2;
    assert head[..2] == "--";
  }

  /** An option whose letter no option has yet. */
  lemma NewShort(table: Table, o: Known, short: string)
    requires Clean(table) && Writable(o) && o.short == Some(short) && o.long.None? && WithShort(table, short) == []
    ensures Clean(table + [o])
  {
    WithShortMembers(table, short);
    forall i | 0 <= i < |table|
      ensures table[i].short != Some(short)
    {
      assert table[i] in table;
    }
    CleanSnoc(table, o);
  }

  lemma OptionsAfter(o: Known, os: seq<Known>, table: Table, table': Table)
    requires OptionsIn(os, table + [o], table')
    ensures OptionsIn([o] + os, table, table')
  {
    assert table'[|table|] == o;
  }

  lemma {:induction false} ClusterOptionsIn(left: string, rest: Tokens, table: Table)
    requires Clean(table) && Cluster(left, rest, table, false).Ok?
    requires forall o :: o in Cluster(left, rest, table, false).value.item ==> TidyOption(o)
    ensures var p := Cluster(left, rest, table, false).value; OptionsIn(p.item, table, p.table)
    decreases |left|
  {
    if left != [] {
      var short := ['-', left[0]];
      var p := Cluster(left, rest, table, false).value;
      WithShortMembers(table, short);
      var similar := WithShort(table, short);
      assert p.item[0] in p.item;
      if similar == [] {
        var o := p.item[0];
        NewShort(table, o, short);
        var more := Cluster(left[1..], rest, table + [o], false).value;
        assert p.item == [o] + more.item;
        ClusterOptionsIn(left[1..], rest, table + [o]);
        OptionsAfter(o, more.item, table, more.table);
      } else {
        assert similar[0] in similar;
        CopyIsSame(similar[0]);
        if similar[0].argcount == 0 {
          var more := Cluster(left[1..], rest, table, false).value;
          assert p.item == [similar[0]] + more.item;
          ClusterOptionsIn(left[1..], rest, table);
        }
      }
    }
  }

  /** Reading `cs` with `table` gave `table'`: all is normal and nothing is repeated twice. */
  ghost predicate ReadNormally(table: Table, table': Table) {
    Grows(table, table') && Clean(table')
  }

  lemma {:induction false} AtomIsNormal(toks: Tokens, table: Table)
    requires toks != [] && !IsStop(toks[0]) && Clean(table)
    requires ParseAtom(toks, table).Ok? && TidyAll(ParseAtom(toks, table).value.item)
    ensures var a := ParseAtom(toks, table).value;
            && ReadNormally(table, a.table)
            && NormalItems(a.item, a.table)
            && forall i :: 0 <= i < |a.item| ==> !a.item[i].OneOrMore?
    decreases |toks|, 0
  {
    var t, a := toks[0], ParseAtom(toks, table).value;
    if t == "(" || t == "[" {
      var e := ParseExpr(toks[1..], table).value;
      assert Tidy(a.item[0]);
      ExprIsNormal(toks[1..], table);
    } else if t == "options" {
    } else if IsLongToken(t) {
      var o := ParseLong(toks, table, false).value.item;
      assert Tidy(a.item[0]);
      LongOptionIn(toks, table);
      assert [o][0] in a.table;
    } else if IsShortsToken(t) {
      var os := ParseShorts(toks, table, false).value.item;
      forall o | o in os
        ensures TidyOption(o)
      {
        var i :| 0 <= i < |os| && os[i] == o;
        assert Tidy(a.item[i]);
      }
      ClusterOptionsIn(StripDashes(t), toks[1..], table);
    } else {
      assert Tidy(a.item[0]);
      Ellipsis();
    }
  }

  lemma Ellipsis()
    ensures !IsArgumentToken("...")
  {
    assert "..."[0] == '.' && "<"[0] == '<';
  }

  lemma TidyParts(cs: Trees, ds: Trees)
    requires TidyAll(cs + ds)
    ensures TidyAll(cs) && TidyAll(ds)
  {
    forall i | 0 <= i < |cs|
      ensures Tidy(cs[i])
    {
      assert (cs + ds)[i] == cs[i];
    }
    forall i | 0 <= i < |ds|
      ensures Tidy(ds[i])
    {
      assert (cs + ds)[|cs| + i] == ds[i];
    }
  }

  lemma {:induction false} SeqIsNormal(toks: Tokens, table: Table)
    requires Clean(table)
    requires ParseSeq(toks, table).Ok? && TidyAll(ParseSeq(toks, table).value.item)
    ensures var s := ParseSeq(toks, table).value;
            ReadNormally(table, s.table) && NormalItems(s.item, s.table)
    decreases |toks|, 1
  {
    if toks != [] && !IsStop(toks[0]) {
      var a := ParseAtom(toks, table).value;
      var atom := if At(a.rest, "...") then [OneOrMore(a.item)] else a.item;
      var rest := if At(a.rest, "...") then a.rest[1..] else a.rest;
      var s := ParseSeq(rest, a.table).value;
      TidyParts(atom, s.item);
      if At(a.rest, "...") {
        assert Tidy(atom[0]);
        assert TidyAll(a.item);
      }
      AtomIsNormal(toks, table);
      assert NormalItems(atom, a.table);
      SeqIsNormal(rest, a.table);
      ItemsGrow(atom, a.table, s.table);
    }
  }

  lemma WrapIsNormal(s: Trees, table: Table)
    requires NormalItems(s, table)
    ensures NormalItems(Wrap(s), table)
  {
  }

  lemma WrapTidy(s: Trees)
    requires TidyAll(Wrap(s))
    ensures TidyAll(s)
  {
    if |s| > 1 {
      assert Tidy(Wrap(s)[0]);
    }
  }

  lemma {:induction false} AlternativesKeep(result: Trees, toks: Tokens, table: Table)
    requires ParseAlternatives(result, toks, table).Ok?
    ensures result <= ParseAlternatives(result, toks, table).value.item
    decreases |toks|
  {
    if At(toks, "|") {
      var s := ParseSeq(toks[1..], table).value;
      AlternativesKeep(result + Wrap(s.item), s.rest, s.table);
    }
  }

  lemma {:induction false} AlternativesAreNormal(result: Trees, toks: Tokens, table: Table)
    requires Clean(table) && NormalItems(result, table)
    requires ParseAlternatives(result, toks, table).Ok?
    requires TidyAll(ParseAlternatives(result, toks, table).value.item)
    ensures var a := ParseAlternatives(result, toks, table).value;
            ReadNormally(table, a.table) && NormalItems(a.item, a.table)
    decreases |toks|, 2
  {
    if At(toks, "|") {
      var s := ParseSeq(toks[1..], table).value;
      var more := Wrap(s.item);
      var a := ParseAlternatives(result + more, s.rest, s.table).value;
      AlternativesKeep(result + more, s.rest, s.table);
      assert a.item == result + more + a.item[|result + more|..];
      TidyParts(result + more, a.item[|result + more|..]);
      TidyParts(result, more);
      WrapTidy(s.item);
      SeqIsNormal(toks[1..], table);
      WrapIsNormal(s.item, s.table);
      ItemsGrow(result, table, s.table);
      AlternativesAreNormal(result + more, s.rest, s.table);
    }
  }

  lemma {:induction false} ExprIsNormal(toks: Tokens, table: Table)
    requires Clean(table)
    requires ParseExpr(toks, table).Ok? && TidyAll(ParseExpr(toks, table).value.item)
    ensures var e := ParseExpr(toks, table).value;
            ReadNormally(table, e.table) && NormalBody(e.item, e.table)
    decreases |toks|, 3
  {
    var s := ParseSeq(toks, table).value;
    var e := ParseExpr(toks, table).value;
    if !At(s.rest, "|") {
      SeqIsNormal(toks, table);
    } else {
      var first := Wrap(s.item);
      var alts := ParseAlternatives(first, s.rest, s.table).value;
      if |alts.item| > 1 {
        assert Tidy(e.item[0]);
      }
      assert TidyAll(alts.item);
      AlternativesKeep(first, s.rest, s.table);
      assert alts.item == first + alts.item[|first|..];
      TidyParts(first, alts.item[|first|..]);
      WrapTidy(s.item);
      SeqIsNormal(toks, table);
      WrapIsNormal(s.item, s.table);
      AlternativesAreNormal(first, s.rest, s.table);
    }
  }

  /** Whatever token sequence was parsed, printing the tidy tree and parsing it again with
      the resulting table changes nothing: printing chooses a canonical text for the tree. */
  lemma ParsePrintParse(toks: Tokens, table: Table)
    requires Clean(table)
    requires ParsePattern(toks, table).Ok? && Tidy(ParsePattern(toks, table).value.0)
    ensures var (p, table') := ParsePattern(toks, table).value;
            && NormalPattern(p, table')
            && ParsePattern(PrintBody(p.children), table') == Ok((p, table'))
  {
    var e := ParseExpr(toks, table).value;
    ExprIsNormal(toks, table);
    PatternRoundTrip(Required(e.item), e.table);
  }
}
