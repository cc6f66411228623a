/** From the tokens of a usage pattern and of argv to the dictionary docopt returns
(docopt.py:562-581): what the parsers build satisfies everything the laws of the matcher
ask for, so those laws hold of whole programs.
 */
module EndToEnd {
  import opened Basics
  import opened Elements
  import opened Patterns
  import opened Options
  import opened Matcher
  import opened Language
  import opened Repeats
  import opened Capture
  import opened HeapMatcher
  import opened Straying
  import opened Steady
  import opened Lines
  import opened Reporting
  import G = Greedy
  import U = UsageParser
  import A = ArgvParser
  import V = ValueLaws

  // ---------- [options] ----------

  /** Lines 571-573: every `[options]` gets `cs` as its children. */
  function Fill(p: Tree, cs: seq<Tree>): Tree
    decreases p, 1
  {
    match p
    case Leaf(_) => p
    case OptionsShortcut(_) => OptionsShortcut(cs)
    case Required(ps) => Required(FillAll(ps, cs))
    case Optional(ps) => Optional(FillAll(ps, cs))
    case Either(ps) => Either(FillAll(ps, cs))
    case OneOrMore(ps) => OneOrMore(FillAll(ps, cs))
  }

  function FillAll(ps: seq<Tree>, cs: seq<Tree>): (r: seq<Tree>)
    ensures |r| == |ps|
    ensures forall i :: 0 <= i < |ps| ==> r[i] == Fill(ps[i], cs)
    decreases ps, 0
  {
    if ps == [] then [] else [Fill(ps[0], cs)] + FillAll(ps[1..], cs)
  }

  /** `list(set(doc_options) - pattern_options)`, in whatever order. */
  ghost predicate Unmentioned(cs: seq<Tree>, doc: Table, p: Tree) {
    && (forall i :: 0 <= i < |cs| ==> cs[i].Leaf? && cs[i].leaf in doc && cs[i].leaf !in Leaves(p))
    && (forall o :: o in doc && o !in Leaves(p) ==> U.LeafOf(o) in cs)
    && (forall i, j :: 0 <= i < j < |cs| ==> cs[i] != cs[j])
  }

  /** `q` is `p` but for the children of its `[options]`. */
  ghost predicate SameOutside(p: Tree, q: Tree)
    decreases p
  {
    match p
    case Leaf(_) => q == p
    case OptionsShortcut(_) => q.OptionsShortcut?
    case _ =>
      && !q.Leaf? && !q.OptionsShortcut?
      && (p.Required? <==> q.Required?) && (p.Optional? <==> q.Optional?) && (p.Either? <==> q.Either?)
      && |p.children| == |q.children| && forall i :: 0 <= i < |p.children| ==> SameOutside(p.children[i], q.children[i])
  }

  /** Every `[options]` in `q` has as its children the options documented that `p` does not
      mention, once each. */
  ghost predicate ShortcutsHave(q: Tree, doc: Table, p: Tree)
    decreases q
  {
    if q.OptionsShortcut? then
      && (forall o: Element :: Leaf(o) in q.children <==> o in doc && o !in Leaves(p))
      && (forall i :: 0 <= i < |q.children| ==> q.children[i].Leaf?)
      && NoDuplicates(q.children)
    else !q.Leaf? ==> forall i :: 0 <= i < |q.children| ==> ShortcutsHave(q.children[i], doc, p)
  }

  lemma {:induction false} FillFills(q: Tree, cs: seq<Tree>, doc: Table, p: Tree)
    requires Unmentioned(cs, doc, p)
    ensures SameOutside(q, Fill(q, cs)) && ShortcutsHave(Fill(q, cs), doc, p)
    decreases q
  {
    if q.OptionsShortcut? {
      forall o: Element
        ensures Leaf(o) in cs <==> o in doc && o !in Leaves(p)
      {
        if Leaf(o) in cs {
          var i :| 0 <= i < |cs| && cs[i] == Leaf(o);
        }
        if o in doc && o !in Leaves(p) {
          assert U.LeafOf(o) in cs;
        }
      }
    } else if !q.Leaf? {
      forall i | 0 <= i < |q.children|
        ensures SameOutside(q.children[i], Fill(q.children[i], cs)) && ShortcutsHave(Fill(q.children[i], cs), doc, p)
      {
        FillFills(q.children[i], cs, doc, p);
      }
    }
  }

  // ---------- parsed trees are well formed ----------

  lemma NormalNames(k: Element, l: Element, table: Table)
    requires Clean(table) && U.NormalLeaf(k, table) && U.NormalLeaf(l, table)
    requires Name(k) == Name(l)
    ensures k == l
  {
    if k.Opt? {
      OptionName(k, table);
      if l.Opt? {
        OptionName(l, table);
        var i :| 0 <= i < |table| && table[i] == k;
        var j :| 0 <= j < |table| && table[j] == l;
      }
    } else if l.Opt? {
      OptionName(l, table);
    }
  }

  /** The name of an option is a token that reads as an option, long or short. */
  lemma OptionName(o: Known, table: Table)
    requires Clean(table) && o in table
    ensures Name(o).Some?
    ensures o.long.Some? ==> U.IsLongToken(Name(o).value) && Name(o).value[1] == '-'
    ensures o.long.None? ==> U.IsShortsToken(Name(o).value) && Name(o).value[1] != '-'
  {
    assert Writable(o);
    if o.long.Some? {
      U.LongToken(o.long.value, 0);
      assert o.long.value + "" == o.long.value;
    } else {
      U.ShortToken(o.short.value);
    }
  }

  lemma NormalIsFresh(l: Element, table: Table)
    requires Clean(table) && U.NormalLeaf(l, table)
    ensures Fresh(l)
  {
    if l.Opt? {
      assert Writable(l);
    }
  }

  /** Everything about a tree that does not concern two leaves at once. */
  ghost predicate Sound(p: Tree, table: Table) {
    && Matchable(p) && NoEmptyEither(p)
    && forall l :: l in Leaves(p) ==> U.NormalLeaf(l, table)
  }

  ghost predicate SoundAll(ps: seq<Tree>, table: Table) {
    forall i :: 0 <= i < |ps| ==> Sound(ps[i], table)
  }

  lemma {:induction false} SoundLeaves(ps: seq<Tree>, table: Table)
    requires SoundAll(ps, table)
    ensures forall l :: l in LeavesOf(ps) ==> U.NormalLeaf(l, table)
  {
    if ps != [] {
      assert Sound(ps[0], table);
      SoundLeaves(ps[1..], table);
    }
  }

  lemma SoundBranch(p: Tree, table: Table)
    requires !p.Leaf? && SoundAll(p.children, table)
    requires p.OneOrMore? ==> |p.children| == 1
    requires p.Either? ==> p.children != []
    ensures Sound(p, table)
  {
    SoundLeaves(p.children, table);
    assert Leaves(p) == LeavesOf(p.children);
    assert forall i :: 0 <= i < |p.children| ==> Sound(p.children[i], table);
  }

  ghost predicate ChildrenIn(cs: seq<Tree>, table: Table) {
    forall i :: 0 <= i < |cs| ==> cs[i].Leaf? && U.NormalLeaf(cs[i].leaf, table)
  }

  lemma {:induction false} FilledItem(p: Tree, cs: seq<Tree>, table: Table)
    requires U.NormalItem(p, table) && U.Tidy(p) && ChildrenIn(cs, table)
    ensures Sound(Fill(p, cs), table)
    decreases p, 1
  {
    match p
    case Leaf(_) =>
    case OptionsShortcut(_) =>
      forall i | 0 <= i < |cs|
        ensures Sound(cs[i], table)
      {
        assert Leaves(cs[i]) == [cs[i].leaf];
      }
      SoundBranch(Fill(p, cs), table);
    case Required(ps) => FilledBody(ps, cs, table); SoundBranch(Fill(p, cs), table);
    case Optional(ps) => FilledBody(ps, cs, table); SoundBranch(Fill(p, cs), table);
    case OneOrMore(ps) =>
      FilledItem(ps[0], cs, table);
      SoundBranch(Fill(p, cs), table);
  }

  lemma {:induction false} FilledBody(ps: seq<Tree>, cs: seq<Tree>, table: Table)
    requires U.NormalBody(ps, table) && U.TidyAll(ps) && ChildrenIn(cs, table)
    ensures SoundAll(FillAll(ps, cs), table)
    decreases ps, 1
  {
    if U.NormalItems(ps, table) {
      FilledItems(ps, cs, table);
    } else {
      assert U.Tidy(ps[0]);
      FilledItems(ps[0].children, cs, table);
      SoundBranch(Fill(ps[0], cs), table);
    }
  }

  lemma {:induction false} FilledItems(ps: seq<Tree>, cs: seq<Tree>, table: Table)
    requires U.NormalItems(ps, table) && U.TidyAll(ps) && ChildrenIn(cs, table)
    ensures SoundAll(FillAll(ps, cs), table)
    decreases ps, 0
  {
    forall i | 0 <= i < |ps|
      ensures Sound(FillAll(ps, cs)[i], table)
    {
      FilledItem(ps[i], cs, table);
    }
  }

  lemma SoundIsWellFormed(p: Tree, table: Table)
    requires Sound(p, table) && Clean(table)
    ensures WellFormed(p)
  {
    var ls := Leaves(p);
    forall i, j | 0 <= i < |ls| && 0 <= j < |ls| && Name(ls[i]) == Name(ls[j])
      ensures ls[i] == ls[j]
    {
      assert ls[i] in ls && ls[j] in ls;
      NormalNames(ls[i], ls[j], table);
    }
    forall l | l in ls
      ensures Fresh(l)
    {
      NormalIsFresh(l, table);
    }
  }

  /** A parsed usage pattern with its `[options]` filled in is a well-formed tree over the
      table the parser leaves behind. */
  lemma ParsedIsWellFormed(toks: Tokens, doc: Table, cs: seq<Tree>)
    requires Clean(doc)
    requires U.ParsePattern(toks, doc).Ok? && U.Tidy(U.ParsePattern(toks, doc).value.0)
    requires Unmentioned(cs, doc, U.ParsePattern(toks, doc).value.0)
    ensures var (p, table) := U.ParsePattern(toks, doc).value;
            Clean(table) && Sound(Fill(p, cs), table) && WellFormed(Fill(p, cs))
  {
    var (p, table) := U.ParsePattern(toks, doc).value;
    var e := U.ParseExpr(toks, doc).value;
    U.ExprIsNormal(toks, doc);
    forall i | 0 <= i < |cs|
      ensures U.NormalLeaf(cs[i].leaf, table)
    {
      var k :| 0 <= k < |doc| && doc[k] == cs[i].leaf;
      assert table[k] == doc[k];
    }
    FilledBody(e.item, cs, table);
    SoundBranch(Fill(p, cs), table);
    SoundIsWellFormed(Fill(p, cs), table);
  }

  // ---------- parsed argv is typed ----------

  /** An option known when argv parsing began is the only one of its name, whatever options
      argv itself introduces. */
  ghost predicate Extends(base: Table, table: Table) {
    && (forall o :: o in base ==> o in table)
    && (forall o, s :: o in base && s in table && Name(o) == Name(s) ==> o == s)
    && (forall o :: o in table ==> Name(o).Some?)
  }

  /** A string for an option of `base` that takes one, else a string or a bool; only words have
      no name. */
  ghost predicate TypedItem(item: Element, base: Table) {
    && (item.value.Text? || item.value.Flag?)
    && (item.Argument? ==> item.value.Text?) && (item.Argument? <==> Name(item).None?)
    && forall o :: o in base && Name(o) == Name(item) && o.argcount != 0 ==> item.value.Text?
  }

  lemma ExtendsSelf(base: Table)
    requires Clean(base)
    ensures Extends(base, base)
  {
    forall o, s | o in base && s in base && Name(o) == Name(s)
      ensures o == s
    {
      NormalNames(o, s, base);
    }
    forall o | o in base
      ensures Name(o).Some?
    {
      OptionName(o, base);
    }
  }

  lemma ExtendsSnoc(base: Table, table: Table, o: Known)
    requires Extends(base, table) && Name(o).Some?
    requires forall k :: k in base ==> Name(k) != Name(o)
    ensures Extends(base, table + [o])
  {
  }

  /** An element read for a known option `s`, with a string if `s` takes an argument. */
  lemma TypedKnown(base: Table, table: Table, s: Known, item: Known)
    requires Extends(base, table) && s in table && Name(item) == Name(s)
    requires item.value.Text? || (item.value.Flag? && s.argcount == 0)
    ensures TypedItem(item, base)
  {
  }

  lemma LongTyped(toks: Tokens, base: Table, table: Table)
    requires toks != [] && StartsWith(toks[0], "--")
    requires Clean(base) && Extends(base, table) && ParseLong(toks, table, true).Ok?
    ensures var p := ParseLong(toks, table, true).value; TypedItem(p.item, base) && Extends(base, p.table)
  {
    var (long, value) := Partition(toks[0]);
    var p := ParseLong(toks, table, true).value;
    var similar := Similar(table, long, true);
    if similar == [] {
      WithLongMembers(table, long);
      DashedHead(toks[0]);
      forall k | k in base
        ensures Name(k) != Some(long)
      {
        OptionName(k, base);
        assert k in table;
      }
      ExtendsSnoc(base, table, MakeOption(None, Some(long), if value.Some? then 1 else 0, Flag(false)));
    } else {
      SimilarMembers(table, long);
      TypedKnown(base, table, similar[0], p.item);
    }
  }

  lemma DashedHead(t: string)
    requires StartsWith(t, "--")
    ensures var long := Partition(t).0; |long| >= 2 && long[1] == '-'
  {
    PartitionHead(t);
    var (head, value) := Partition(t);
    assert t[0] == '-' && t[1] == '-';
    assert value.Some? ==> t[|head|] == '=';
    assert head == t[..|head|];
  }

  lemma SimilarMembers(table: Table, long: string)
    ensures forall o :: o in Similar(table, long, true) ==> o in table
  {
    WithLongMembers(table, long);
    PrefixMembers(table, long);
  }

  lemma {:induction false} PrefixMembers(table: Table, prefix: string)
    ensures forall o :: o in WithPrefix(table, prefix) ==> o in table
  {
    if table != [] {
      PrefixMembers(table[1..], prefix);
    }
  }

  ghost predicate TypedItems(items: seq<Element>, base: Table) {
    forall i :: 0 <= i < |items| ==> TypedItem(items[i], base)
  }

  lemma {:induction false} ClusterTyped(left: string, rest: Tokens, base: Table, table: Table)
    requires Clean(base) && Extends(base, table) && Cluster(left, rest, table, true).Ok?
    ensures var p := Cluster(left, rest, table, true).value;
            TypedItems(A.Upcast(p.item), base) && Extends(base, p.table)
    decreases |left|
  {
    if left != [] {
      var short := ['-', left[0]];
      var p := Cluster(left, rest, table, true).value;
      var similar := WithShort(table, short);
      WithShortMembers(table, short);
      if similar == [] {
        var o := MakeOption(Some(short), None, 0, Flag(false));
        forall k | k in base
          ensures Name(k) != Some(short)
        {
          NotNamed(k, short, base, table);
        }
        ExtendsSnoc(base, table, o);
        ClusterTyped(left[1..], rest, base, table + [o]);
        assert p.item[1..] == Cluster(left[1..], rest, table + [o], true).value.item;
      } else {
        assert similar[0] in similar;
        TypedKnown(base, table, similar[0], p.item[0]);
        if similar[0].argcount == 0 {
          ClusterTyped(left[1..], rest, base, table);
          assert p.item[1..] == Cluster(left[1..], rest, table, true).value.item;
        }
      }
    }
  }

  lemma NotNamed(k: Known, short: string, base: Table, table: Table)
    requires Clean(base) && Extends(base, table) && k in base
    requires |short| == 2 && WithShort(table, short) == []
    ensures Name(k) != Some(short)
  {
    OptionName(k, base);
    assert Writable(k);
    WithShortMembers(table, short);
    if k.long.Some? {
      assert k.long.value[..2] == "--";
      assert k.long.value[..2] != k.long.value;
    } else {
      assert k in table;
    }
  }

  lemma {:induction false} ArgvTyped(toks: Tokens, base: Table, table: Table, optionsFirst: bool)
    requires Clean(base) && Extends(base, table) && A.ParseArgv(toks, table, optionsFirst).Ok?
    ensures TypedItems(A.ParseArgv(toks, table, optionsFirst).value.items, base)
    decreases |toks|
  {
    forall i, n | 0 <= i < |toks| && n in base
      ensures Name(n) != Name(A.Word(toks[i]))
    {
      OptionName(n, base);
    }
    if toks == [] || toks[0] == "--" {
    } else if StartsWith(toks[0], "--") {
      LongTyped(toks, base, table);
      var o := ParseLong(toks, table, true).value;
      ArgvTyped(o.rest, base, o.table, optionsFirst);
    } else if StartsWith(toks[0], "-") && toks[0] != "-" {
      ClusterTyped(StripDashes(toks[0]), toks[1..], base, table);
      var os := ParseShorts(toks, table, true).value;
      ArgvTyped(os.rest, base, os.table, optionsFirst);
    } else if !optionsFirst {
      ArgvTyped(toks[1..], base, table, optionsFirst);
    }
  }

  lemma TypedForTree(p: Tree, table: Table, items: seq<Element>)
    requires Sound(p, table) && TypedItems(items, table)
    ensures TypedArgv(Leaves(p), items)
  {
    forall item | item in items
      ensures item.value.Text? || item.value.Flag?
      ensures forall l :: l in Leaves(p) && Fits(l, item) && TakesText(l) ==> item.value.Text?
    {
      var i :| 0 <= i < |items| && items[i] == item;
      assert TypedItem(items[i], table);
      forall l | l in Leaves(p) && Fits(l, item) && TakesText(l)
        ensures item.value.Text?
      {
        assert U.NormalLeaf(l, table);
      }
    }
  }

  /** The tree that is matched is the parsed one with its `[options]` filled in. */
  lemma TreeIsFilled(usage: Tokens, doc: Table, cs: seq<Tree>)
    requires Usable(usage, doc, cs)
    ensures var p := U.ParsePattern(usage, doc).value.0;
            SameOutside(p, TreeOf(usage, doc, cs)) && ShortcutsHave(TreeOf(usage, doc, cs), doc, p)
  {
    var p := U.ParsePattern(usage, doc).value.0;
    FillFills(p, cs, doc, p);
  }

  lemma ItemsAreNamed(items: seq<Element>, table: Table)
    requires TypedItems(items, table)
    ensures FromArgv(items) && G.Clean(items)
  {
    forall i | 0 <= i < |items|
      ensures items[i].Argument? <==> Name(items[i]).None?
    {
      assert TypedItem(items[i], table);
    }
  }

  // ---------- the whole program ----------

  /** A usage pattern that can be parsed, with its options documented consistently. */
  ghost predicate Usable(usage: Tokens, doc: Table, cs: seq<Tree>) {
    && Clean(doc) && U.ParsePattern(usage, doc).Ok? && U.Tidy(U.ParsePattern(usage, doc).value.0)
    && Unmentioned(cs, doc, U.ParsePattern(usage, doc).value.0)
  }

  /** The tree that is matched. */
  ghost function TreeOf(usage: Tokens, doc: Table, cs: seq<Tree>): (tree: Tree)
    requires Usable(usage, doc, cs)
    ensures WellFormed(tree)
  {
    ParsedIsWellFormed(usage, doc, cs);
    Fill(U.ParsePattern(usage, doc).value.0, cs)
  }

  /** docopt.py:562-581 for a usage line and an argv already split into tokens, `doc` being
      the options documented and `cs` the children given to `[options]`. */
  ghost function Program(usage: Tokens, doc: Table, cs: seq<Tree>, argv: Tokens, optionsFirst: bool)
    : Result<Option<map<Option<string>, Value>>>
    requires U.ParsePattern(usage, doc).Ok? ==> Usable(usage, doc, cs)
  {
    var pt :- U.ParsePattern(usage, doc);
    var a :- A.ParseArgv(argv, pt.1, optionsFirst);
    ParsedIsWellFormed(usage, doc, cs);
    Ok(HeapDocopt(Fill(pt.0, cs), a.items))
  }

  /** The argv elements read, if argv can be read. */
  ghost function Read(usage: Tokens, doc: Table, cs: seq<Tree>, argv: Tokens, optionsFirst: bool): Result<seq<Element>>
    requires Usable(usage, doc, cs)
  {
    var a :- A.ParseArgv(argv, U.ParsePattern(usage, doc).value.1, optionsFirst);
    Ok(a.items)
  }

  lemma ReadyToMatch(usage: Tokens, doc: Table, cs: seq<Tree>, argv: Tokens, optionsFirst: bool)
    requires Usable(usage, doc, cs) && Read(usage, doc, cs, argv, optionsFirst).Ok?
    ensures var tree, items := TreeOf(usage, doc, cs), Read(usage, doc, cs, argv, optionsFirst).value;
            && WellFormed(tree) && TypedArgv(Leaves(tree), items) && FromArgv(items) && G.Clean(items)
            && Program(usage, doc, cs, argv, optionsFirst) == Ok(HeapDocopt(tree, items))
  {
    var (p, table) := U.ParsePattern(usage, doc).value;
    ParsedIsWellFormed(usage, doc, cs);
    ExtendsSelf(table);
    ArgvTyped(argv, table, table, optionsFirst);
    var items := A.ParseArgv(argv, table, optionsFirst).value.items;
    TypedForTree(Fill(p, cs), table, items);
    ItemsAreNamed(items, table);
  }

  /** When the program accepts, the argv elements read are split among the leaves of the usage
      pattern with none left over.  The dictionary reports for each leaf all it took if and
      only if, under the name of every leaf that took something, as many discarded matches stay
      as are forgotten. */
  lemma ProgramReportsEverything(usage: Tokens, doc: Table, cs: seq<Tree>, argv: Tokens, optionsFirst: bool)
    returns (es: seq<Event>)
    requires Usable(usage, doc, cs)
    requires Program(usage, doc, cs, argv, optionsFirst).Ok?
    requires Program(usage, doc, cs, argv, optionsFirst).value.Some?
    ensures Read(usage, doc, cs, argv, optionsFirst).Ok?
    ensures var items := Read(usage, doc, cs, argv, optionsFirst).value;
            Kept(TreeOf(usage, doc, cs), items, es) && multiset(Items(es)) == multiset(items)
    ensures var result, items := Program(usage, doc, cs, argv, optionsFirst).value.value, Read(usage, doc, cs, argv, optionsFirst).value;
            var tree := TreeOf(usage, doc, cs);
            (forall l :: l in Leaves(tree) ==> Reports(result, tree, es, l))
            <==> forall l :: l in Leaves(tree) && Used(l, es) > 0 ==> Balanced(tree, items, l)
  {
    assert Read(usage, doc, cs, argv, optionsFirst).Ok?;
    ReadyToMatch(usage, doc, cs, argv, optionsFirst);
    es := ReportsExactly(TreeOf(usage, doc, cs), Read(usage, doc, cs, argv, optionsFirst).value);
  }

  /** No leaf of the tree lets anything stray. */
  ghost predicate AllSettled(tree: Tree) {
    forall l :: l in Leaves(tree) && Accumulates(FixedLeaf(tree, l)) ==>
      Settled(FixedLeaf(tree, l), Fixed(tree))
  }

  /** On a settled usage pattern the dictionary reports everything, whatever argv is: each name
      has the value that what was typed for it gives, or the default written in the pattern. */
  lemma SettledProgramReportsEverything(usage: Tokens, doc: Table, cs: seq<Tree>, argv: Tokens, optionsFirst: bool)
    returns (es: seq<Event>)
    requires Usable(usage, doc, cs) && AllSettled(TreeOf(usage, doc, cs))
    requires Program(usage, doc, cs, argv, optionsFirst).Ok?
    requires Program(usage, doc, cs, argv, optionsFirst).value.Some?
    ensures Read(usage, doc, cs, argv, optionsFirst).Ok?
    ensures multiset(Items(es)) == multiset(Read(usage, doc, cs, argv, optionsFirst).value)
    ensures var result, tree := Program(usage, doc, cs, argv, optionsFirst).value.value, TreeOf(usage, doc, cs);
            && InLang(Fixed(tree), es)
            && (forall l :: l in Leaves(tree) ==> Reports(result, tree, es, l))
            && (forall l :: l in Leaves(tree) ==> V.HasItsValue(result, tree, es, l))
  {
    assert Read(usage, doc, cs, argv, optionsFirst).Ok?;
    ReadyToMatch(usage, doc, cs, argv, optionsFirst);
    var tree, items := TreeOf(usage, doc, cs), Read(usage, doc, cs, argv, optionsFirst).value;
    SettledIsFaithful(tree, items);
    es := V.EveryValueMeans(tree, items);
  }

  /** On a decisive usage pattern the program accepts exactly what the pattern accepts. */
  lemma ProgramAcceptsExactly(usage: Tokens, doc: Table, cs: seq<Tree>, argv: Tokens, optionsFirst: bool)
    requires Usable(usage, doc, cs) && G.Decisive(TreeOf(usage, doc, cs))
    requires Read(usage, doc, cs, argv, optionsFirst).Ok?
    ensures Program(usage, doc, cs, argv, optionsFirst).Ok?
    ensures Program(usage, doc, cs, argv, optionsFirst).value.Some? <==>
            exists es :: InLang(Fixed(TreeOf(usage, doc, cs)), es)
                         && TakesInOrder(Read(usage, doc, cs, argv, optionsFirst).value, es, [])
  {
    ReadyToMatch(usage, doc, cs, argv, optionsFirst);
    var tree, items := TreeOf(usage, doc, cs), Read(usage, doc, cs, argv, optionsFirst).value;
    FreshNames(tree);
    SameAcceptance(tree, items);
    G.DocoptIsComplete(tree, items);
  }

  lemma FreshNames(tree: Tree)
    requires WellFormed(tree)
    ensures Matchable(Fixed(tree)) && forall l :: l in Leaves(tree) ==> Name(l).Some?
  {
    MatchableMap(tree, l => FixedLeaf(tree, l));
    forall l | l in Leaves(tree)
      ensures Name(l).Some?
    {
      assert Fresh(l);
    }
  }
}
