/** Whole programs, from tokens to the dictionary: any printed usage pattern with any spelled
argv, and the usage `[options]`.
 */
module OptionPrograms {
  import opened Basics
  import opened Elements
  import opened Patterns
  import opened Options
  import opened Matcher
  import opened Language
  import opened Repeats
  import opened Capture
  import opened HeapMatcher
  import opened Straying
  import opened Reporting
  import opened EndToEnd
  import U = UsageParser
  import A = ArgvParser

  // ---------- what is read ----------

  /** The program matches the pattern that was written with the argv that was meant, however it
      was spelled; with `optionsFirst` the first word ends the options. */
  lemma ProgramReads(p: Tree, doc: Table, cs: seq<Tree>, chunks: seq<A.Chunk>, tail: Tokens, optionsFirst: bool)
    requires Clean(doc) && U.NormalPattern(p, doc) && U.Tidy(p) && Unmentioned(cs, doc, p)
    requires A.IsTail(tail, optionsFirst)
    requires forall i :: 0 <= i < |chunks| ==> A.Legal(chunks[i], doc) && (optionsFirst ==> !chunks[i].Plain?)
    ensures var usage := U.PrintBody(p.children);
            && Usable(usage, doc, cs) && TreeOf(usage, doc, cs) == Fill(p, cs)
            && Read(usage, doc, cs, A.SpellAll(chunks) + tail, optionsFirst) == Ok(A.MeaningAll(chunks) + A.Words(tail))
            && Program(usage, doc, cs, A.SpellAll(chunks) + tail, optionsFirst)
               == Ok(HeapDocopt(Fill(p, cs), A.MeaningAll(chunks) + A.Words(tail)))
  {
    U.PatternRoundTrip(p, doc);
    A.ArgvRoundTrip(chunks, tail, doc, optionsFirst);
    ReadyToMatch(U.PrintBody(p.children), doc, cs, A.SpellAll(chunks) + tail, optionsFirst);
  }

  // ---------- `[options]` ----------

  /** `( [ options ] )`, as a usage line is written out (docopt.py:470-473). */
  function OptionsUsage(): Tokens {
    ["(", "[", "options", "]", ")"]
  }

  function OptionsPattern(cs: seq<Tree>): Tree {
    Required([Required([Optional([OptionsShortcut(cs)])])])
  }

  lemma OneBranch(p: Tree)
    ensures U.PrintAll([p]) == U.Print(p) && LeavesOf([p]) == Leaves(p)
  {
    assert [p][1..] == [];
    assert U.Print(p) + [] == U.Print(p) && Leaves(p) + [] == Leaves(p);
  }

  lemma OptionsPrinted(cs: seq<Tree>)
    ensures U.PrintBody(OptionsPattern(cs).children) == OptionsUsage()
    ensures Leaves(OptionsPattern(cs)) == LeavesOf(cs)
  {
    var shortcut: Tree := OptionsShortcut(cs);
    var optional, line := Optional([shortcut]), Required([Optional([shortcut])]);
    OneBranch(shortcut);
    OneBranch(optional);
    OneBranch(line);
    assert U.Print(optional) == ["["] + ["options"] + ["]"];
    assert U.Print(line) == ["("] + U.Print(optional) + [")"];
  }

  lemma OptionsFilled(cs: seq<Tree>)
    ensures Fill(OptionsPattern([]), cs) == OptionsPattern(cs)
  {
    var none: seq<Tree> := [];
    var shortcut: Tree := OptionsShortcut(none);
    var optional, line := Optional([shortcut]), Required([Optional([shortcut])]);
    OneFilled(shortcut, cs);
    OneFilled(optional, cs);
    OneFilled(line, cs);
  }

  lemma OneFilled(p: Tree, cs: seq<Tree>)
    ensures FillAll([p], cs) == [Fill(p, cs)]
  {
    assert [p][1..] == [];
  }

  lemma OptionsUsable(doc: Table, cs: seq<Tree>)
    requires Clean(doc) && Unmentioned(cs, doc, OptionsPattern([]))
    ensures U.NormalPattern(OptionsPattern([]), doc) && U.Tidy(OptionsPattern([]))
  {
    var none: seq<Tree> := [];
    var shortcut: Tree := OptionsShortcut(none);
    var optional, line := Optional([shortcut]), Required([Optional([shortcut])]);
    assert U.NormalItem(shortcut, doc) && U.Tidy(shortcut);
    assert U.NormalItem(optional, doc) && U.Tidy(optional);
    assert U.NormalItem(line, doc) && U.Tidy(line);
  }

  /** Flags of the options `os`, each at most once. */
  ghost predicate Sets(items: seq<Element>, os: seq<Known>, doc: Table) {
    && |items| == |os| && NoDuplicates(os)
    && forall i :: 0 <= i < |os| ==> os[i] in doc && os[i].argcount == 0 && items[i] == Opt(os[i].short, os[i].long, 0, Flag(true))
  }

  /** The name an option is reported by. */
  function KeyOf(o: Known): Option<string> {
    if o.long.Some? then Some(o.long.value) else o.short
  }

  lemma SameKeySameOption(doc: Table, o: Known, k: Known)
    requires Clean(doc) && o in doc && k in doc && KeyOf(o) == KeyOf(k)
    ensures o == k
  {
    NormalNames(o, k, doc);
  }

  lemma {:induction false} LeafAmong(cs: seq<Tree>, l: Element)
    requires forall i :: 0 <= i < |cs| ==> cs[i].Leaf?
    ensures l in LeavesOf(cs) <==> Leaf(l) in cs
  {
    if cs != [] {
      assert cs == [cs[0]] + cs[1..];
      LeafAmong(cs[1..], l);
    }
  }

  // ---------- every flag is taken ----------

  /** No two elements have a name in common. */
  ghost predicate NamesApart(l: seq<Element>) {
    forall i, j :: 0 <= i < j < |l| ==> Name(l[i]) != Name(l[j])
  }

  lemma DropApart(l: seq<Element>, i: nat)
    requires NamesApart(l) && i < |l|
    ensures NamesApart(Drop(l, i))
    ensures forall x :: x in Drop(l, i) ==> x in l && Name(x) != Name(l[i])
  {
    forall x | x in Drop(l, i)
      ensures x in l && Name(x) != Name(l[i])
    {
      var k :| 0 <= k < |Drop(l, i)| && Drop(l, i)[k] == x;
      assert x == l[if k < i then k else k + 1];
    }
  }

  /** Trying options one after the other takes all elements of their names. */
  lemma {:induction false} OptionsTake(cs: seq<Tree>, l: seq<Element>)
    requires AllMatchable(cs) && NamesApart(l) && forall i :: 0 <= i < |cs| ==> cs[i].Leaf? && cs[i].leaf.Opt?
    ensures var left := RunEach(cs, l).left;
            forall x :: x in left ==> x in l && forall i :: 0 <= i < |cs| ==> Name(x) != Name(cs[i].leaf)
  {
    if cs != [] {
      var r, leaf := RunOf(cs[0], l), cs[0].leaf;
      OptionRun(leaf, l);
      if r.matched {
        var i := Find(l, Name(leaf));
        assert r.left == Drop(l, i);
        DropApart(l, i);
      } else {
        forall x | x in l
          ensures Name(x) != Name(leaf)
        {
          var i :| 0 <= i < |l| && l[i] == x;
        }
      }
      OptionsTake(cs[1..], r.left);
      forall x | x in RunEach(cs, l).left
        ensures x in l && forall i :: 0 <= i < |cs| ==> Name(x) != Name(cs[i].leaf)
      {
        assert x in r.left;
        forall i | 0 <= i < |cs|
          ensures Name(x) != Name(cs[i].leaf)
        {
          if i > 0 {
            assert cs[i] == cs[1..][i - 1];
          }
        }
      }
    }
  }

  lemma PatternRun(cs: seq<Tree>, l: seq<Element>)
    requires AllMatchable(cs)
    ensures Matchable(OptionsPattern(cs))
    ensures RunOf(OptionsPattern(cs), l).matched && RunOf(OptionsPattern(cs), l).left == RunEach(cs, l).left
  {
    var shortcut: Tree := OptionsShortcut(cs);
    assert Matchable(shortcut) && RunOf(shortcut, l) == RunEach(cs, l);
    OneTried(shortcut, l);
    OneTried(Optional([shortcut]), l);
    OneTried(Required([Optional([shortcut])]), l);
  }

  /** Brackets around one pattern that matches. */
  lemma OneTried(p: Tree, l: seq<Element>)
    requires Matchable(p) && RunOf(p, l).matched
    ensures Matchable(Optional([p])) && Matchable(Required([p]))
    ensures RunOf(Optional([p]), l).matched && RunOf(Optional([p]), l).left == RunOf(p, l).left
    ensures RunOf(Required([p]), l).matched && RunOf(Required([p]), l).left == RunOf(p, l).left
  {
    assert [p][1..] == [];
    var left := RunOf(p, l).left;
    assert RunEach([p][1..], left) == RunAll([p][1..], left) == Run(true, left, [], 0);
  }

  lemma PatternMap(cs: seq<Tree>, f: Element -> Element)
    ensures MapLeaves(OptionsPattern(cs), f) == OptionsPattern(MapAll(cs, f))
  {
    OneMapped(OptionsShortcut(cs), f);
    OneMapped(Optional([OptionsShortcut(cs)]), f);
    OneMapped(Required([Optional([OptionsShortcut(cs)])]), f);
  }

  lemma OneMapped(p: Tree, f: Element -> Element)
    ensures MapAll([p], f) == [MapLeaves(p, f)]
  {
    assert [p][1..] == [];
  }

  // ---------- no leaf repeats ----------

  lemma {:induction false} OccOnce(cs: seq<Tree>, l: Element)
    requires NoDuplicates(cs) && forall i :: 0 <= i < |cs| ==> cs[i].Leaf?
    ensures OccAll(cs, l) <= 1 && (Leaf(l) !in cs ==> OccAll(cs, l) == 0)
  {
    if cs != [] {
      assert cs == [cs[0]] + cs[1..];
      forall i, j | 0 <= i < j < |cs[1..]|
        ensures cs[1..][i] != cs[1..][j]
      {
        assert cs[i + 1] != cs[j + 1];
      }
      OccOnce(cs[1..], l);
      if cs[0] == Leaf(l) {
        forall i | 0 <= i < |cs[1..]|
          ensures cs[1..][i] != Leaf(l)
        {
          assert cs[0] != cs[i + 1];
        }
      }
    }
  }

  lemma PatternOcc(cs: seq<Tree>, l: Element)
    ensures Occ(OptionsPattern(cs), l) == AtMostTwo(OccAll(cs, l)) || Occ(OptionsPattern(cs), l) == OccAll(cs, l)
  {
    OneOcc(OptionsShortcut(cs), l);
    OneOcc(Optional([OptionsShortcut(cs)]), l);
    OneOcc(Required([Optional([OptionsShortcut(cs)])]), l);
  }

  lemma OneOcc(p: Tree, l: Element)
    ensures OccAll([p], l) == Occ(p, l)
  {
    assert [p][1..] == [];
  }

  lemma NoneRepeats(cs: seq<Tree>, l: Element)
    requires NoDuplicates(cs) && NoEmptyEither(OptionsPattern(cs)) && forall i :: 0 <= i < |cs| ==> cs[i].Leaf?
    ensures FixedLeaf(OptionsPattern(cs), l) == l
  {
    OccOnce(cs, l);
    PatternOcc(cs, l);
    OccIsPeak(OptionsPattern(cs), l);
  }

  // ---------- what is reported ----------

  /** The children of `[options]` are the documented options. */
  lemma ShortcutLeaves(doc: Table, cs: seq<Tree>)
    requires Unmentioned(cs, doc, OptionsPattern([]))
    ensures forall i :: 0 <= i < |cs| ==> cs[i].Leaf? && cs[i].leaf in doc
    ensures forall l: Element :: l in LeavesOf(cs) <==> l in doc
    ensures NoDuplicates(cs)
  {
    OptionsPrinted([]);
    forall l: Element
      ensures l in LeavesOf(cs) <==> l in doc
    {
      LeafAmong(cs, l);
      if l in doc {
        assert U.LeafOf(l) in cs;
      }
      if Leaf(l) in cs {
        var i :| 0 <= i < |cs| && cs[i] == Leaf(l);
      }
    }
  }

  lemma FlagNames(items: seq<Element>, os: seq<Known>, doc: Table)
    requires Clean(doc) && Sets(items, os, doc)
    ensures NamesApart(items)
  {
    forall i, j | 0 <= i < j < |items|
      ensures Name(items[i]) != Name(items[j])
    {
      if Name(items[i]) == Name(items[j]) {
        SameKeySameOption(doc, os[i], os[j]);
      }
    }
  }

  lemma NothingLeft(doc: Table, cs: seq<Tree>, f: Element -> Element, items: seq<Element>, os: seq<Known>)
    requires Clean(doc) && Unmentioned(cs, doc, OptionsPattern([])) && Sets(items, os, doc)
    requires forall l :: Name(f(l)) == Name(l) && (f(l).Opt? <==> l.Opt?)
    ensures AllMatchable(MapAll(cs, f)) && RunEach(MapAll(cs, f), items).left == []
  {
    ShortcutLeaves(doc, cs);
    FlagNames(items, os, doc);
    forall x | x in items
      ensures exists i :: 0 <= i < |cs| && Name(MapAll(cs, f)[i].leaf) == Name(x)
    {
      var i := FlagsLeaf(doc, cs, items, os, x);
      assert Name(MapAll(cs, f)[i].leaf) == Name(x);
    }
    OptionsTake(MapAll(cs, f), items);
    NoElements(RunEach(MapAll(cs, f), items).left);
  }

  lemma NoElements<T>(s: seq<T>)
    ensures s == [] || exists x :: x in s
  {
    if s != [] {
      assert s[|s| - 1] in s;
    }
  }

  /** Every flag is one of the children's. */
  lemma FlagsLeaf(doc: Table, cs: seq<Tree>, items: seq<Element>, os: seq<Known>, x: Element) returns (i: nat)
    requires Unmentioned(cs, doc, OptionsPattern([])) && Sets(items, os, doc) && x in items
    ensures i < |cs| && cs[i].Leaf? && Name(cs[i].leaf) == Name(x)
  {
    var k :| 0 <= k < |items| && items[k] == x;
    OptionsPrinted([]);
    assert U.LeafOf(os[k]) in cs;
    i :| 0 <= i < |cs| && cs[i] == U.LeafOf(os[k]);
  }

  /** All flags are taken. */
  lemma FlagsAccepted(doc: Table, cs: seq<Tree>, items: seq<Element>, os: seq<Known>)
    requires Clean(doc) && Unmentioned(cs, doc, OptionsPattern([])) && Sets(items, os, doc)
    requires WellFormed(OptionsPattern(cs)) && FromArgv(items)
    ensures HeapDocopt(OptionsPattern(cs), items).Some?
  {
    FlagsRun(doc, cs, items, os);
    RunIsAccepted(OptionsPattern(cs), items);
  }

  lemma FlagsRun(doc: Table, cs: seq<Tree>, items: seq<Element>, os: seq<Known>)
    requires Clean(doc) && Unmentioned(cs, doc, OptionsPattern([])) && Sets(items, os, doc)
    ensures var q := Fixed(OptionsPattern(cs));
            Matchable(q) && RunOf(q, items).matched && RunOf(q, items).left == []
  {
    var f := l => FixedLeaf(OptionsPattern(cs), l);
    PatternMap(cs, f);
    FixedLeafKeeps(OptionsPattern(cs));
    NothingLeft(doc, cs, f, items, os);
    PatternRun(MapAll(cs, f), items);
  }

  lemma FixedLeafKeeps(p: Tree)
    ensures forall l :: Name(FixedLeaf(p, l)) == Name(l) && (FixedLeaf(p, l).Opt? <==> l.Opt?)
  {
  }

  /** What the matcher uses up, docopt accepts. */
  lemma RunIsAccepted(p: Tree, items: seq<Element>)
    requires WellFormed(p) && FromArgv(items) && Matchable(Fixed(p))
    requires RunOf(Fixed(p), items).matched && RunOf(Fixed(p), items).left == []
    ensures HeapDocopt(p, items).Some?
  {
    FreshNames(p);
    MatchIsRun(Fixed(p), items, []);
    SameAcceptance(p, items);
  }

  /** A flag that was given has an event of its own. */
  lemma FlagTaken(doc: Table, cs: seq<Tree>, items: seq<Element>, os: seq<Known>, es: seq<Event>, o: Known)
    requires Clean(doc) && Unmentioned(cs, doc, OptionsPattern([])) && Sets(items, os, doc)
    requires WellFormed(OptionsPattern(cs)) && InLang(Fixed(OptionsPattern(cs)), es) && multiset(Items(es)) == multiset(items)
    requires o in doc
    ensures Only(es, Name(o)) != [] <==> o in os
    ensures Only(es, Name(o)) != [] ==> Only(es, Name(o))[0].item.value == Flag(true)
  {
    if o in os {
      FlagHasEvent(doc, cs, items, os, es, o);
    }
    if Only(es, Name(o)) != [] {
      EventIsFlag(doc, cs, items, os, es, o, Only(es, Name(o))[0]);
    }
  }

  lemma FlagHasEvent(doc: Table, cs: seq<Tree>, items: seq<Element>, os: seq<Known>, es: seq<Event>, o: Known)
    requires Unmentioned(cs, doc, OptionsPattern([])) && Sets(items, os, doc)
    requires WellFormed(OptionsPattern(cs)) && InLang(Fixed(OptionsPattern(cs)), es) && multiset(Items(es)) == multiset(items)
    requires o in os
    ensures Only(es, Name(o)) != []
  {
    var k :| 0 <= k < |os| && os[k] == o;
    assert items[k] in multiset(Items(es));
    var i :| 0 <= i < |es| && Items(es)[i] == items[k];
    EventName(doc, cs, es, es[i]);
    OnlyHas(es, i);
  }

  lemma EventIsFlag(doc: Table, cs: seq<Tree>, items: seq<Element>, os: seq<Known>, es: seq<Event>, o: Known, e: Event)
    requires Clean(doc) && Unmentioned(cs, doc, OptionsPattern([])) && Sets(items, os, doc)
    requires WellFormed(OptionsPattern(cs)) && InLang(Fixed(OptionsPattern(cs)), es) && multiset(Items(es)) == multiset(items)
    requires o in doc && e in Only(es, Name(o))
    ensures o in os && e.item.value == Flag(true)
  {
    EventName(doc, cs, es, e);
    var i :| 0 <= i < |es| && es[i] == e;
    assert Items(es)[i] in multiset(items);
    var k :| 0 <= k < |items| && items[k] == e.item;
    SameKeySameOption(doc, os[k], o);
  }

  lemma EventName(doc: Table, cs: seq<Tree>, es: seq<Event>, e: Event)
    requires Unmentioned(cs, doc, OptionsPattern([])) && WellFormed(OptionsPattern(cs))
    requires InLang(Fixed(OptionsPattern(cs)), es) && e in es
    ensures Name(e.item) == Name(e.leaf)
  {
    ShortcutLeaves(doc, cs);
    OptionsPrinted(cs);
    WordLeaves(Fixed(OptionsPattern(cs)), es, e);
    var l := FixedLeafOrigin(OptionsPattern(cs), e.leaf);
  }

  lemma {:induction false} OnlyHas(es: seq<Event>, i: nat)
    requires i < |es|
    ensures Only(es, Name(es[i].leaf)) != []
    decreases |es|
  {
    if i < |es| - 1 {
      OnlyHas(es[..|es| - 1], i);
    }
  }

  /** What the dictionary says of a documented option. */
  lemma FlagReported(doc: Table, cs: seq<Tree>, items: seq<Element>, os: seq<Known>, o: Known)
    requires Clean(doc) && Unmentioned(cs, doc, OptionsPattern([])) && Sets(items, os, doc) && o in doc
    requires WellFormed(OptionsPattern(cs)) && TypedArgv(Leaves(OptionsPattern(cs)), items) && FromArgv(items)
    requires HeapDocopt(OptionsPattern(cs), items).Some?
    ensures var d := HeapDocopt(OptionsPattern(cs), items).value;
            KeyOf(o) in d && d[KeyOf(o)] == if o in os then Flag(true) else o.value
  {
    var p := OptionsPattern(cs);
    PlainOption(doc, cs, o);
    var es := PlainReported(p, items, o);
    FlagTaken(doc, cs, items, os, es, o);
    if Only(es, Name(o)) != [] {
      var e := Only(es, Name(o))[0];
      assert e in Only(es, Name(o));
      KeptLeaf(p, items, es, o);
    }
  }

  /** A documented option is a leaf that does not repeat. */
  lemma PlainOption(doc: Table, cs: seq<Tree>, o: Known)
    requires Unmentioned(cs, doc, OptionsPattern([])) && WellFormed(OptionsPattern(cs)) && o in doc
    ensures var p := OptionsPattern(cs);
            o in Leaves(p) && FixedLeaf(p, o) == o && !Accumulates(o) && Name(o) == KeyOf(o)
  {
    ShortcutLeaves(doc, cs);
    OptionsPrinted(cs);
    NoneRepeats(cs, o);
    assert Fresh(o);
  }

  /** A leaf that does not accumulate is reported right. */
  lemma PlainReported(p: Tree, items: seq<Element>, l: Element) returns (es: seq<Event>)
    requires WellFormed(p) && TypedArgv(Leaves(p), items) && FromArgv(items)
    requires HeapDocopt(p, items).Some? && l in Leaves(p) && !Accumulates(FixedLeaf(p, l))
    ensures Kept(p, items, es) && InLang(Fixed(p), es) && multiset(Items(es)) == multiset(items)
    ensures Reports(HeapDocopt(p, items).value, p, es, l)
  {
    es := WithoutStrays(p, items);
    var es' := BothReported(p, items);
    PlainNeverStrays(p, items, l);
  }

  /** The dictionary has every documented option under its long name, or else its short one:
      True if it was given, and if not its default. */
  ghost predicate ReportsFlags(d: map<Option<string>, Value>, os: seq<Known>, doc: Table) {
    && (forall o :: o in doc ==> KeyOf(o) in d && d[KeyOf(o)] == if o in os then Flag(true) else o.value)
    && (forall n :: n in d ==> exists o :: o in doc && KeyOf(o) == n)
  }

  lemma FlagsReported(doc: Table, cs: seq<Tree>, items: seq<Element>, os: seq<Known>)
    requires Clean(doc) && Unmentioned(cs, doc, OptionsPattern([])) && Sets(items, os, doc)
    requires WellFormed(OptionsPattern(cs)) && TypedArgv(Leaves(OptionsPattern(cs)), items) && FromArgv(items)
    ensures HeapDocopt(OptionsPattern(cs), items).Some?
    ensures ReportsFlags(HeapDocopt(OptionsPattern(cs), items).value, os, doc)
  {
    FlagsAccepted(doc, cs, items, os);
    var d := HeapDocopt(OptionsPattern(cs), items).value;
    forall o | o in doc
      ensures KeyOf(o) in d && d[KeyOf(o)] == if o in os then Flag(true) else o.value
    {
      FlagReported(doc, cs, items, os, o);
    }
    OnlyDocumented(doc, cs, items);
  }

  /** A usage `[options]` accepts any argv that gives documented options without argument, each
      at most once and in any spelling, and reports each of them as True. */
  lemma OptionsProgram(doc: Table, cs: seq<Tree>, chunks: seq<A.Chunk>, os: seq<Known>, optionsFirst: bool)
    requires Clean(doc) && Unmentioned(cs, doc, OptionsPattern([]))
    requires forall i :: 0 <= i < |chunks| ==> A.Legal(chunks[i], doc) && !chunks[i].Plain?
    requires Sets(A.MeaningAll(chunks), os, doc)
    ensures Usable(OptionsUsage(), doc, cs)
    ensures var r := Program(OptionsUsage(), doc, cs, A.SpellAll(chunks), optionsFirst);
            r.Ok? && r.value.Some? && ReportsFlags(r.value.value, os, doc)
  {
    var items := A.MeaningAll(chunks);
    OptionsRead(doc, cs, chunks, optionsFirst);
    ReadyToMatch(OptionsUsage(), doc, cs, A.SpellAll(chunks), optionsFirst);
    FlagsReported(doc, cs, items, os);
  }

  lemma OptionsRead(doc: Table, cs: seq<Tree>, chunks: seq<A.Chunk>, optionsFirst: bool)
    requires Clean(doc) && Unmentioned(cs, doc, OptionsPattern([]))
    requires forall i :: 0 <= i < |chunks| ==> A.Legal(chunks[i], doc) && !chunks[i].Plain?
    ensures Usable(OptionsUsage(), doc, cs) && TreeOf(OptionsUsage(), doc, cs) == OptionsPattern(cs)
    ensures Read(OptionsUsage(), doc, cs, A.SpellAll(chunks), optionsFirst) == Ok(A.MeaningAll(chunks))
  {
    var items := A.MeaningAll(chunks);
    OptionsPrinted([]);
    OptionsFilled(cs);
    OptionsUsable(doc, cs);
    ProgramReads(OptionsPattern([]), doc, cs, chunks, [], optionsFirst);
    assert A.SpellAll(chunks) + [] == A.SpellAll(chunks) && items + A.Words([]) == items;
  }

  lemma OnlyDocumented(doc: Table, cs: seq<Tree>, items: seq<Element>)
    requires Unmentioned(cs, doc, OptionsPattern([]))
    requires WellFormed(OptionsPattern(cs)) && TypedArgv(Leaves(OptionsPattern(cs)), items) && FromArgv(items)
    requires HeapDocopt(OptionsPattern(cs), items).Some?
    ensures forall n :: n in HeapDocopt(OptionsPattern(cs), items).value ==> exists o :: o in doc && KeyOf(o) == n
  {
    var p := OptionsPattern(cs);
    FreshNames(p);
    SameAcceptance(p, items);
    HeapKeys(p, items);
    ShortcutLeaves(doc, cs);
    OptionsPrinted(cs);
    forall n | n in HeapDocopt(p, items).value
      ensures exists o :: o in doc && KeyOf(o) == n
    {
      assert IsLeafName(p, n);
      var l :| l in Leaves(p) && Name(l) == n;
      assert l in doc && KeyOf(l) == n;
    }
  }
}
