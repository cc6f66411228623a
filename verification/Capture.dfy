/** What happens to the values the user typed: nothing captured is overwritten or lost. */
module Capture {
  import opened Basics
  import opened Elements
  import opened Patterns
  import opened Matcher
  import opened Language
  import opened Repeats

  /** The argv elements the argv parser makes for the leaves `ls`: a word is a string, an
      option holds a string if it takes one and True if not. */
  ghost predicate TypedArgv(ls: seq<Element>, argv: seq<Element>) {
    forall item :: item in argv ==>
      && (item.value.Text? || item.value.Flag?)
      && forall l :: l in ls && Fits(l, item) && TakesText(l) ==> item.value.Text?
  }

  // ---------- what an entry ought to hold ----------

  /** The events whose leaf is called `n`. */
  function Only(es: seq<Event>, n: Option<string>): (fs: seq<Event>)
    ensures forall f :: f in fs ==> f in es && Name(f.leaf) == n
  {
    if es == [] then [] else
      var last := es[|es| - 1];
      Only(es[..|es| - 1], n) + if Name(last.leaf) == n then [last] else []
  }

  function TextOf(item: Element): string {
    if item.value.Text? then item.value.text else ""
  }

  function TextsOf(fs: seq<Event>): (r: seq<string>)
    ensures |r| == |fs|
    ensures forall i :: 0 <= i < |fs| ==> r[i] == TextOf(fs[i].item)
  {
    seq(|fs|, i requires 0 <= i < |fs| => TextOf(fs[i].item))
  }

  /** Everything captured under one name: how often, all the strings in order, or the value: True
      for a command, what was typed for the rest. */
  function Gathered(fs: seq<Event>): Value
    requires fs != []
  {
    if fs[0].leaf.value.Count? then Count(|fs|)
    else if fs[0].leaf.value.Texts? then Texts(TextsOf(fs))
    else if fs[0].leaf.Command? then Flag(true)
    else fs[0].item.value
  }

  ghost predicate DistinctNames(c: seq<Element>) {
    forall i, j :: 0 <= i < j < |c| ==> Name(c[i]) != Name(c[j])
  }

  /** The entry holds everything captured under its name, and something was. */
  ghost predicate HoldsAll(a: Element, es: seq<Event>) {
    Only(es, Name(a)) != [] && a.value == Gathered(Only(es, Name(a)))
  }

  predicate HasEntry(c: seq<Element>, n: Option<string>) {
    Find(c, n) < |c|
  }

  /** `c` has one entry for each name captured in `es`, holding everything captured. */
  ghost predicate Gathers(c: seq<Element>, es: seq<Event>) {
    && DistinctNames(c)
    && (forall i :: 0 <= i < |c| ==> HoldsAll(c[i], es))
    && (forall e :: e in es ==> HasEntry(c, Name(e.leaf)))
  }

  lemma EntryIffCaptured(c: seq<Element>, es: seq<Event>, n: Option<string>)
    requires Gathers(c, es)
    ensures HasEntry(c, n) <==> Only(es, n) != []
  {
    if HasEntry(c, n) {
      assert HoldsAll(c[Find(c, n)], es);
    }
    if Only(es, n) != [] {
      assert Only(es, n)[0] in Only(es, n);
    }
  }

  lemma HasEntryAt(c: seq<Element>, i: nat, n: Option<string>)
    requires i < |c| && Name(c[i]) == n
    ensures HasEntry(c, n)
  {
  }

  // ---------- folding well-behaved events ----------

  ghost predicate OrderlyEvent(e: Event) {
    && Name(e.leaf).Some?
    && Fits(e.leaf, e.item)
    && (e.item.value.Text? || e.item.value.Flag?)
    && (e.leaf.value.Texts? ==> TakesText(e.leaf) && e.item.value.Text?)
  }

  /** Events of one name have one leaf, and if there is more than one it accumulates. */
  ghost predicate Orderly(es: seq<Event>) {
    && (forall e :: e in es ==> OrderlyEvent(e))
    && (forall i, j :: 0 <= i < j < |es| && Name(es[i].leaf) == Name(es[j].leaf) ==>
          es[i].leaf == es[j].leaf && Accumulates(es[i].leaf))
  }

  lemma MatchKeepsName(leaf: Element, item: Element)
    requires Fits(leaf, item)
    ensures Name(MatchOf(leaf, item)) == Name(leaf)
  {
  }

  lemma OnlySnoc(es: seq<Event>, e: Event, n: Option<string>)
    ensures Only(es + [e], n) == Only(es, n) + if Name(e.leaf) == n then [e] else []
  {
    assert (es + [e])[..|es|] == es;
  }

  lemma HoldsAllOther(a: Element, es: seq<Event>, e: Event)
    requires HoldsAll(a, es) && Name(a) != Name(e.leaf)
    ensures HoldsAll(a, es + [e])
  {
    OnlySnoc(es, e, Name(a));
  }

  lemma HoldsAllLast(a: Element, es: seq<Event>, e: Event)
    requires Name(a) == Name(e.leaf)
    requires a.value == Gathered(Only(es, Name(e.leaf)) + [e])
    ensures HoldsAll(a, es + [e])
  {
    OnlySnoc(es, e, Name(a));
  }

  /** Names with an entry keep one when entries keep their names or new ones come. */
  lemma EntriesKept(c: seq<Element>, c': seq<Element>, es: seq<Event>, e: Event)
    requires |c| <= |c'| && forall i :: 0 <= i < |c| ==> Name(c'[i]) == Name(c[i])
    requires forall f :: f in es ==> HasEntry(c, Name(f.leaf))
    requires HasEntry(c', Name(e.leaf))
    ensures forall f :: f in es + [e] ==> HasEntry(c', Name(f.leaf))
  {
    forall f | f in es + [e]
      ensures HasEntry(c', Name(f.leaf))
    {
      if f in es {
        HasEntryAt(c', Find(c, Name(f.leaf)), Name(f.leaf));
      }
    }
  }

  /** Appending the entry of a name captured for the first time. */
  lemma GathersNew(c: seq<Element>, es: seq<Event>, e: Event, a: Element)
    requires Gathers(c, es) && Name(a) == Name(e.leaf)
    requires Only(es, Name(e.leaf)) == []
    requires a.value == Gathered([e])
    ensures Gathers(c + [a], es + [e])
  {
    var c' := c + [a];
    OthersHold(c, es, e);
    assert Only(es, Name(e.leaf)) + [e] == [e];
    HoldsAllLast(a, es, e);
    HasEntryAt(c', |c|, Name(e.leaf));
    EntriesKept(c, c', es, e);
  }

  /** Entries of other names, none being of the name, hold all they should after the event. */
  lemma OthersHold(c: seq<Element>, es: seq<Event>, e: Event)
    requires forall i :: 0 <= i < |c| ==> HoldsAll(c[i], es)
    requires Only(es, Name(e.leaf)) == []
    ensures forall i :: 0 <= i < |c| ==> Name(c[i]) != Name(e.leaf) && HoldsAll(c[i], es + [e])
  {
    forall i | 0 <= i < |c|
      ensures Name(c[i]) != Name(e.leaf) && HoldsAll(c[i], es + [e])
    {
      assert HoldsAll(c[i], es);
      HoldsAllOther(c[i], es, e);
    }
  }

  /** Adding to the entry of a name captured before. */
  lemma GathersMore(c: seq<Element>, es: seq<Event>, e: Event, j: nat, a: Element)
    requires Gathers(c, es)
    requires j < |c| && Name(c[j]) == Name(e.leaf) == Name(a)
    requires a.value == Gathered(Only(es, Name(e.leaf)) + [e])
    ensures Gathers(c[j := a], es + [e])
  {
    var c' := c[j := a];
    forall i | 0 <= i < |c| && i != j
      ensures HoldsAll(c[i], es + [e])
    {
      assert HoldsAll(c[i], es);
      assert Name(c[i]) != Name(c[j]);
      HoldsAllOther(c[i], es, e);
    }
    HoldsAllLast(a, es, e);
    SameNamesDistinct(c, c');
    HasEntryAt(c', j, Name(e.leaf));
    EntriesKept(c, c', es, e);
  }

  lemma SameNamesDistinct(c: seq<Element>, c': seq<Element>)
    requires DistinctNames(c)
    requires |c| == |c'| && forall i :: 0 <= i < |c| ==> Name(c'[i]) == Name(c[i])
    ensures DistinctNames(c')
  {
  }

  /** The new value of an accumulating entry is the old one with one more event. */
  lemma OneMore(fs: seq<Event>, e: Event)
    requires fs != [] && fs[0].leaf == e.leaf && Accumulates(e.leaf)
    requires OrderlyEvent(e)
    ensures Plus(Gathered(fs), Increment(e.leaf, MatchOf(e.leaf, e.item))) == Gathered(fs + [e])
  {
    assert (fs + [e])[0] == fs[0];
    if e.leaf.value.Texts? {
      assert TextsOf(fs + [e]) == TextsOf(fs) + [e.item.value.text];
    }
  }

  /** Two events of one name in an orderly list. */
  lemma OrderlyPair(es: seq<Event>, e: Event, f: Event)
    requires Orderly(es + [e])
    requires f in es && Name(f.leaf) == Name(e.leaf)
    ensures f.leaf == e.leaf && Accumulates(e.leaf)
  {
    var all := es + [e];
    var i :| 0 <= i < |es| && es[i] == f;
    assert all[i] == f && all[|es|] == e;
  }

  lemma CollectGathers(c: seq<Element>, es: seq<Event>, e: Event)
    requires Gathers(c, es)
    requires Orderly(es + [e])
    ensures Gathers(Collect(c, e.leaf, MatchOf(e.leaf, e.item)), es + [e])
  {
    var n, m := Name(e.leaf), MatchOf(e.leaf, e.item);
    assert e in es + [e];
    assert OrderlyEvent(e);
    MatchKeepsName(e.leaf, e.item);
    EntryIffCaptured(c, es, n);
    var j := Find(c, Name(e.leaf));
    if Only(es, n) != [] {
      var f := Only(es, n)[0];
      assert f in Only(es, n);
      OrderlyPair(es, e, f);
      assert HoldsAll(c[j], es);
      OneMore(Only(es, n), e);
      GathersMore(c, es, e, j, c[j].(value := Plus(c[j].value, Increment(e.leaf, m))));
    } else {
      FirstValue(e);
      if Accumulates(e.leaf) {
        GathersNew(c, es, e, m.(value := Increment(e.leaf, m)));
      } else {
        GathersNew(c, es, e, m);
      }
    }
  }

  lemma FirstValue(e: Event)
    requires OrderlyEvent(e)
    ensures var m := MatchOf(e.leaf, e.item);
            Gathered([e]) == if Accumulates(e.leaf) then Increment(e.leaf, m) else m.value
  {
    if e.leaf.value.Texts? {
      assert TextsOf([e]) == [e.item.value.text];
    }
  }

  lemma {:induction false} CollectAllGathers(es: seq<Event>)
    requires Orderly(es)
    ensures Gathers(CollectAll([], es), es)
    decreases |es|
  {
    if es != [] {
      var ds, e := es[..|es| - 1], es[|es| - 1];
      assert es == ds + [e];
      CollectAllGathers(ds);
      CollectAllConcat([], ds, [e]);
      CollectOne(CollectAll([], ds), e);
      CollectGathers(CollectAll([], ds), ds, e);
    }
  }

  // ---------- the events of a fixed tree are well behaved ----------

  lemma {:induction false} UsesTwice(es: seq<Event>, i: nat, j: nat)
    requires i < j < |es| && es[i].leaf == es[j].leaf
    ensures Uses(es, es[i].leaf) >= 2
  {
    if i == 0 {
      UsesOnce(es[1..], j - 1);
    } else {
      UsesTwice(es[1..], i - 1, j - 1);
    }
  }

  lemma {:induction false} UsesOnce(es: seq<Event>, i: nat)
    requires i < |es|
    ensures Uses(es, es[i].leaf) >= 1
  {
    if i > 0 {
      UsesOnce(es[1..], i - 1);
    }
  }

  /** A leaf of the fixed tree comes from a leaf of the tree. */
  lemma FixedLeafOrigin(p: Tree, k: Element) returns (l: Element)
    requires k in Leaves(Fixed(p))
    ensures l in Leaves(p) && k == FixedLeaf(p, l)
  {
    LeavesMap(p, l => FixedLeaf(p, l));
    var i :| 0 <= i < |Leaves(Fixed(p))| && Leaves(Fixed(p))[i] == k;
    l := Leaves(p)[i];
  }

  lemma WordsOfFixedAreOrderly(p: Tree, argv: seq<Element>, es: seq<Event>)
    requires WellFormed(p) && TypedArgv(Leaves(p), argv)
    requires InLang(Fixed(p), es)
    requires forall e :: e in es ==> e.item in argv
    ensures Orderly(es)
  {
    forall e | e in es
      ensures OrderlyEvent(e)
    {
      WordLeaves(Fixed(p), es, e);
      var l := FixedLeafOrigin(p, e.leaf);
      assert Fresh(l) && Fits(l, e.item);
    }
    forall i, j | 0 <= i < j < |es| && Name(es[i].leaf) == Name(es[j].leaf)
      ensures es[i].leaf == es[j].leaf && Accumulates(es[i].leaf)
    {
      WordLeaves(Fixed(p), es, es[i]);
      WordLeaves(Fixed(p), es, es[j]);
      var k := FixedLeafOrigin(p, es[i].leaf);
      var l := FixedLeafOrigin(p, es[j].leaf);
      assert Name(k) == Name(l);
      assert k == l;
      UsesTwice(es, i, j);
      if !Accumulates(es[i].leaf) {
        PlainUsedOnce(p, es, k);
      }
    }
  }

  lemma EventItems(es: seq<Event>, left: seq<Element>, rest: seq<Element>)
    requires Takes(left, Items(es), rest)
    ensures forall e :: e in es ==> e.item in left
  {
    TakesExactly(left, Items(es), rest);
    forall e | e in es
      ensures e.item in left
    {
      var i :| 0 <= i < |es| && es[i] == e;
      assert Items(es)[i] == e.item;
      assert e.item in multiset(Items(es));
      assert e.item in multiset(left);
    }
  }

  // ---------- the dictionary docopt returns ----------

  /** `Dict((a.name, a.value) for a in es)`: a later element overrides an earlier one. */
  function DictOf(es: seq<Element>): map<Option<string>, Value> {
    if es == [] then map[] else
      var a := es[|es| - 1];
      DictOf(es[..|es| - 1])[Name(a) := a.value]
  }

  lemma {:induction false} DictOfAt(es: seq<Element>, i: nat)
    requires i < |es|
    requires forall j :: 0 <= j < |es| && Name(es[j]) == Name(es[i]) && i < j ==> es[j].value == es[i].value
    ensures Name(es[i]) in DictOf(es) && DictOf(es)[Name(es[i])] == es[i].value
  {
    if i < |es| - 1 {
      DictOfAt(es[..|es| - 1], i);
    }
  }

  /** docopt.py:578-580 on a parsed pattern and argv, every outcome owning what it collected.
      Reporting.dfy has the same on shared objects. */
  ghost function Docopt(p: Tree, argv: seq<Element>): Option<map<Option<string>, Value>>
    requires Matchable(p)
  {
    MatchableMap(p, l => FixedLeaf(p, l));
    var o := Match(Fixed(p), argv, []);
    if o.matched && o.left == [] then Some(DictOf(Leaves(Fixed(p)) + o.collected)) else None
  }

  /** No captured value is overwritten: after `fix`, a successful match has exactly one entry
      for each name that took something, and the entry holds all of what the name took. */
  lemma NothingOverwritten(p: Tree, argv: seq<Element>) returns (es: seq<Event>)
    requires WellFormed(p) && TypedArgv(Leaves(p), argv)
    requires Matchable(Fixed(p))
    requires Match(Fixed(p), argv, []).matched
    ensures var o := Match(Fixed(p), argv, []);
            && Gathers(o.collected, es)
            && InLang(Fixed(p), es) && es == RunOf(Fixed(p), argv).events
            && TakesInOrder(argv, es, o.left) && Takes(argv, Items(es), o.left)
  {
    MatchIsRun(Fixed(p), argv, []);
    RunIsSound(Fixed(p), argv);
    var r := RunOf(Fixed(p), argv);
    es := r.events;
    OrderTakes(argv, es, r.left);
    EventItems(es, argv, r.left);
    WordsOfFixedAreOrderly(p, argv, es);
    CollectAllGathers(es);
  }

  /** The value `n` has in the result: what was captured, or the default of its leaf. */
  ghost predicate Reports(result: map<Option<string>, Value>, p: Tree, es: seq<Event>, l: Element) {
    && Name(l) in result
    && result[Name(l)] == if Only(es, Name(l)) == [] then FixedLeaf(p, l).value else Gathered(Only(es, Name(l)))
  }

  /** In the value reading: when docopt accepts, the argv elements are split among the leaves
      with none left over, and the result reports for each leaf everything it took. */
  lemma EverythingReported(p: Tree, argv: seq<Element>) returns (es: seq<Event>)
    requires WellFormed(p) && TypedArgv(Leaves(p), argv)
    requires Docopt(p, argv).Some?
    ensures InLang(Fixed(p), es)
    ensures multiset(Items(es)) == multiset(argv)
    ensures forall l :: l in Leaves(p) ==> Reports(Docopt(p, argv).value, p, es, l)
  {
    MatchableMap(p, l => FixedLeaf(p, l));
    es := NothingOverwritten(p, argv);
    var o := Match(Fixed(p), argv, []);
    TakesExactly(argv, Items(es), []);
    forall l | l in Leaves(p)
      ensures Reports(Docopt(p, argv).value, p, es, l)
    {
      LeafReported(p, o.collected, es, l);
    }
  }

  lemma LeafReported(p: Tree, c: seq<Element>, es: seq<Event>, l: Element)
    requires WellFormed(p) && Gathers(c, es) && l in Leaves(p)
    ensures Reports(DictOf(Leaves(Fixed(p)) + c), p, es, l)
  {
    var ls := Leaves(Fixed(p));
    EntryIffCaptured(c, es, Name(l));
    var j := Find(c, Name(l));
    if j < |c| {
      assert HoldsAll(c[j], es);
      EntryWins(ls, c, j);
    } else {
      LeavesMap(p, l => FixedLeaf(p, l));
      var i :| 0 <= i < |Leaves(p)| && Leaves(p)[i] == l;
      DefaultStays(p, c, i);
    }
  }

  /** A collected entry overrides the leaves. */
  lemma EntryWins(ls: seq<Element>, c: seq<Element>, j: nat)
    requires DistinctNames(c) && j < |c|
    ensures var d := DictOf(ls + c); Name(c[j]) in d && d[Name(c[j])] == c[j].value
  {
    var all := ls + c;
    forall k | |ls| + j < k < |all|
      ensures Name(all[k]) != Name(c[j])
    {
      assert all[k] == c[k - |ls|];
    }
    assert all[|ls| + j] == c[j];
    DictOfAt(all, |ls| + j);
  }

  /** A leaf nothing was collected for keeps its value. */
  lemma DefaultStays(p: Tree, c: seq<Element>, i: nat)
    requires WellFormed(p) && i < |Leaves(p)| == |Leaves(Fixed(p))|
    requires forall j :: 0 <= j < |c| ==> Name(c[j]) != Name(Leaves(p)[i])
    ensures var d, l := DictOf(Leaves(Fixed(p)) + c), Leaves(p)[i];
            Name(l) in d && d[Name(l)] == FixedLeaf(p, l).value
  {
    LeavesMap(p, l => FixedLeaf(p, l));
    SameNameSameLeaf(p, c, i);
    assert (Leaves(Fixed(p)) + c)[i] == FixedLeaf(p, Leaves(p)[i]);
    DictOfAt(Leaves(Fixed(p)) + c, i);
  }

  lemma SameNameSameLeaf(p: Tree, c: seq<Element>, i: nat)
    requires WellFormed(p) && i < |Leaves(p)| == |Leaves(Fixed(p))|
    requires forall j :: 0 <= j < |c| ==> Name(c[j]) != Name(Leaves(p)[i])
    ensures var all := Leaves(Fixed(p)) + c;
            forall j :: 0 <= j < |all| && Name(all[j]) == Name(all[i]) ==> all[j].value == all[i].value
  {
    var ls := Leaves(Fixed(p));
    LeavesMap(p, l => FixedLeaf(p, l));
    var all := ls + c;
    assert Name(ls[i]) == Name(Leaves(p)[i]);
    forall j | 0 <= j < |ls| && Name(all[j]) == Name(all[i])
      ensures all[j].value == all[i].value
    {
      assert ls[j] == FixedLeaf(p, Leaves(p)[j]);
      assert Name(Leaves(p)[j]) == Name(Leaves(p)[i]);
    }
    assert forall j :: |ls| <= j < |all| ==> all[j] == c[j - |ls|];
  }

  // ---------- conservation ----------

  /** What an entry weighs: an int counts for itself, a list for its length, the rest for 1. */
  function Weight(v: Value): int {
    match v
    case Count(n) => n
    case Texts(ss) => |ss|
    case _ => 1
  }

  function TotalWeight(c: seq<Element>): int {
    if c == [] then 0 else Weight(c[0].value) + TotalWeight(c[1..])
  }

  /** Entries with the name of an accumulating leaf hold what that leaf adds to. */
  ghost predicate Compatible(ls: seq<Element>, c: seq<Element>) {
    forall l, a :: l in ls && a in c && Name(l) == Name(a) ==>
      (l.value.Count? ==> a.value.Count?) && (l.value.Texts? ==> a.value.Texts?)
  }

  lemma {:induction false} WeightConcat(c: seq<Element>, d: seq<Element>)
    ensures TotalWeight(c + d) == TotalWeight(c) + TotalWeight(d)
  {
    if c == [] {
      assert c + d == d;
    } else {
      assert (c + d)[0] == c[0] && (c + d)[1..] == c[1..] + d;
      WeightConcat(c[1..], d);
    }
  }

  lemma WeightUpdate(c: seq<Element>, j: nat, a: Element)
    requires j < |c|
    ensures TotalWeight(c[j := a]) == TotalWeight(c) - Weight(c[j].value) + Weight(a.value)
  {
    assert c == c[..j] + ([c[j]] + c[j + 1..]);
    assert c[j := a] == c[..j] + ([a] + c[j + 1..]);
    WeightConcat(c[..j], [c[j]] + c[j + 1..]);
    WeightConcat(c[..j], [a] + c[j + 1..]);
    assert ([c[j]] + c[j + 1..])[1..] == c[j + 1..] == ([a] + c[j + 1..])[1..];
  }

  lemma WeightAppend(c: seq<Element>, a: Element)
    ensures TotalWeight(c + [a]) == TotalWeight(c) + Weight(a.value)
  {
    WeightConcat(c, [a]);
    assert [a][1..] == [];
  }

  lemma SameName(ls: seq<Element>, k: Element, l: Element)
    requires Consistent(ls) && k in ls && l in ls && Name(k) == Name(l)
    ensures k == l
  {
    var i :| 0 <= i < |ls| && ls[i] == k;
    var j :| 0 <= j < |ls| && ls[j] == l;
  }

  lemma EntryFits(ls: seq<Element>, l: Element, a: Element)
    requires Consistent(ls) && l in ls && Name(a) == Name(l)
    requires (l.value.Count? ==> a.value.Count?) && (l.value.Texts? ==> a.value.Texts?)
    ensures Compatible(ls, [a])
  {
    forall k | k in ls && Name(k) == Name(a)
      ensures k == l
    {
      SameName(ls, k, l);
    }
  }

  lemma PlusWeighsOne(e: Event, v: Value)
    requires OrderlyEvent(e) && Accumulates(e.leaf)
    requires (e.leaf.value.Count? ==> v.Count?) && (e.leaf.value.Texts? ==> v.Texts?)
    ensures var w := Plus(v, Increment(e.leaf, MatchOf(e.leaf, e.item)));
            Weight(w) == Weight(v) + 1 && w.Count? == v.Count? && w.Texts? == v.Texts?
  {
  }

  /** One event adds one to the weight. */
  lemma CollectWeighsOne(ls: seq<Element>, c: seq<Element>, e: Event)
    requires Consistent(ls) && Compatible(ls, c)
    requires e.leaf in ls && OrderlyEvent(e)
    ensures var c' := Collect(c, e.leaf, MatchOf(e.leaf, e.item));
            TotalWeight(c') == TotalWeight(c) + 1 && Compatible(ls, c')
  {
    var c' := Collect(c, e.leaf, MatchOf(e.leaf, e.item));
    var j := Find(c, Name(e.leaf));
    if Accumulates(e.leaf) && j < |c| {
      assert c[j] in c;
      PlusWeighsOne(e, c[j].value);
      EntryFits(ls, e.leaf, c'[j]);
      WeightUpdate(c, j, c'[j]);
      CompatibleUpdate(ls, c, j, c'[j]);
    } else {
      MatchKeepsName(e.leaf, e.item);
      EntryFits(ls, e.leaf, c'[|c|]);
      WeightAppend(c, c'[|c|]);
      assert c' == c + [c'[|c|]];
      assert Compatible(ls, c');
    }
  }

  lemma CompatibleUpdate(ls: seq<Element>, c: seq<Element>, j: nat, a: Element)
    requires Compatible(ls, c) && Compatible(ls, [a]) && j < |c|
    ensures Compatible(ls, c[j := a])
  {
    forall b | b in c[j := a]
      ensures b in c || b in [a]
    {
    }
  }

  lemma {:induction false} CollectAllWeighs(ls: seq<Element>, c: seq<Element>, es: seq<Event>)
    requires Consistent(ls) && Compatible(ls, c)
    requires forall e :: e in es ==> e.leaf in ls && OrderlyEvent(e)
    ensures TotalWeight(CollectAll(c, es)) == TotalWeight(c) + |es|
    decreases |es|
  {
    if es != [] {
      CollectWeighsOne(ls, c, es[0]);
      CollectAllWeighs(ls, Collect(c, es[0].leaf, MatchOf(es[0].leaf, es[0].item)), es[1..]);
    }
  }

  /** Leaves as they are before or after `fix`. */
  ghost predicate Ready(ls: seq<Element>) {
    && Consistent(ls)
    && forall l :: l in ls ==> Name(l).Some? && (l.value.Texts? ==> TakesText(l))
  }

  /** Conservation: a successful match adds to the weight of what is collected exactly the
      number of argv elements it removes, for every tree, fixed or not. */
  lemma WeightConserved(p: Tree, left: seq<Element>, collected: seq<Element>)
    requires Matchable(p)
    requires Ready(Leaves(p)) && TypedArgv(Leaves(p), left) && Compatible(Leaves(p), collected)
    ensures var o := Match(p, left, collected);
            TotalWeight(o.collected) - TotalWeight(collected) == |left| - |o.left|
  {
    MatchIsRun(p, left, collected);
    RunIsSound(p, left);
    var r := RunOf(p, left);
    if r.matched {
      OrderTakes(left, r.events, r.left);
      TakesExactly(left, Items(r.events), r.left);
      EventItems(r.events, left, r.left);
      forall e | e in r.events
        ensures e.leaf in Leaves(p) && OrderlyEvent(e)
      {
        WordLeaves(p, r.events, e);
      }
      CollectAllWeighs(Leaves(p), collected, r.events);
    }
  }
}
