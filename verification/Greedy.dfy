/** When the greedy matcher is complete: patterns on which it accepts everything they accept.

The matcher never backs out of an Optional, a OneOrMore or the branch an Either chose.  That
does no harm when no leaf inside one of these competes with a later leaf for an argv element:
two options of one name do, and any two words.  What takes the same number of elements of each
kind in all its words (`Shape`) has nothing to back out of and may be followed by anything.
Words that may be left out may compete among themselves if nothing required comes after them
(`Filler`): they fill up from the left.
 */
module Greedy {
  import opened Basics
  import opened Elements
  import opened Patterns
  import opened Matcher
  import opened Language
  import opened Repeats
  import opened Capture

  /** What a leaf competes for: the options of its name, or the words. */
  type Class = Option<string>

  function ClassOf(leaf: Element): Class {
    if leaf.Opt? then Name(leaf) else None
  }

  /** Parsed argv: only words have no name. */
  predicate Clean(l: seq<Element>) {
    forall i :: 0 <= i < |l| ==> (l[i].Argument? <==> Name(l[i]).None?)
  }

  function Classes(p: Tree): set<Class>
    decreases p, 0
  {
    if p.Leaf? then {ClassOf(p.leaf)} else ClassesOf(p.children)
  }

  function ClassesOf(cs: seq<Tree>): set<Class>
    decreases cs, 0
  {
    if cs == [] then {} else Classes(cs[0]) + ClassesOf(cs[1..])
  }

  /** How many elements of each class every word of the pattern takes, if all take the same. */
  function Shape(p: Tree): Option<multiset<Class>>
    decreases p, 0
  {
    match p
    case Leaf(self) => Some(multiset{ClassOf(self)})
    case Required(cs) => ShapeAll(cs)
    case Either(cs) =>
      if cs != [] && forall i :: 0 <= i < |cs| ==> Shape(cs[i]) == Shape(cs[0]) then Shape(cs[0]) else None
    case _ => None
  }

  function ShapeAll(cs: seq<Tree>): Option<multiset<Class>>
    decreases cs, 0
  {
    if cs == [] then Some(multiset{})
    else if Shape(cs[0]).Some? && ShapeAll(cs[1..]).Some? then Some(Shape(cs[0]).value + ShapeAll(cs[1..]).value)
    else None
  }

  /** Takes as many words as there are, up to a limit or without one. */
  predicate Filler(p: Tree)
    decreases p
  {
    match p
    case Leaf(self) => self.Argument?
    case Optional(cs) => forall i :: 0 <= i < |cs| ==> Filler(cs[i])
    case OptionsShortcut(cs) => forall i :: 0 <= i < |cs| ==> Filler(cs[i])
    case OneOrMore(cs) => |cs| == 1 && Filler(cs[0])
    case _ => false
  }

  /** A filler that may as well take nothing. */
  predicate Skippable(p: Tree)
    decreases p
  {
    Filler(p) && (p.Optional? || p.OptionsShortcut? || (p.OneOrMore? && Skippable(p.children[0])))
  }

  predicate AllSkippable(cs: seq<Tree>) {
    forall i :: 0 <= i < |cs| ==> Skippable(cs[i])
  }

  /** Nothing that the matcher would have to back out of. */
  predicate Decisive(p: Tree)
    decreases p, 1
  {
    Shape(p).Some? || Filler(p) ||
    match p
    case Leaf(_) => true
    case Required(cs) => DecisiveAll(cs)
    case Optional(cs) => DecisiveEach(cs)
    case OptionsShortcut(cs) => DecisiveEach(cs)
    case Either(cs) => forall i :: 0 <= i < |cs| ==> Decisive(cs[i])
    case OneOrMore(cs) => |cs| == 1 && Shape(cs[0]).Some?
  }

  /** A member that can take more or less does not compete with those after it, unless they
      only fill up with words. */
  predicate DecisiveAll(cs: seq<Tree>)
    decreases cs, 0
  {
    AllSkippable(cs) || (
      && cs != []
      && Decisive(cs[0]) && DecisiveAll(cs[1..])
      && (Shape(cs[0]).Some? || Classes(cs[0]) !! ClassesOf(cs[1..])))
  }

  /** The members of an Optional can all be skipped. */
  predicate DecisiveEach(cs: seq<Tree>)
    decreases cs, 0
  {
    cs == [] || (Decisive(cs[0]) && DecisiveEach(cs[1..]) && Classes(cs[0]) !! ClassesOf(cs[1..]))
  }

  // ---------- what a word leaves depends on how many of each class it takes ----------

  /** `l` without the first elements of each class, as many as `m` says. */
  function Without(l: seq<Element>, m: multiset<Class>): seq<Element> {
    if l == [] then []
    else if Name(l[0]) in m then Without(l[1..], m - multiset{Name(l[0])})
    else [l[0]] + Without(l[1..], m)
  }

  function Footprint(es: seq<Event>): multiset<Class> {
    if es == [] then multiset{} else multiset{ClassOf(es[0].leaf)} + Footprint(es[1..])
  }

  predicate Exhausted(l: seq<Element>, cs: set<Class>) {
    forall i :: 0 <= i < |l| ==> Name(l[i]) !in cs
  }

  lemma {:induction false} WithoutNone(l: seq<Element>, m: multiset<Class>)
    requires forall i :: 0 <= i < |l| ==> Name(l[i]) !in m
    ensures Without(l, m) == l
  {
    if l != [] {
      WithoutNone(l[1..], m);
    }
  }

  lemma {:induction false} WithoutOne(l: seq<Element>, k: Class)
    requires Find(l, k) < |l|
    ensures Without(l, multiset{k}) == Drop(l, Find(l, k))
  {
    if Name(l[0]) == k {
      assert multiset{k} - multiset{k} == multiset{};
      WithoutNone(l[1..], multiset{});
    } else {
      WithoutOne(l[1..], k);
      assert Drop(l, Find(l, k)) == [l[0]] + Drop(l[1..], Find(l[1..], k));
    }
  }

  lemma {:induction false} WithoutSum(l: seq<Element>, m: multiset<Class>, n: multiset<Class>)
    ensures Without(Without(l, m), n) == Without(l, m + n)
  {
    if l != [] {
      var k := Name(l[0]);
      if k in m {
        WithoutSum(l[1..], m - multiset{k}, n);
        assert m - multiset{k} + n == m + n - multiset{k};
      } else if k in n {
        WithoutSum(l[1..], m, n - multiset{k});
        assert m + (n - multiset{k}) == m + n - multiset{k};
        assert ([l[0]] + Without(l[1..], m))[1..] == Without(l[1..], m);
      } else {
        WithoutSum(l[1..], m, n);
        assert ([l[0]] + Without(l[1..], m))[1..] == Without(l[1..], m);
      }
    }
  }

  lemma {:induction false} FindWord(l: seq<Element>)
    requires Clean(l)
    ensures FindArgument(l) == Find(l, None)
  {
    if l != [] {
      FindWord(l[1..]);
    }
  }

  /** A leaf takes the first element of its class or none. */
  lemma TakesFirst(leaf: Element, l: seq<Element>)
    requires Clean(l)
    ensures SingleMatch(leaf, l) == |l| || SingleMatch(leaf, l) == Find(l, ClassOf(leaf))
  {
    FindWord(l);
  }

  lemma {:induction false} OrderFootprint(l: seq<Element>, es: seq<Event>, rest: seq<Element>)
    requires Clean(l) && TakesInOrder(l, es, rest)
    ensures rest == Without(l, Footprint(es)) && Clean(rest)
    decreases |es|
  {
    if es == [] {
      WithoutNone(l, multiset{});
    } else {
      var leaf := es[0].leaf;
      OrderHead(l, es, rest);
      TakesFirst(leaf, l);
      WithoutOne(l, ClassOf(leaf));
      OrderFootprint(Drop(l, SingleMatch(leaf, l)), es[1..], rest);
      WithoutSum(l, multiset{ClassOf(leaf)}, Footprint(es[1..]));
    }
  }

  lemma {:induction false} FootprintConcat(es: seq<Event>, fs: seq<Event>)
    ensures Footprint(es + fs) == Footprint(es) + Footprint(fs)
  {
    if es == [] {
      assert es + fs == fs;
    } else {
      assert (es + fs)[0] == es[0] && (es + fs)[1..] == es[1..] + fs;
      FootprintConcat(es[1..], fs);
    }
  }

  lemma FootprintSplit(es: seq<Event>, k: nat)
    requires k <= |es|
    ensures Footprint(es) == Footprint(es[..k]) + Footprint(es[k..])
  {
    assert es == es[..k] + es[k..];
    FootprintConcat(es[..k], es[k..]);
  }

  lemma OrderSplit(l: seq<Element>, es: seq<Event>, k: nat, rest: seq<Element>) returns (m: seq<Element>)
    requires k <= |es| && TakesInOrder(l, es, rest)
    ensures TakesInOrder(l, es[..k], m) && TakesInOrder(m, es[k..], rest)
    ensures Clean(l) ==> Clean(m)
  {
    m := OrderHalves(l, es, k, rest);
    if Clean(l) {
      OrderClean(l, es[..k], m);
    }
  }

  lemma {:induction false} OrderHalves(l: seq<Element>, es: seq<Event>, k: nat, rest: seq<Element>) returns (m: seq<Element>)
    requires k <= |es| && TakesInOrder(l, es, rest)
    ensures TakesInOrder(l, es[..k], m) && TakesInOrder(m, es[k..], rest)
    decreases |es|
  {
    if k == 0 {
      m := l;
      assert es[0..] == es;
    } else {
      OrderHead(l, es, rest);
      m := OrderHalves(Drop(l, SingleMatch(es[0].leaf, l)), es[1..], k - 1, rest);
      assert es[k..] == es[1..][k - 1..];
      OrderFront(l, es, k, m);
    }
  }

  lemma {:induction false} OrderClean(l: seq<Element>, es: seq<Event>, m: seq<Element>)
    requires TakesInOrder(l, es, m) && Clean(l)
    ensures Clean(m)
    decreases |es|
  {
    if es != [] {
      OrderHead(l, es, m);
      OrderClean(Drop(l, SingleMatch(es[0].leaf, l)), es[1..], m);
    }
  }

  lemma OrderFront(l: seq<Element>, es: seq<Event>, k: nat, m: seq<Element>)
    requires 0 < k <= |es|
    requires var pos := SingleMatch(es[0].leaf, l);
             pos < |l| && l[pos] == es[0].item && TakesInOrder(Drop(l, pos), es[1..][..k - 1], m)
    ensures TakesInOrder(l, es[..k], m)
  {
    assert es[..k][1..] == es[1..][..k - 1];
    OrderHead(l, es[..k], m);
  }

  // ---------- words take elements of the classes of the pattern ----------

  ghost predicate FromClasses(m: multiset<Class>, cs: set<Class>) {
    forall k :: k in m ==> k in cs
  }

  lemma {:induction false} WordClasses(p: Tree, es: seq<Event>)
    requires InLang(p, es)
    ensures FromClasses(Footprint(es), Classes(p))
    decreases p, 1, 0
  {
    match p
    case Leaf(_) => assert es[1..] == [];
    case Required(cs) => WordAllClasses(cs, es);
    case Optional(cs) => WordEachClasses(cs, es);
    case OptionsShortcut(cs) => WordEachClasses(cs, es);
    case Either(cs) =>
      var i :| 0 <= i < |cs| && InLang(cs[i], es);
      WordClasses(cs[i], es);
      ClassesOfCovers(cs, i);
    case OneOrMore(cs) => WordRepeatClasses(cs, es);
  }

  lemma {:induction false} ClassesOfCovers(cs: seq<Tree>, i: nat)
    requires i < |cs|
    ensures Classes(cs[i]) <= ClassesOf(cs)
  {
    if i > 0 {
      ClassesOfCovers(cs[1..], i - 1);
    }
  }

  lemma {:induction false} WordAllClasses(cs: seq<Tree>, es: seq<Event>)
    requires InAll(cs, es)
    ensures FromClasses(Footprint(es), ClassesOf(cs))
    decreases cs, 0, 0
  {
    if cs != [] {
      var k :| 0 <= k <= |es| && InLang(cs[0], es[..k]) && InAll(cs[1..], es[k..]);
      WordClasses(cs[0], es[..k]);
      WordAllClasses(cs[1..], es[k..]);
      FootprintSplit(es, k);
    }
  }

  lemma {:induction false} WordEachClasses(cs: seq<Tree>, es: seq<Event>)
    requires InEach(cs, es)
    ensures FromClasses(Footprint(es), ClassesOf(cs))
    decreases cs, 0, 0
  {
    if cs != [] {
      var k :| 0 <= k <= |es| && (k == 0 || InLang(cs[0], es[..k])) && InEach(cs[1..], es[k..]);
      if k > 0 {
        WordClasses(cs[0], es[..k]);
      }
      WordEachClasses(cs[1..], es[k..]);
      FootprintSplit(es, k);
    }
  }

  lemma {:induction false} WordRepeatClasses(cs: seq<Tree>, es: seq<Event>)
    requires InRepeat(cs, es)
    ensures FromClasses(Footprint(es), ClassesOf(cs))
    decreases cs, 1, |es|
  {
    if InAll(cs, es) {
      WordAllClasses(cs, es);
    } else {
      var k :| 0 < k <= |es| && InAll(cs, es[..k]) && InRepeat(cs, es[k..]);
      WordAllClasses(cs, es[..k]);
      WordRepeatClasses(cs, es[k..]);
      FootprintSplit(es, k);
    }
  }

  /** A pattern takes nothing where there is nothing of its classes. */
  lemma Idle(p: Tree, l: seq<Element>)
    requires Matchable(p) && Clean(l) && Exhausted(l, Classes(p))
    ensures RunOf(p, l).left == l
  {
    var r := RunOf(p, l);
    if r.matched {
      RunIsSound(p, l);
      WordClasses(p, r.events);
      OrderFootprint(l, r.events, r.left);
      WithoutNone(l, Footprint(r.events));
    }
  }

  /** What other classes take away exhausts nothing. */
  lemma {:induction false} WithoutKeeps(l: seq<Element>, m: multiset<Class>, cs: set<Class>)
    requires (forall k :: k in cs ==> k !in m) && Exhausted(Without(l, m), cs)
    ensures Exhausted(l, cs)
  {
    if l != [] {
      var k := Name(l[0]);
      if k in m {
        WithoutKeeps(l[1..], m - multiset{k}, cs);
      } else {
        var rest := Without(l, m);
        assert rest[0] == l[0] && rest[1..] == Without(l[1..], m);
        WithoutKeeps(l[1..], m, cs);
      }
    }
  }

  /** If a later part, which does not compete, leaves nothing of `cs`, nothing was there. */
  lemma ExhaustedBefore(m: seq<Element>, es: seq<Event>, rest: seq<Element>, cs: set<Class>, ds: set<Class>)
    requires Clean(m) && TakesInOrder(m, es, rest) && FromClasses(Footprint(es), ds)
    requires cs !! ds && Exhausted(rest, cs)
    ensures Exhausted(m, cs)
  {
    OrderFootprint(m, es, rest);
    WithoutKeeps(m, Footprint(es), cs);
  }

  // ---------- a pattern with a shape ----------

  lemma {:induction false} WordShape(p: Tree, es: seq<Event>)
    requires InLang(p, es) && Shape(p).Some?
    ensures Footprint(es) == Shape(p).value
    decreases p, 1, 0
  {
    match p
    case Leaf(_) => assert es[1..] == [];
    case Required(cs) => WordAllShape(cs, es);
    case Either(cs) =>
      var i :| 0 <= i < |cs| && InLang(cs[i], es);
      WordShape(cs[i], es);
  }

  lemma {:induction false} WordAllShape(cs: seq<Tree>, es: seq<Event>)
    requires InAll(cs, es) && ShapeAll(cs).Some?
    ensures Footprint(es) == ShapeAll(cs).value
    decreases cs, 0, 0
  {
    if cs != [] {
      var k :| 0 <= k <= |es| && InLang(cs[0], es[..k]) && InAll(cs[1..], es[k..]);
      WordShape(cs[0], es[..k]);
      WordAllShape(cs[1..], es[k..]);
      FootprintSplit(es, k);
    }
  }

  /** Whenever a word can be taken, the matcher takes one and leaves the same. */
  lemma {:induction false} ShapedRun(p: Tree, l: seq<Element>, es: seq<Event>, rest: seq<Element>)
    requires Matchable(p) && Clean(l) && Shape(p).Some?
    requires InLang(p, es) && TakesInOrder(l, es, rest)
    ensures RunOf(p, l).matched && RunOf(p, l).left == rest
    decreases p, 1, 0
  {
    match p
    case Leaf(_) =>
      assert es[1..] == [];
      OrderHead(l, es, rest);
    case Required(cs) => ShapedAll(cs, l, es, rest);
    case Either(cs) =>
      var i :| 0 <= i < |cs| && InLang(cs[i], es);
      ShapedRun(cs[i], l, es, rest);
      var h := RunAnyHas(cs, l, i);
      ShapedBest(p, l, es, rest, Shortest(RunLefts(RunAny(cs, l))));
  }

  /** All branches of an Either with a shape leave the same. */
  lemma ShapedBest(p: Tree, l: seq<Element>, es: seq<Event>, rest: seq<Element>, k: nat)
    requires Matchable(p) && p.Either? && Clean(l) && Shape(p).Some?
    requires InLang(p, es) && TakesInOrder(l, es, rest) && k < |RunAny(p.children, l)|
    ensures RunAny(p.children, l)[k].left == rest
  {
    var r := RunAny(p.children, l)[k];
    RunAnyIsSound(p.children, l, k);
    WordShape(p, r.events);
    WordShape(p, es);
    OrderFootprint(l, r.events, r.left);
    OrderFootprint(l, es, rest);
  }

  lemma {:induction false} ShapedAll(cs: seq<Tree>, l: seq<Element>, es: seq<Event>, rest: seq<Element>)
    requires AllMatchable(cs) && Clean(l) && ShapeAll(cs).Some?
    requires InAll(cs, es) && TakesInOrder(l, es, rest)
    ensures RunAll(cs, l).matched && RunAll(cs, l).left == rest
    decreases cs, 0, 0
  {
    if cs != [] {
      var k :| 0 <= k <= |es| && InLang(cs[0], es[..k]) && InAll(cs[1..], es[k..]);
      var m := OrderSplit(l, es, k, rest);
      ShapedRun(cs[0], l, es[..k], m);
      ShapedAll(cs[1..], m, es[k..], rest);
    }
  }

  lemma {:induction false} RunAnyHas(cs: seq<Tree>, l: seq<Element>, i: nat) returns (k: nat)
    requires AllMatchable(cs) && i < |cs| && RunOf(cs[i], l).matched
    ensures k < |RunAny(cs, l)| && RunAny(cs, l)[k] == RunOf(cs[i], l)
  {
    if i == 0 {
      k := 0;
    } else {
      k := RunAnyHas(cs[1..], l, i - 1);
      if RunOf(cs[0], l).matched {
        assert RunAny(cs, l) == [RunOf(cs[0], l)] + RunAny(cs[1..], l);
        k := k + 1;
      }
    }
  }

  // ---------- completeness ----------

  /** `l` without the elements of the classes `cs`. */
  function Others(l: seq<Element>, cs: set<Class>): seq<Element> {
    if l == [] then [] else (if Name(l[0]) in cs then [] else [l[0]]) + Others(l[1..], cs)
  }

  /** Taking from `cs` leaves at least the others, and if no more than those, just those. */
  lemma {:induction false} OthersLeast(l: seq<Element>, m: multiset<Class>, cs: set<Class>)
    requires FromClasses(m, cs)
    ensures |Others(l, cs)| <= |Without(l, m)|
    ensures |Without(l, m)| <= |Others(l, cs)| || Exhausted(Without(l, m), cs) ==> Without(l, m) == Others(l, cs)
  {
    if l != [] {
      var k := Name(l[0]);
      if k in m {
        OthersLeast(l[1..], m - multiset{k}, cs);
      } else {
        OthersLeast(l[1..], m, cs);
        var rest := Without(l, m);
        assert rest[0] == l[0] && rest[1..] == Without(l[1..], m);
      }
    }
  }

  // ---------- fillers ----------

  /** How many of `n` words a filler takes. */
  function Fills(p: Tree, n: nat): (m: nat)
    requires Filler(p)
    ensures m <= n
    decreases p, 1
  {
    match p
    case Leaf(_) => if n == 0 then 0 else 1
    case Optional(cs) => FillsEach(cs, n)
    case OptionsShortcut(cs) => FillsEach(cs, n)
    case OneOrMore(cs) => if Fills(cs[0], n) == 0 then 0 else n
  }

  function FillsEach(cs: seq<Tree>, n: nat): (m: nat)
    requires forall i :: 0 <= i < |cs| ==> Filler(cs[i])
    ensures m <= n
    decreases cs, 0
  {
    if cs == [] then 0 else
      var m := Fills(cs[0], n);
      m + FillsEach(cs[1..], n - m)
  }

  function WordCount(l: seq<Element>): nat {
    if l == [] then 0 else One(Name(l[0]).None?) + WordCount(l[1..])
  }

  lemma {:induction false} WordCountDrop(l: seq<Element>, i: nat)
    requires i < |l|
    ensures WordCount(Drop(l, i)) == WordCount(l) - One(Name(l[i]).None?)
  {
    if i == 0 {
      assert Drop(l, 0) == l[1..];
    } else {
      WordCountDrop(l[1..], i - 1);
      assert Drop(l, i) == [l[0]] + Drop(l[1..], i - 1);
      assert Drop(l, i)[1..] == Drop(l[1..], i - 1);
    }
  }

  lemma {:induction false} NoWordsCount(l: seq<Element>)
    ensures WordCount(l) == 0 <==> Find(l, None) == |l|
  {
    if l != [] {
      NoWordsCount(l[1..]);
    }
  }

  lemma CleanRun(p: Tree, l: seq<Element>)
    requires Matchable(p) && Clean(l)
    ensures Clean(RunOf(p, l).left)
  {
    RunIsSound(p, l);
    if RunOf(p, l).matched {
      OrderFootprint(l, RunOf(p, l).events, RunOf(p, l).left);
    }
  }

  /** A filler takes no more and no fewer; it fails only if it takes nothing. */
  lemma {:induction false} FillerRun(p: Tree, l: seq<Element>)
    requires Matchable(p) && Filler(p) && Clean(l)
    ensures var r := RunOf(p, l);
            && WordCount(r.left) == WordCount(l) - Fills(p, WordCount(l))
            && (!r.matched ==> Fills(p, WordCount(l)) == 0) && (Skippable(p) ==> r.matched)
    decreases p, 1, 0, 0
  {
    match p
    case Leaf(self) =>
      FindWord(l);
      NoWordsCount(l);
      var pos := SingleMatch(self, l);
      if pos < |l| {
        WordCountDrop(l, pos);
      }
    case Optional(cs) => FillersRun(cs, l);
    case OptionsShortcut(cs) => FillersRun(cs, l);
    case OneOrMore(cs) =>
      FillerLoop(cs[0], l, true);
      FillerRun(cs[0], l);
  }

  lemma {:induction false} FillersRun(cs: seq<Tree>, l: seq<Element>)
    requires AllMatchable(cs) && (forall i :: 0 <= i < |cs| ==> Filler(cs[i])) && Clean(l)
    ensures WordCount(RunEach(cs, l).left) == WordCount(l) - FillsEach(cs, WordCount(l))
    decreases cs, 0, 0, 0
  {
    if cs != [] {
      var rest := RunOf(cs[0], l).left;
      FillerRun(cs[0], l);
      CleanRun(cs[0], l);
      FillersRun(cs[1..], rest);
      EachUnfolds(cs, l, WordCount(l), WordCount(rest));
    }
  }

  lemma EachUnfolds(cs: seq<Tree>, l: seq<Element>, n: nat, m: nat)
    requires AllMatchable(cs) && cs != [] && forall i :: 0 <= i < |cs| ==> Filler(cs[i])
    requires m == n - Fills(cs[0], n)
    ensures RunEach(cs, l).left == RunEach(cs[1..], RunOf(cs[0], l).left).left
    ensures FillsEach(cs, n) == Fills(cs[0], n) + FillsEach(cs[1..], m)
  {
  }

  /** The loop takes all words or none. */
  lemma {:induction false} FillerLoop(p: Tree, l: seq<Element>, first: bool)
    requires Matchable(p) && Filler(p) && Clean(l)
    ensures var (n, r) := RunLoop(p, l, first);
            && WordCount(r.left) == (if Fills(p, WordCount(l)) == 0 then WordCount(l) else 0)
            && (n == 0 <==> !RunOf(p, l).matched)
    decreases p, 2, if first then 1 else 0, |l|
  {
    var r := RunOf(p, l);
    FillerRun(p, l);
    CleanRun(p, l);
    FillsSome(p, WordCount(l), WordCount(r.left));
    if r.matched && (first || r.left != l) {
      RunGoesOn(p, l, first);
      FillerLoop(p, r.left, false);
    } else if r.matched {
      assert r.left == l;
    }
  }

  /** A filler that can take a word takes one whenever there is one. */
  lemma {:induction false} FillsSome(p: Tree, n: nat, m: nat)
    requires Filler(p)
    ensures Fills(p, n) > 0 && m > 0 ==> Fills(p, m) > 0
    decreases p, 1
  {
    match p
    case Leaf(_) =>
    case Optional(cs) => FillsSomeEach(cs, n, m);
    case OptionsShortcut(cs) => FillsSomeEach(cs, n, m);
    case OneOrMore(cs) => FillsSome(cs[0], n, m);
  }

  lemma {:induction false} FillsSomeEach(cs: seq<Tree>, n: nat, m: nat)
    requires forall i :: 0 <= i < |cs| ==> Filler(cs[i])
    ensures FillsEach(cs, n) > 0 && m > 0 ==> FillsEach(cs, m) > 0
    decreases cs, 0
  {
    if cs != [] {
      FillsSome(cs[0], n, m);
      FillsSomeEach(cs[1..], n - Fills(cs[0], n), m - Fills(cs[0], m));
    }
  }

  /** No word of a filler is longer than what it takes when there is enough, and the empty word
      is one only if it never fails. */
  lemma {:induction false} FillerWord(p: Tree, es: seq<Event>, n: nat)
    requires Filler(p) && InLang(p, es)
    ensures Fills(p, n) >= if |es| < n then |es| else n
    ensures es == [] ==> Skippable(p)
    decreases p, 1, 0
  {
    match p
    case Leaf(_) =>
    case Optional(cs) => FillersWord(cs, es, n);
    case OptionsShortcut(cs) => FillersWord(cs, es, n);
    case OneOrMore(cs) => RepeatWord(cs, es, n);
  }

  lemma {:induction false} FillersWord(cs: seq<Tree>, es: seq<Event>, n: nat)
    requires (forall i :: 0 <= i < |cs| ==> Filler(cs[i])) && InEach(cs, es)
    ensures FillsEach(cs, n) >= if |es| < n then |es| else n
    decreases cs, 0, 0
  {
    if cs != [] {
      var k :| 0 <= k <= |es| && (k == 0 || InLang(cs[0], es[..k])) && InEach(cs[1..], es[k..]);
      if k > 0 {
        FillerWord(cs[0], es[..k], n);
      }
      FillersWord(cs[1..], es[k..], n - Fills(cs[0], n));
    }
  }

  lemma {:induction false} RepeatWord(cs: seq<Tree>, es: seq<Event>, n: nat)
    requires |cs| == 1 && Filler(cs[0]) && InRepeat(cs, es)
    ensures es != [] && n > 0 ==> Fills(cs[0], n) > 0
    ensures es == [] ==> Skippable(cs[0])
    decreases cs, 1, |es|
  {
    if InAll(cs, es) {
      OneRound(cs, es);
      FillerWord(cs[0], es, n);
    } else {
      var k :| 0 < k <= |es| && InAll(cs, es[..k]) && InRepeat(cs, es[k..]);
      OneRound(cs, es[..k]);
      FillerWord(cs[0], es[..k], n);
    }
  }

  lemma {:induction false} FillerClasses(p: Tree)
    requires Filler(p)
    ensures Classes(p) <= {None}
    decreases p
  {
    if !p.Leaf? {
      forall i | 0 <= i < |p.children|
        ensures Classes(p.children[i]) <= {None}
      {
        FillerClasses(p.children[i]);
      }
      ClassesWithin(p.children, {None});
    }
  }

  lemma {:induction false} ClassesWithin(cs: seq<Tree>, ks: set<Class>)
    requires forall i :: 0 <= i < |cs| ==> Classes(cs[i]) <= ks
    ensures ClassesOf(cs) <= ks
  {
    if cs != [] {
      ClassesWithin(cs[1..], ks);
    }
  }

  /** Taking words from `l` with none left over leaves the others. */
  lemma WordsTaken(l: seq<Element>, es: seq<Event>, rest: seq<Element>)
    requires Clean(l) && TakesInOrder(l, es, rest) && FromClasses(Footprint(es), {None})
    ensures WordCount(rest) == WordCount(l) - |es|
    ensures WordCount(rest) == 0 ==> rest == Others(l, {None})
  {
    WordsCounted(l, es, rest);
    OrderFootprint(l, es, rest);
    OthersLeast(l, Footprint(es), {None});
    NoWordsCount(rest);
    if WordCount(rest) == 0 {
      assert Exhausted(rest, {None});
    }
  }

  lemma {:induction false} WordsCounted(l: seq<Element>, es: seq<Event>, rest: seq<Element>)
    requires Clean(l) && TakesInOrder(l, es, rest) && FromClasses(Footprint(es), {None})
    ensures WordCount(rest) == WordCount(l) - |es|
    decreases |es|
  {
    if es != [] {
      var pos := SingleMatch(es[0].leaf, l);
      OrderHead(l, es, rest);
      WordsRest(es);
      TakesFirst(es[0].leaf, l);
      WordCountDrop(l, pos);
      WordsCounted(Drop(l, pos), es[1..], rest);
    }
  }

  lemma WordsRest(es: seq<Event>)
    requires es != [] && FromClasses(Footprint(es), {None})
    ensures ClassOf(es[0].leaf) == None && FromClasses(Footprint(es[1..]), {None})
  {
    assert ClassOf(es[0].leaf) in Footprint(es);
  }

  /** If some word of a filler takes all the words there are, so does the matcher. */
  lemma FillerTakesAll(p: Tree, l: seq<Element>, es: seq<Event>, rest: seq<Element>)
    requires Matchable(p) && Clean(l) && Filler(p)
    requires InLang(p, es) && TakesInOrder(l, es, rest) && WordCount(rest) == 0
    ensures RunOf(p, l).matched && RunOf(p, l).left == rest
  {
    var r := RunOf(p, l);
    FillerClasses(p);
    WordClasses(p, es);
    WordsTaken(l, es, rest);
    FillerWord(p, es, WordCount(l));
    FillerRun(p, l);
    RunIsSound(p, l);
    if r.matched {
      WordClasses(p, r.events);
      WordsTaken(l, r.events, r.left);
    }
  }

  lemma {:induction false} AllIsEach(cs: seq<Tree>, l: seq<Element>)
    requires AllMatchable(cs) && AllSkippable(cs) && Clean(l)
    ensures RunAll(cs, l) == RunEach(cs, l)
    decreases cs
  {
    if cs != [] {
      FillerRun(cs[0], l);
      CleanRun(cs[0], l);
      AllIsEach(cs[1..], RunOf(cs[0], l).left);
    }
  }

  lemma {:induction false} InAllIsInEach(cs: seq<Tree>, es: seq<Event>)
    requires InAll(cs, es)
    ensures InEach(cs, es)
    decreases cs
  {
    if cs != [] {
      var k :| 0 <= k <= |es| && InLang(cs[0], es[..k]) && InAll(cs[1..], es[k..]);
      InAllIsInEach(cs[1..], es[k..]);
    }
  }

  /** Skippable members in a row are like those of an Optional. */
  lemma SkippablesTakeAll(cs: seq<Tree>, l: seq<Element>, es: seq<Event>, rest: seq<Element>)
    requires AllMatchable(cs) && Clean(l) && AllSkippable(cs)
    requires InAll(cs, es) && TakesInOrder(l, es, rest) && Exhausted(rest, ClassesOf(cs))
    ensures RunAll(cs, l).matched && RunAll(cs, l).left == rest
  {
    var p := Optional(cs);
    AllIsEach(cs, l);
    InAllIsInEach(cs, es);
    ExhaustsWords(p, l, es, rest);
  }

  lemma TakesNothing(es: seq<Event>, ks: set<Class>)
    requires FromClasses(Footprint(es), ks) && ks == {}
    ensures es == []
  {
    assert es != [] ==> ClassOf(es[0].leaf) in Footprint(es);
  }

  /** A filler that leaves nothing it could take, or could take nothing. */
  lemma ExhaustsWords(p: Tree, l: seq<Element>, es: seq<Event>, rest: seq<Element>)
    requires Matchable(p) && Clean(l) && Filler(p)
    requires InLang(p, es) && TakesInOrder(l, es, rest) && Exhausted(rest, Classes(p))
    ensures RunOf(p, l).matched && RunOf(p, l).left == rest
  {
    FillerClasses(p);
    WordClasses(p, es);
    if None in Classes(p) {
      NoWordsCount(rest);
      FillerTakesAll(p, l, es, rest);
    } else {
      TakesNothing(es, Classes(p));
      FillerWord(p, es, 0);
      FillerRun(p, l);
      Idle(p, l);
    }
  }

  /** If some word of a decisive pattern takes all there is of its classes, the matcher
      matches and leaves the same. */
  lemma {:induction false} DecisiveRun(p: Tree, l: seq<Element>, es: seq<Event>, rest: seq<Element>)
    requires Matchable(p) && Clean(l) && Decisive(p)
    requires InLang(p, es) && TakesInOrder(l, es, rest) && Exhausted(rest, Classes(p))
    ensures RunOf(p, l).matched && RunOf(p, l).left == rest
    decreases p, 1, 0
  {
    if Shape(p).Some? {
      ShapedRun(p, l, es, rest);
    } else if Filler(p) {
      ExhaustsWords(p, l, es, rest);
    } else {
      match p
      case Required(cs) => DecisiveAllRun(cs, l, es, rest);
      case Optional(cs) => DecisiveEachRun(cs, l, es, rest);
      case OptionsShortcut(cs) => DecisiveEachRun(cs, l, es, rest);
      case OneOrMore(cs) => DecisiveLoop(cs, l, es, rest, true);
      case Either(cs) =>
        var i :| 0 <= i < |cs| && InLang(cs[i], es);
        ClassesOfCovers(cs, i);
        DecisiveRun(cs[i], l, es, rest);
        var k := RunAnyHas(cs, l, i);
        DecisiveBest(p, l, es, rest, k);
    }
  }

  /** The branch with the shortest rest leaves what the word leaves. */
  lemma DecisiveBest(p: Tree, l: seq<Element>, es: seq<Event>, rest: seq<Element>, k: nat)
    requires Matchable(p) && p.Either? && Clean(l)
    requires InLang(p, es) && TakesInOrder(l, es, rest) && Exhausted(rest, Classes(p))
    requires k < |RunAny(p.children, l)| && RunAny(p.children, l)[k].left == rest
    ensures RunOf(p, l).matched && RunOf(p, l).left == rest
  {
    var cs := p.children;
    var best := RunAny(cs, l)[Shortest(RunLefts(RunAny(cs, l)))];
    RunIsSound(p, l);
    WordClasses(p, best.events);
    WordClasses(p, es);
    OrderFootprint(l, best.events, best.left);
    OrderFootprint(l, es, rest);
    OthersLeast(l, Footprint(es), Classes(p));
    OthersLeast(l, Footprint(best.events), Classes(p));
  }

  lemma {:induction false} DecisiveAllRun(cs: seq<Tree>, l: seq<Element>, es: seq<Event>, rest: seq<Element>)
    requires AllMatchable(cs) && Clean(l) && DecisiveAll(cs)
    requires InAll(cs, es) && TakesInOrder(l, es, rest) && Exhausted(rest, ClassesOf(cs))
    ensures RunAll(cs, l).matched && RunAll(cs, l).left == rest
    decreases cs, 0, 0
  {
    if AllSkippable(cs) {
      SkippablesTakeAll(cs, l, es, rest);
    } else {
      var k :| 0 <= k <= |es| && InLang(cs[0], es[..k]) && InAll(cs[1..], es[k..]);
      var m := OrderSplit(l, es, k, rest);
      if Shape(cs[0]).Some? {
        ShapedRun(cs[0], l, es[..k], m);
      } else {
        WordAllClasses(cs[1..], es[k..]);
        ExhaustedBefore(m, es[k..], rest, Classes(cs[0]), ClassesOf(cs[1..]));
        DecisiveRun(cs[0], l, es[..k], m);
      }
      DecisiveAllRun(cs[1..], m, es[k..], rest);
    }
  }

  lemma {:induction false} DecisiveEachRun(cs: seq<Tree>, l: seq<Element>, es: seq<Event>, rest: seq<Element>)
    requires AllMatchable(cs) && Clean(l) && DecisiveEach(cs)
    requires InEach(cs, es) && TakesInOrder(l, es, rest) && Exhausted(rest, ClassesOf(cs))
    ensures RunEach(cs, l).left == rest
    decreases cs, 0, 0
  {
    if cs != [] {
      var k :| 0 <= k <= |es| && (k == 0 || InLang(cs[0], es[..k])) && InEach(cs[1..], es[k..]);
      var m := OrderSplit(l, es, k, rest);
      WordEachClasses(cs[1..], es[k..]);
      ExhaustedBefore(m, es[k..], rest, Classes(cs[0]), ClassesOf(cs[1..]));
      if k == 0 {
        Idle(cs[0], l);
      } else {
        DecisiveRun(cs[0], l, es[..k], m);
      }
      DecisiveEachRun(cs[1..], m, es[k..], rest);
    }
  }

  lemma OneRound(cs: seq<Tree>, es: seq<Event>)
    requires |cs| == 1 && InAll(cs, es)
    ensures InLang(cs[0], es)
  {
    var k :| 0 <= k <= |es| && InLang(cs[0], es[..k]) && InAll(cs[1..], es[k..]);
    assert es[..k] == es;
  }

  /** A round after which nothing is left to take. */
  lemma LastShapedRound(p: Tree, l: seq<Element>, rest: seq<Element>, first: bool)
    requires Matchable(p) && Clean(rest) && Exhausted(rest, Classes(p))
    requires RunOf(p, l).matched && RunOf(p, l).left == rest
    ensures var (n, r) := RunLoop(p, l, first); n >= 1 && r.left == rest
  {
    Idle(p, rest);
    if first || rest != l {
      RunGoesOn(p, l, first);
      assert RunLoop(p, rest, false).1.left == rest;
    }
  }

  lemma {:induction false} DecisiveLoop(cs: seq<Tree>, l: seq<Element>, es: seq<Event>, rest: seq<Element>, first: bool)
    requires |cs| == 1 && Matchable(cs[0]) && Clean(l) && Shape(cs[0]).Some?
    requires InRepeat(cs, es) && TakesInOrder(l, es, rest) && Exhausted(rest, ClassesOf(cs))
    ensures var (n, r) := RunLoop(cs[0], l, first); n >= 1 && r.left == rest
    decreases |es|
  {
    var p := cs[0];
    if InAll(cs, es) {
      OneRound(cs, es);
      ShapedRun(p, l, es, rest);
      OrderFootprint(l, es, rest);
      LastShapedRound(p, l, rest, first);
    } else {
      var k :| 0 < k <= |es| && InAll(cs, es[..k]) && InRepeat(cs, es[k..]);
      var m := OrderSplit(l, es, k, rest);
      OneRound(cs, es[..k]);
      ShapedRun(p, l, es[..k], m);
      OrderTakes(l, es[..k], m);
      TakesExactly(l, Items(es[..k]), m);
      RunGoesOn(p, l, first);
      DecisiveLoop(cs, m, es[k..], rest, false);
    }
  }

  /** On a decisive pattern the matcher accepts exactly what the pattern accepts. */
  lemma GreedyIsComplete(p: Tree, argv: seq<Element>, collected: seq<Element>)
    requires Matchable(p) && Decisive(p) && Clean(argv)
    ensures var o := Match(p, argv, collected);
            o.matched && o.left == [] <==> exists es :: InLang(p, es) && TakesInOrder(argv, es, [])
  {
    MatchIsRun(p, argv, collected);
    RunIsSound(p, argv);
    var r := RunOf(p, argv);
    assert r.matched && r.left == [] ==> InLang(p, r.events) && TakesInOrder(argv, r.events, []);
    if es :| InLang(p, es) && TakesInOrder(argv, es, []) {
      DecisiveRun(p, argv, es, []);
    }
  }

  /** `[<a> <b>]`, `[<a> [<b>]]`, `[<a>]...` and `<x> [<a>] [<b>]`. */
  lemma OptionalWordsAreDecisive(a: Element, b: Element, x: Element)
    requires a.Argument? && b.Argument? && x.Argument?
    ensures Decisive(Optional([Leaf(a), Leaf(b)]))
    ensures Decisive(Optional([Leaf(a), Optional([Leaf(b)])]))
    ensures Decisive(OneOrMore([Optional([Leaf(a)])]))
    ensures Decisive(Required([Leaf(x), Optional([Leaf(a)]), Optional([Leaf(b)])]))
  {
    var p: Tree, q: Tree, r: Tree := Leaf(a), Leaf(b), Leaf(x);
    assert Filler(p) && Filler(q);
    var op, oq := Optional([p]), Optional([q]);
    assert Filler(op) && Filler(oq);
    assert Filler(Optional([p, q])) && Filler(Optional([p, oq])) && Filler(OneOrMore([op]));
    var cs := [r, op, oq];
    assert cs[1..] == [op, oq] && AllSkippable([op, oq]);
    assert Decisive(cs[0]) && Shape(cs[0]).Some?;
    assert DecisiveAll(cs);
  }

  // ---------- docopt ----------

  /** `f` changes values at most. */
  ghost predicate KeepsKind(f: Element -> Element) {
    forall l :: ClassOf(f(l)) == ClassOf(l) && (f(l).Argument? <==> l.Argument?)
  }

  lemma {:induction false} FillerMap(p: Tree, f: Element -> Element)
    requires KeepsKind(f) && Filler(p)
    ensures Filler(MapLeaves(p, f)) && (Skippable(p) ==> Skippable(MapLeaves(p, f)))
    decreases p
  {
    if !p.Leaf? {
      forall i | 0 <= i < |p.children|
        ensures Filler(MapLeaves(p.children[i], f))
        ensures Skippable(p.children[i]) ==> Skippable(MapLeaves(p.children[i], f))
      {
        FillerMap(p.children[i], f);
      }
    }
  }

  lemma {:induction false} ClassesMap(p: Tree, f: Element -> Element)
    requires KeepsKind(f)
    ensures Classes(MapLeaves(p, f)) == Classes(p) && Shape(MapLeaves(p, f)) == Shape(p)
    decreases p, 1
  {
    match p
    case Leaf(_) =>
    case Required(cs) => ClassesMapAll(cs, f);
    case Optional(cs) => ClassesMapAll(cs, f);
    case OptionsShortcut(cs) => ClassesMapAll(cs, f);
    case OneOrMore(cs) => ClassesMapAll(cs, f);
    case Either(cs) =>
      ClassesMapAll(cs, f);
      forall i | 0 <= i < |cs|
        ensures Shape(MapLeaves(cs[i], f)) == Shape(cs[i])
      {
        ClassesMap(cs[i], f);
      }
  }

  lemma {:induction false} ClassesMapAll(cs: seq<Tree>, f: Element -> Element)
    requires KeepsKind(f)
    ensures ClassesOf(MapAll(cs, f)) == ClassesOf(cs) && ShapeAll(MapAll(cs, f)) == ShapeAll(cs)
    decreases cs, 0
  {
    if cs != [] {
      ClassesMap(cs[0], f);
      ClassesMapAll(cs[1..], f);
    }
  }

  lemma {:induction false} DecisiveMap(p: Tree, f: Element -> Element)
    requires Decisive(p) && KeepsKind(f)
    ensures Decisive(MapLeaves(p, f))
    decreases p, 1
  {
    ClassesMap(p, f);
    if Filler(p) {
      FillerMap(p, f);
    } else if Shape(p).None? {
      match p
      case Required(cs) => DecisiveMapAll(cs, f);
      case Optional(cs) => DecisiveMapEach(cs, f);
      case OptionsShortcut(cs) => DecisiveMapEach(cs, f);
      case OneOrMore(cs) => ClassesMap(cs[0], f);
      case Either(cs) =>
        forall i | 0 <= i < |cs|
          ensures Decisive(MapLeaves(cs[i], f))
        {
          DecisiveMap(cs[i], f);
        }
    }
  }

  lemma {:induction false} DecisiveMapAll(cs: seq<Tree>, f: Element -> Element)
    requires DecisiveAll(cs) && KeepsKind(f)
    ensures DecisiveAll(MapAll(cs, f))
    decreases cs, 0
  {
    if AllSkippable(cs) {
      forall i | 0 <= i < |cs|
        ensures Skippable(MapAll(cs, f)[i])
      {
        FillerMap(cs[i], f);
      }
    } else {
      DecisiveMap(cs[0], f);
      ClassesMap(cs[0], f);
      DecisiveMapAll(cs[1..], f);
      ClassesMapAll(cs[1..], f);
    }
  }

  lemma {:induction false} DecisiveMapEach(cs: seq<Tree>, f: Element -> Element)
    requires DecisiveEach(cs) && KeepsKind(f)
    ensures DecisiveEach(MapAll(cs, f))
    decreases cs, 0
  {
    if cs != [] {
      DecisiveMap(cs[0], f);
      ClassesMap(cs[0], f);
      DecisiveMapEach(cs[1..], f);
      ClassesMapAll(cs[1..], f);
    }
  }

  /** docopt accepts an argv if and only if the usage pattern does, when that is decisive. */
  lemma DocoptIsComplete(p: Tree, argv: seq<Element>)
    requires Matchable(p) && Decisive(p) && Clean(argv)
    ensures Docopt(p, argv).Some? <==> exists es :: InLang(Fixed(p), es) && TakesInOrder(argv, es, [])
  {
    var f := l => FixedLeaf(p, l);
    MatchableMap(p, f);
    DecisiveMap(p, f);
    GreedyIsComplete(Fixed(p), argv, []);
  }
}
