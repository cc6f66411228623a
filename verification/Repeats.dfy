/** Which leaves of a pattern must add up what they match (docopt.py:57-69), on values.

`Fixed` turns every leaf that occurs twice in some alternative into an accumulator.  The
heap pass that computes it is in FixPass.dfy.
 */
module Repeats {
  import opened Basics
  import opened Elements
  import opened Patterns
  import opened Matcher
  import opened Language

  /** `p.flat()`: the leaves from left to right. */
  function Leaves<L>(p: Pattern<L>): seq<L>
    decreases p, 1
  {
    if p.Leaf? then [p.leaf] else LeavesOf(p.children)
  }

  function LeavesOf<L>(g: seq<Pattern<L>>): seq<L>
    decreases g, 0
  {
    if g == [] then [] else Leaves(g[0]) + LeavesOf(g[1..])
  }

  function MapLeaves<L, M>(p: Pattern<L>, f: L -> M): Pattern<M>
    decreases p, 1
  {
    match p
    case Leaf(l) => Leaf(f(l))
    case Required(cs) => Required(MapAll(cs, f))
    case Optional(cs) => Optional(MapAll(cs, f))
    case OptionsShortcut(cs) => OptionsShortcut(MapAll(cs, f))
    case Either(cs) => Either(MapAll(cs, f))
    case OneOrMore(cs) => OneOrMore(MapAll(cs, f))
  }

  function MapAll<L, M>(g: seq<Pattern<L>>, f: L -> M): (r: seq<Pattern<M>>)
    ensures |r| == |g|
    ensures forall i :: 0 <= i < |g| ==> r[i] == MapLeaves(g[i], f)
    decreases g, 0
  {
    if g == [] then [] else [MapLeaves(g[0], f)] + MapAll(g[1..], f)
  }

  // ---------- accumulators ----------

  predicate IsSpace(c: char) {
    var n := c as int;
    || 9 <= n <= 13 || 28 <= n <= 32 || n == 0x85 || n == 0xa0 || n == 0x1680
    || 0x2000 <= n <= 0x200a || n == 0x2028 || n == 0x2029 || n == 0x202f || n == 0x205f || n == 0x3000
  }

  /** `str.split()`: the words of `word + s`, `word` being the one under way. */
  function Words(s: string, word: string): seq<string>
    decreases |s|
  {
    var done := if word == [] then [] else [word];
    if s == [] then done
    else if IsSpace(s[0]) then done + Words(s[1..], [])
    else Words(s[1..], word + [s[0]])
  }

  predicate TakesText(l: Element) {
    l.Argument? || (l.Opt? && l.argcount != 0)
  }

  /** The value lines 62-68 give to a leaf that repeats. */
  function Accumulated(l: Element): Value {
    if TakesText(l) then
      match l.value
      case Null => Texts([])
      case Texts(_) => l.value
      case Text(s) => Texts(Words(s, []))
      case _ => TypeError
    else Count(0)
  }

  function Accumulator(l: Element): Element {
    l.(value := Accumulated(l))
  }

  /** `l` occurs more than once in some alternative of `p`. */
  ghost predicate Repeated<L>(p: Pattern<L>, l: L) {
    exists m :: m in Alts(p) && m[l] > 1
  }

  ghost function FixedLeaf(p: Tree, l: Element): Element {
    if Repeated(p, l) then Accumulator(l) else l
  }

  /** The tree after `fix`. */
  ghost function Fixed(p: Tree): Tree {
    MapLeaves(p, l => FixedLeaf(p, l))
  }

  // ---------- trees the parser builds ----------

  /** A leaf as parsed: arguments without or with a default, flags off. */
  predicate Fresh(l: Element) {
    && Name(l).Some?
    && (if TakesText(l) then l.value.Null? || l.value.Text? else l.value.Flag?)
  }

  /** Leaves that share a name are equal. */
  ghost predicate Consistent(ls: seq<Element>) {
    forall i, j :: 0 <= i < |ls| && 0 <= j < |ls| && Name(ls[i]) == Name(ls[j]) ==> ls[i] == ls[j]
  }

  ghost predicate WellFormed(p: Tree) {
    && Matchable(p)
    && NoEmptyEither(p)
    && Consistent(Leaves(p))
    && forall l :: l in Leaves(p) ==> Fresh(l)
  }

  // ---------- words use a leaf no more often than the alternatives say ----------

  /** Number of events in which `l` takes something. */
  function Uses(es: seq<Event>, l: Element): nat {
    if es == [] then 0 else (if es[0].leaf == l then 1 else 0) + Uses(es[1..], l)
  }

  lemma {:induction false} UsesSplit(es: seq<Event>, k: nat, l: Element)
    requires k <= |es|
    ensures Uses(es, l) == Uses(es[..k], l) + Uses(es[k..], l)
  {
    if k == 0 {
      assert es[0..] == es;
    } else {
      UsesSplit(es[1..], k - 1, l);
      assert es[..k][1..] == es[1..][..k - 1] && es[1..][k - 1..] == es[k..];
    }
  }

  function AtMostTwo(n: nat): nat { if n < 2 then n else 2 }

  /** Used once in a word, a leaf occurs in some alternative; used twice or more, it occurs
      twice in one, even when the uses come from different rounds or branches. */
  lemma {:induction false} WordUses(p: Tree, es: seq<Event>, l: Element)
    requires InLang(p, es)
    ensures AtMostTwo(Uses(es, l)) <= Occ(p, l)
    decreases p, 1, 0
  {
    match p
    case Leaf(x) =>
      assert es[1..] == [];
      assert Uses(es, l) == if x == l then 1 else 0;
    case Required(cs) => WordAllUses(cs, es, l);
    case Optional(cs) => WordEachUses(cs, es, l);
    case OptionsShortcut(cs) => WordEachUses(cs, es, l);
    case Either(cs) =>
      var i :| 0 <= i < |cs| && InLang(cs[i], es);
      WordUses(cs[i], es, l);
      OccAnyCovers(cs, i, l);
    case OneOrMore(cs) => WordRepeatUses(cs, es, l);
  }

  lemma {:induction false} OccAnyCovers(cs: seq<Tree>, i: nat, l: Element)
    requires i < |cs|
    ensures Occ(cs[i], l) <= OccAny(cs, l)
  {
    if i > 0 {
      OccAnyCovers(cs[1..], i - 1, l);
    }
  }

  lemma {:induction false} WordAllUses(cs: seq<Tree>, es: seq<Event>, l: Element)
    requires InAll(cs, es)
    ensures AtMostTwo(Uses(es, l)) <= OccAll(cs, l)
    decreases cs, 0, 0
  {
    if cs != [] {
      var k :| 0 <= k <= |es| && InLang(cs[0], es[..k]) && InAll(cs[1..], es[k..]);
      WordUses(cs[0], es[..k], l);
      WordAllUses(cs[1..], es[k..], l);
      UsesSplit(es, k, l);
    }
  }

  lemma {:induction false} WordEachUses(cs: seq<Tree>, es: seq<Event>, l: Element)
    requires InEach(cs, es)
    ensures AtMostTwo(Uses(es, l)) <= OccAll(cs, l)
    decreases cs, 0, 0
  {
    if cs != [] {
      var k :| 0 <= k <= |es| && (k == 0 || InLang(cs[0], es[..k])) && InEach(cs[1..], es[k..]);
      if k > 0 {
        WordUses(cs[0], es[..k], l);
      }
      WordEachUses(cs[1..], es[k..], l);
      UsesSplit(es, k, l);
    }
  }

  lemma {:induction false} WordRepeatUses(cs: seq<Tree>, es: seq<Event>, l: Element)
    requires InRepeat(cs, es)
    ensures Uses(es, l) > 0 ==> OccAll(cs, l) > 0
    decreases cs, 1, |es|
  {
    if InAll(cs, es) {
      WordAllUses(cs, es, l);
    } else {
      var k :| 0 < k <= |es| && InAll(cs, es[..k]) && InRepeat(cs, es[k..]);
      WordAllUses(cs, es[..k], l);
      WordRepeatUses(cs, es[k..], l);
      UsesSplit(es, k, l);
    }
  }

  lemma {:induction false} WordLeaves(p: Tree, es: seq<Event>, e: Event)
    requires InLang(p, es) && e in es
    ensures e.leaf in Leaves(p) && Fits(e.leaf, e.item)
    decreases p, 1, 0
  {
    match p
    case Leaf(_) =>
    case Required(cs) => WordAllLeaves(cs, es, e);
    case Optional(cs) => WordEachLeaves(cs, es, e);
    case OptionsShortcut(cs) => WordEachLeaves(cs, es, e);
    case Either(cs) =>
      var i :| 0 <= i < |cs| && InLang(cs[i], es);
      WordLeaves(cs[i], es, e);
      LeavesOfCovers(cs, i, e.leaf);
    case OneOrMore(cs) => WordRepeatLeaves(cs, es, e);
  }

  lemma {:induction false} LeavesOfCovers<L>(cs: seq<Pattern<L>>, i: nat, l: L)
    requires i < |cs| && l in Leaves(cs[i])
    ensures l in LeavesOf(cs)
  {
    if i > 0 {
      LeavesOfCovers(cs[1..], i - 1, l);
    }
  }

  lemma {:induction false} WordAllLeaves(cs: seq<Tree>, es: seq<Event>, e: Event)
    requires InAll(cs, es) && e in es
    ensures e.leaf in LeavesOf(cs) && Fits(e.leaf, e.item)
    decreases cs, 0, 0
  {
    var k :| 0 <= k <= |es| && InLang(cs[0], es[..k]) && InAll(cs[1..], es[k..]);
    assert es == es[..k] + es[k..];
    if e in es[..k] {
      WordLeaves(cs[0], es[..k], e);
    } else {
      WordAllLeaves(cs[1..], es[k..], e);
    }
  }

  lemma {:induction false} WordEachLeaves(cs: seq<Tree>, es: seq<Event>, e: Event)
    requires InEach(cs, es) && e in es
    ensures e.leaf in LeavesOf(cs) && Fits(e.leaf, e.item)
    decreases cs, 0, 0
  {
    var k :| 0 <= k <= |es| && (k == 0 || InLang(cs[0], es[..k])) && InEach(cs[1..], es[k..]);
    assert es == es[..k] + es[k..];
    if e in es[..k] {
      WordLeaves(cs[0], es[..k], e);
    } else {
      WordEachLeaves(cs[1..], es[k..], e);
    }
  }

  lemma {:induction false} WordRepeatLeaves(cs: seq<Tree>, es: seq<Event>, e: Event)
    requires InRepeat(cs, es) && e in es
    ensures e.leaf in LeavesOf(cs) && Fits(e.leaf, e.item)
    decreases cs, 1, |es|
  {
    if InAll(cs, es) {
      WordAllLeaves(cs, es, e);
    } else {
      var k :| 0 < k <= |es| && InAll(cs, es[..k]) && InRepeat(cs, es[k..]);
      assert es == es[..k] + es[k..];
      if e in es[..k] {
        WordAllLeaves(cs, es[..k], e);
      } else {
        WordRepeatLeaves(cs, es[k..], e);
      }
    }
  }

  // ---------- the fixed tree ----------

  /** `f` sends no other leaf of `ls` where it sends `l`. */
  ghost predicate Separates<L, M>(f: L -> M, ls: seq<L>, l: L) {
    forall i :: 0 <= i < |ls| && f(ls[i]) == f(l) ==> ls[i] == l
  }

  lemma SeparatesParts<L, M>(f: L -> M, xs: seq<L>, ys: seq<L>, l: L)
    requires Separates(f, xs + ys, l)
    ensures Separates(f, xs, l) && Separates(f, ys, l)
  {
    forall i | 0 <= i < |xs| && f(xs[i]) == f(l)
      ensures xs[i] == l
    {
      assert xs[i] == (xs + ys)[i];
    }
    forall i | 0 <= i < |ys| && f(ys[i]) == f(l)
      ensures ys[i] == l
    {
      assert ys[i] == (xs + ys)[|xs| + i];
    }
  }

  lemma {:induction false} OccMap<L, M>(p: Pattern<L>, f: L -> M, l: L)
    requires Separates(f, Leaves(p), l)
    ensures Occ(MapLeaves(p, f), f(l)) == Occ(p, l)
    decreases p, 1
  {
    match p
    case Leaf(x) => assert Leaves(p)[0] == x;
    case Either(cs) => OccAnyMap(cs, f, l);
    case OneOrMore(cs) => OccAllMap(cs, f, l);
    case Required(cs) => OccAllMap(cs, f, l);
    case Optional(cs) => OccAllMap(cs, f, l);
    case OptionsShortcut(cs) => OccAllMap(cs, f, l);
  }

  lemma {:induction false} OccAllMap<L, M>(g: seq<Pattern<L>>, f: L -> M, l: L)
    requires Separates(f, LeavesOf(g), l)
    ensures OccAll(MapAll(g, f), f(l)) == OccAll(g, l)
    decreases g, 0
  {
    if g != [] {
      SeparatesParts(f, Leaves(g[0]), LeavesOf(g[1..]), l);
      OccMap(g[0], f, l);
      OccAllMap(g[1..], f, l);
    }
  }

  lemma {:induction false} OccAnyMap<L, M>(g: seq<Pattern<L>>, f: L -> M, l: L)
    requires Separates(f, LeavesOf(g), l)
    ensures OccAny(MapAll(g, f), f(l)) == OccAny(g, l)
    decreases g, 0
  {
    if g != [] {
      SeparatesParts(f, Leaves(g[0]), LeavesOf(g[1..]), l);
      OccMap(g[0], f, l);
      OccAnyMap(g[1..], f, l);
    }
  }

  lemma {:induction false} LeavesMap<L, M>(p: Pattern<L>, f: L -> M)
    ensures |Leaves(MapLeaves(p, f))| == |Leaves(p)|
    ensures forall i :: 0 <= i < |Leaves(p)| ==> Leaves(MapLeaves(p, f))[i] == f(Leaves(p)[i])
    decreases p, 1
  {
    if !p.Leaf? {
      LeavesOfMap(p.children, f);
    }
  }

  lemma {:induction false} LeavesOfMap<L, M>(g: seq<Pattern<L>>, f: L -> M)
    ensures |LeavesOf(MapAll(g, f))| == |LeavesOf(g)|
    ensures forall i :: 0 <= i < |LeavesOf(g)| ==> LeavesOf(MapAll(g, f))[i] == f(LeavesOf(g)[i])
    decreases g, 0
  {
    if g != [] {
      LeavesMap(g[0], f);
      LeavesOfMap(g[1..], f);
    }
  }

  lemma {:induction false} MatchableMap(p: Tree, f: Element -> Element)
    requires Matchable(p)
    ensures Matchable(MapLeaves(p, f))
    decreases p
  {
    if !p.Leaf? {
      forall i | 0 <= i < |p.children|
        ensures Matchable(MapLeaves(p.children[i], f))
      {
        MatchableMap(p.children[i], f);
      }
    }
  }

  /** A leaf of the fixed tree that does not accumulate is used at most once in any word. */
  lemma PlainUsedOnce(p: Tree, es: seq<Event>, l: Element)
    requires WellFormed(p)
    requires InLang(Fixed(p), es)
    requires l in Leaves(p)
    requires !Accumulates(FixedLeaf(p, l))
    ensures Uses(es, FixedLeaf(p, l)) <= 1
  {
    var f := l => FixedLeaf(p, l);
    assert f(l) == l;
    forall i | 0 <= i < |Leaves(p)| && f(Leaves(p)[i]) == f(l)
      ensures Leaves(p)[i] == l
    {
      assert Name(f(Leaves(p)[i])) == Name(Leaves(p)[i]);
    }
    OccMap(p, f, l);
    WordUses(Fixed(p), es, l);
    OccIsPeak(p, l);
    var m :| m in Alts(p) && m[l] == Occ(p, l);
    assert Fresh(l);
  }
}
