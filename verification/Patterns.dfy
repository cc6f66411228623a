/** Usage-pattern trees of docopt and their denotation.

A pattern tree stands for a list of alternatives; an alternative is the multiset of
leaves that one reading of the usage line asks for.  `Alts` computes that list by
recursion on the tree.  The worklist rewrite of `transform`, which reaches the same
alternatives by popping and appending groups, is in Transform.dfy.

The tree is generic in its leaves: the heap pass `fix` works on trees whose leaves are
objects, the matcher on trees whose leaves are values.
 */
module Patterns {
  import opened Basics

  datatype Pattern<L> =
    | Leaf(leaf: L)
    | Required(children: seq<Pattern<L>>)
    | Optional(children: seq<Pattern<L>>)
    | OptionsShortcut(children: seq<Pattern<L>>)
    | Either(children: seq<Pattern<L>>)
    | OneOrMore(children: seq<Pattern<L>>)

  type Group<L> = seq<Pattern<L>>

  // ---------- alternatives ----------

  /** Adds the leaves `m` to every alternative of `alts`. */
  ghost function AddAll<L>(m: multiset<L>, alts: seq<multiset<L>>): (r: seq<multiset<L>>)
    ensures |r| == |alts|
  {
    seq(|alts|, k requires 0 <= k < |alts| => m + alts[k])
  }

  /** All pairwise sums, the left operand varying slowest. */
  ghost function Cross<L>(xs: seq<multiset<L>>, ys: seq<multiset<L>>): seq<multiset<L>> {
    if xs == [] then [] else AddAll(xs[0], ys) + Cross(xs[1..], ys)
  }

  ghost function Alts<L>(p: Pattern<L>): seq<multiset<L>>
    decreases p, 1
  {
    match p
    case Leaf(l) => [multiset{l}]
    case Required(cs) => AltsAll(cs)
    case Optional(cs) => AltsAll(cs)
    case OptionsShortcut(cs) => AltsAll(cs)
    case Either(cs) => AltsAny(cs)
    case OneOrMore(cs) => Cross(AltsAll(cs), AltsAll(cs))
  }

  /** One alternative of every member of the group. */
  ghost function AltsAll<L>(g: Group<L>): seq<multiset<L>>
    decreases g, 0
  {
    if g == [] then [multiset{}] else Cross(Alts(g[0]), AltsAll(g[1..]))
  }

  /** One alternative of some member of the group. */
  ghost function AltsAny<L>(g: Group<L>): seq<multiset<L>>
    decreases g, 0
  {
    if g == [] then [] else Alts(g[0]) + AltsAny(g[1..])
  }

  // ---------- algebra of Cross ----------

  lemma {:induction false} CrossConcat<L>(xs: seq<multiset<L>>, ys: seq<multiset<L>>, zs: seq<multiset<L>>)
    ensures Cross(xs + ys, zs) == Cross(xs, zs) + Cross(ys, zs)
  {
    if xs == [] {
      assert xs + ys == ys;
    } else {
      CrossConcat(xs[1..], ys, zs);
      assert (xs + ys)[1..] == xs[1..] + ys;
      var first, rest := AddAll(xs[0], zs), Cross(xs[1..], zs);
      assert Cross(xs + ys, zs) == first + (rest + Cross(ys, zs));
      assert first + (rest + Cross(ys, zs)) == (first + rest) + Cross(ys, zs);
    }
  }

  lemma CrossUnit<L>(ys: seq<multiset<L>>)
    ensures Cross([multiset{}], ys) == ys
  {
    forall k | 0 <= k < |ys|
      ensures AddAll(multiset{}, ys)[k] == ys[k]
    {
    }
    assert AddAll(multiset{}, ys) == ys;
  }

  lemma CrossSingle<L>(m: multiset<L>, ys: seq<multiset<L>>)
    ensures Cross([m], ys) == AddAll(m, ys)
  {
    assert [m][1..] == [];
  }

  lemma AddAllConcat<L>(m: multiset<L>, xs: seq<multiset<L>>, ys: seq<multiset<L>>)
    ensures AddAll(m, xs + ys) == AddAll(m, xs) + AddAll(m, ys)
  {
  }

  lemma AddAllTwice<L>(m: multiset<L>, n: multiset<L>, xs: seq<multiset<L>>)
    ensures AddAll(m, AddAll(n, xs)) == AddAll(m + n, xs)
    ensures AddAll(m, AddAll(n, xs)) == AddAll(n, AddAll(m, xs))
  {
    forall k | 0 <= k < |xs|
      ensures m + (n + xs[k]) == (m + n) + xs[k] == n + (m + xs[k])
    {
    }
  }

  lemma {:induction false} CrossOfAddAll<L>(m: multiset<L>, xs: seq<multiset<L>>, ys: seq<multiset<L>>)
    ensures Cross(AddAll(m, xs), ys) == AddAll(m, Cross(xs, ys))
  {
    if xs == [] {
      assert AddAll(m, xs) == [];
    } else {
      CrossOfAddAll(m, xs[1..], ys);
      assert AddAll(m, xs)[1..] == AddAll(m, xs[1..]);
      AddAllTwice(m, xs[0], ys);
      AddAllConcat(m, AddAll(xs[0], ys), Cross(xs[1..], ys));
    }
  }

  lemma {:induction false} CrossAddAllRight<L>(m: multiset<L>, xs: seq<multiset<L>>, ys: seq<multiset<L>>)
    ensures Cross(xs, AddAll(m, ys)) == AddAll(m, Cross(xs, ys))
  {
    if xs == [] {
    } else {
      CrossAddAllRight(m, xs[1..], ys);
      AddAllTwice(xs[0], m, ys);
      AddAllConcat(m, AddAll(xs[0], ys), Cross(xs[1..], ys));
    }
  }

  lemma {:induction false} CrossAssoc<L>(xs: seq<multiset<L>>, ys: seq<multiset<L>>, zs: seq<multiset<L>>)
    ensures Cross(Cross(xs, ys), zs) == Cross(xs, Cross(ys, zs))
  {
    if xs == [] {
    } else {
      CrossAssoc(xs[1..], ys, zs);
      CrossConcat(AddAll(xs[0], ys), Cross(xs[1..], ys), zs);
      CrossOfAddAll(xs[0], ys, zs);
    }
  }

  lemma {:induction false} CrossLength<L>(xs: seq<multiset<L>>, ys: seq<multiset<L>>)
    ensures |Cross(xs, ys)| == |xs| * |ys|
  {
    if xs == [] {
    } else {
      CrossLength(xs[1..], ys);
      assert |Cross(xs, ys)| == |ys| + (|xs| - 1) * |ys|;
    }
  }

  /** The members of a cross product are exactly the pairwise sums. */
  lemma {:induction false} CrossHas<L>(xs: seq<multiset<L>>, ys: seq<multiset<L>>, x: multiset<L>, y: multiset<L>)
    requires x in xs && y in ys
    ensures x + y in Cross(xs, ys)
  {
    if x == xs[0] {
      var j :| 0 <= j < |ys| && ys[j] == y;
      assert AddAll(xs[0], ys)[j] == x + y;
    } else {
      CrossHas(xs[1..], ys, x, y);
    }
  }

  lemma {:induction false} CrossSplit<L>(xs: seq<multiset<L>>, ys: seq<multiset<L>>, m: multiset<L>)
    returns (x: multiset<L>, y: multiset<L>)
    requires m in Cross(xs, ys)
    ensures x in xs && y in ys && m == x + y
  {
    var head := AddAll(xs[0], ys);
    if m in head {
      var j :| 0 <= j < |head| && head[j] == m;
      x, y := xs[0], ys[j];
    } else {
      x, y := CrossSplit(xs[1..], ys, m);
    }
  }

  /** Alternatives of a concatenation are the pairwise sums of the alternatives. */
  lemma {:induction false} AltsAllConcat<L>(g: Group<L>, h: Group<L>)
    ensures AltsAll(g + h) == Cross(AltsAll(g), AltsAll(h))
  {
    if g == [] {
      assert g + h == h;
      CrossUnit(AltsAll(h));
    } else {
      AltsAllConcat(g[1..], h);
      assert (g + h)[0] == g[0] && (g + h)[1..] == g[1..] + h;
      CrossAssoc(Alts(g[0]), AltsAll(g[1..]), AltsAll(h));
    }
  }

  // ---------- number of alternatives ----------

  function AltCount<L>(p: Pattern<L>): nat
    decreases p, 1
  {
    match p
    case Leaf(_) => 1
    case Required(cs) => CountAll(cs)
    case Optional(cs) => CountAll(cs)
    case OptionsShortcut(cs) => CountAll(cs)
    case Either(cs) => CountAny(cs)
    case OneOrMore(cs) => CountAll(cs) * CountAll(cs)
  }

  function CountAll<L>(g: Group<L>): nat
    decreases g, 0
  {
    if g == [] then 1 else AltCount(g[0]) * CountAll(g[1..])
  }

  function CountAny<L>(g: Group<L>): nat
    decreases g, 0
  {
    if g == [] then 0 else AltCount(g[0]) + CountAny(g[1..])
  }

  lemma {:induction false} AltsLength<L>(p: Pattern<L>)
    ensures |Alts(p)| == AltCount(p)
    decreases p, 1
  {
    match p
    case Leaf(_) =>
    case Either(cs) => AltsAnyLength(cs);
    case OneOrMore(cs) => AltsAllLength(cs); CrossLength(AltsAll(cs), AltsAll(cs));
    case _ => AltsAllLength(p.children);
  }

  lemma {:induction false} AltsAllLength<L>(g: Group<L>)
    ensures |AltsAll(g)| == CountAll(g)
    decreases g, 0
  {
    if g != [] {
      AltsLength(g[0]);
      AltsAllLength(g[1..]);
      CrossLength(Alts(g[0]), AltsAll(g[1..]));
    }
  }

  lemma {:induction false} AltsAnyLength<L>(g: Group<L>)
    ensures |AltsAny(g)| == CountAny(g)
    decreases g, 0
  {
    if g != [] {
      AltsLength(g[0]);
      AltsAnyLength(g[1..]);
    }
  }

  // ---------- how often a leaf can be asked for ----------

  /** No `|` without branches.  The parser never builds one (docopt.py:387). */
  predicate NoEmptyEither<L>(p: Pattern<L>)
    decreases p
  {
    !p.Leaf? ==>
      && (p.Either? ==> p.children != [])
      && forall i :: 0 <= i < |p.children| ==> NoEmptyEither(p.children[i])
  }

  /** The largest multiplicity of `l` in an alternative, computed on the tree. */
  function Occ<L(==)>(p: Pattern<L>, l: L): nat
    decreases p, 1
  {
    match p
    case Leaf(x) => if x == l then 1 else 0
    case Either(cs) => OccAny(cs, l)
    case OneOrMore(cs) => 2 * OccAll(cs, l)
    case _ => OccAll(p.children, l)
  }

  function OccAll<L(==)>(g: Group<L>, l: L): nat
    decreases g, 0
  {
    if g == [] then 0 else Occ(g[0], l) + OccAll(g[1..], l)
  }

  function OccAny<L(==)>(g: Group<L>, l: L): nat
    decreases g, 0
  {
    if g == [] then 0 else Max(Occ(g[0], l), OccAny(g[1..], l))
  }

  /** `n` is the maximum, attained, of the multiplicity of `l` over `alts`. */
  ghost predicate IsPeak<L>(alts: seq<multiset<L>>, l: L, n: nat) {
    && (forall m :: m in alts ==> m[l] <= n)
    && (exists m :: m in alts && m[l] == n)
  }

  lemma PeakOfCross<L>(xs: seq<multiset<L>>, ys: seq<multiset<L>>, l: L, a: nat, b: nat)
    requires IsPeak(xs, l, a) && IsPeak(ys, l, b)
    ensures IsPeak(Cross(xs, ys), l, a + b)
  {
    var x :| x in xs && x[l] == a;
    var y :| y in ys && y[l] == b;
    CrossHas(xs, ys, x, y);
    assert (x + y)[l] == a + b;
    forall m | m in Cross(xs, ys)
      ensures m[l] <= a + b
    {
      var u, v := CrossSplit(xs, ys, m);
    }
  }

  /** `Occ` is the largest multiplicity over the alternatives. */
  lemma {:induction false} OccIsPeak<L>(p: Pattern<L>, l: L)
    requires NoEmptyEither(p)
    ensures IsPeak(Alts(p), l, Occ(p, l))
    decreases p, 1
  {
    match p
    case Leaf(x) =>
      assert multiset{x} in Alts(p) && multiset{x}[l] == Occ(p, l);
    case Either(cs) =>
      OccAnyIsPeak(cs, l);
    case OneOrMore(cs) =>
      OccAllIsPeak(cs, l);
      PeakOfCross(AltsAll(cs), AltsAll(cs), l, OccAll(cs, l), OccAll(cs, l));
    case _ =>
      OccAllIsPeak(p.children, l);
  }

  lemma {:induction false} OccAllIsPeak<L>(g: Group<L>, l: L)
    requires forall i :: 0 <= i < |g| ==> NoEmptyEither(g[i])
    ensures IsPeak(AltsAll(g), l, OccAll(g, l))
    decreases g, 0
  {
    if g == [] {
      var none: multiset<L> := multiset{};
      assert none in AltsAll(g) && none[l] == 0;
    } else {
      OccIsPeak(g[0], l);
      OccAllIsPeak(g[1..], l);
      PeakOfCross(Alts(g[0]), AltsAll(g[1..]), l, Occ(g[0], l), OccAll(g[1..], l));
    }
  }

  lemma {:induction false} OccAnyIsPeak<L>(g: Group<L>, l: L)
    requires g != []
    requires forall i :: 0 <= i < |g| ==> NoEmptyEither(g[i])
    ensures IsPeak(AltsAny(g), l, OccAny(g, l))
    decreases g, 0
  {
    OccIsPeak(g[0], l);
    if |g| == 1 {
      assert AltsAny(g) == Alts(g[0]);
    } else {
      OccAnyIsPeak(g[1..], l);
      var x :| x in Alts(g[0]) && x[l] == Occ(g[0], l);
      var y :| y in AltsAny(g[1..]) && y[l] == OccAny(g[1..], l);
      assert x in AltsAny(g) && y in AltsAny(g);
    }
  }
}
