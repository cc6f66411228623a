/** docopt's `transform` (docopt.py:72-96): a worklist that flattens a pattern tree into
one Either of flat Requireds.

A group is a list of patterns that are all required together.  Each round takes the first
group off the queue; a group with a branch in it is replaced, at the far end of the queue,
by groups in which that branch is opened up, and a group of leaves is a finished case.
OneOrMore writes its children twice and Either copies the siblings once per branch, so
neither the queue nor the groups shrink.
 */
module Transform {
  import opened Basics
  import opened Patterns

  predicate Flat<L>(g: Group<L>) {
    forall i :: 0 <= i < |g| ==> g[i].Leaf?
  }

  /** Position of the first branch of the group. */
  function FirstBranch<L>(g: Group<L>): (i: nat)
    requires !Flat(g)
    ensures i < |g| && !g[i].Leaf? && forall k :: 0 <= k < i ==> g[k].Leaf?
  {
    if !g[0].Leaf? then 0 else
      assert !Flat(g[1..]) by {
        var j :| 1 <= j < |g| && !g[j].Leaf?;
        assert g[1..][j - 1] == g[j];
      }
      1 + FirstBranch(g[1..])
  }

  lemma {:induction false} RemoveAt<T>(s: seq<T>, i: nat)
    requires i < |s| && s[i] !in s[..i]
    ensures Remove(s, s[i]) == s[..i] + s[i + 1..]
  {
    if i > 0 {
      assert s[0] in s[..i];
      assert s[1..][..i - 1] == s[..i][1..];
      RemoveAt(s[1..], i - 1);
    }
  }

  /** The groups that replace `g`, which has a branch. */
  ghost function Expand<L>(g: Group<L>): seq<Group<L>>
    requires !Flat(g)
  {
    var i := FirstBranch(g);
    Opened(g[i], g[..i] + g[i + 1..])
  }

  /** The groups a branch becomes, each in front of the rest of its group. */
  ghost function Opened<L>(child: Pattern<L>, rest: Group<L>): seq<Group<L>>
    requires !child.Leaf?
  {
    var cs := child.children;
    match child
    case Either(_) => Prefixed(cs, rest)
    case OneOrMore(_) => [cs + cs + rest]
    case _ => [cs + rest]
  }

  /** One group for each branch of an Either, its siblings copied into each. */
  ghost function Prefixed<L>(cs: seq<Pattern<L>>, rest: Group<L>): (r: seq<Group<L>>)
    ensures |r| == |cs|
  {
    if cs == [] then [] else [[cs[0]] + rest] + Prefixed(cs[1..], rest)
  }

  // ---------- termination measure ----------

  /** Branches weigh more than what they open into, OneOrMore counting its children twice. */
  ghost function Weight<L>(p: Pattern<L>): nat
    decreases p, 1
  {
    match p
    case Leaf(_) => 1
    case OneOrMore(cs) => 1 + 2 * WeightAll(cs)
    case _ => 1 + WeightAll(p.children)
  }

  ghost function WeightAll<L>(g: Group<L>): nat
    decreases g, 0
  {
    if g == [] then 0 else Weight(g[0]) + WeightAll(g[1..])
  }

  lemma {:induction false} WeightAllConcat<L>(g: Group<L>, h: Group<L>)
    ensures WeightAll(g + h) == WeightAll(g) + WeightAll(h)
  {
    if g == [] {
      assert g + h == h;
    } else {
      assert (g + h)[0] == g[0] && (g + h)[1..] == g[1..] + h;
      WeightAllConcat(g[1..], h);
    }
  }

  lemma {:induction false} PrefixedLighter<L>(cs: seq<Pattern<L>>, rest: Group<L>, w: nat)
    requires WeightAll(cs) + WeightAll(rest) < w
    ensures forall h :: h in Prefixed(cs, rest) ==> WeightAll(h) < w
  {
    if cs != [] {
      WeightAllConcat([cs[0]], rest);
      assert WeightAll([cs[0]]) == Weight(cs[0]) by { assert [cs[0]][1..] == []; }
      PrefixedLighter(cs[1..], rest, w);
    }
  }

  /** Every group that replaces `g` is strictly lighter than `g`. */
  lemma ExpandLighter<L>(g: Group<L>)
    requires !Flat(g)
    ensures forall h :: h in Expand(g) ==> WeightAll(h) < WeightAll(g)
  {
    var i := FirstBranch(g);
    var rest := g[..i] + g[i + 1..];
    var cs := g[i].children;
    assert g == g[..i] + ([g[i]] + g[i + 1..]);
    WeightAllConcat(g[..i], [g[i]] + g[i + 1..]);
    WeightAllConcat(g[..i], g[i + 1..]);
    assert ([g[i]] + g[i + 1..])[1..] == g[i + 1..];
    PrefixedLighter(cs, rest, WeightAll(cs) + WeightAll(rest) + 1);
    WeightAllConcat(cs + cs, rest);
    WeightAllConcat(cs, cs);
    WeightAllConcat(cs, rest);
  }

  /** The number of rounds the worklist spends on `g` and everything that comes of it. */
  ghost function Rounds<L>(g: Group<L>): nat
    decreases WeightAll(g), 1, 0
  {
    if Flat(g) then 1 else
      ExpandLighter(g);
      1 + RoundsBelow(Expand(g), WeightAll(g))
  }

  ghost function RoundsBelow<L>(gs: seq<Group<L>>, w: nat): nat
    requires forall h :: h in gs ==> WeightAll(h) < w
    decreases w, 0, |gs|
  {
    if gs == [] then 0 else Rounds(gs[0]) + RoundsBelow(gs[1..], w)
  }

  ghost function TotalRounds<L>(gs: seq<Group<L>>): nat {
    if gs == [] then 0 else Rounds(gs[0]) + TotalRounds(gs[1..])
  }

  lemma {:induction false} RoundsBelowTotal<L>(gs: seq<Group<L>>, w: nat)
    requires forall h :: h in gs ==> WeightAll(h) < w
    ensures RoundsBelow(gs, w) == TotalRounds(gs)
    decreases |gs|
  {
    if gs != [] {
      RoundsBelowTotal(gs[1..], w);
    }
  }

  lemma {:induction false} TotalRoundsConcat<L>(gs: seq<Group<L>>, hs: seq<Group<L>>)
    ensures TotalRounds(gs + hs) == TotalRounds(gs) + TotalRounds(hs)
  {
    if gs == [] {
      assert gs + hs == hs;
    } else {
      assert (gs + hs)[0] == gs[0] && (gs + hs)[1..] == gs[1..] + hs;
      TotalRoundsConcat(gs[1..], hs);
    }
  }

  /** Replacing a group takes exactly one round off the total. */
  lemma ExpandRounds<L>(g: Group<L>)
    requires !Flat(g)
    ensures Rounds(g) == 1 + TotalRounds(Expand(g))
  {
    ExpandLighter(g);
    RoundsBelowTotal(Expand(g), WeightAll(g));
  }

  // ---------- meaning of a queue ----------

  ghost function AltsOf<L>(gs: seq<Group<L>>): seq<multiset<L>> {
    if gs == [] then [] else AltsAll(gs[0]) + AltsOf(gs[1..])
  }

  lemma {:induction false} AltsOfConcat<L>(gs: seq<Group<L>>, hs: seq<Group<L>>)
    ensures AltsOf(gs + hs) == AltsOf(gs) + AltsOf(hs)
  {
    if gs == [] {
      assert gs + hs == hs;
    } else {
      assert (gs + hs)[0] == gs[0] && (gs + hs)[1..] == gs[1..] + hs;
      AltsOfConcat(gs[1..], hs);
    }
  }

  lemma AltsOfOne<L>(g: Group<L>)
    ensures AltsOf([g]) == AltsAll(g)
  {
    assert [g][1..] == [];
  }

  /** The leaves of a group of leaves. */
  ghost function LeafBag<L>(g: Group<L>): multiset<L>
    requires Flat(g)
  {
    if g == [] then multiset{} else multiset{g[0].leaf} + LeafBag(g[1..])
  }

  lemma {:induction false} FlatAlts<L>(g: Group<L>)
    requires Flat(g)
    ensures AltsAll(g) == [LeafBag(g)]
  {
    if g != [] {
      FlatAlts(g[1..]);
      CrossSingle(multiset{g[0].leaf}, AltsAll(g[1..]));
    }
  }

  /** Leaves in front of a group can be moved behind any other part of it. */
  lemma FlatPrefix<L>(leaves: Group<L>, front: Group<L>, back: Group<L>)
    requires Flat(leaves)
    ensures AltsAll(leaves + front + back) == AltsAll(front + (leaves + back))
  {
    var m := LeafBag(leaves);
    FlatAlts(leaves);
    assert leaves + front + back == leaves + (front + back);
    AltsAllConcat(leaves, front + back);
    CrossSingle(m, AltsAll(front + back));
    AltsAllConcat(front, back);
    AltsAllConcat(front, leaves + back);
    AltsAllConcat(leaves, back);
    CrossSingle(m, AltsAll(back));
    CrossAddAllRight(m, AltsAll(front), AltsAll(back));
  }

  lemma {:induction false} PrefixedAlts<L>(cs: seq<Pattern<L>>, rest: Group<L>)
    ensures AltsOf(Prefixed(cs, rest)) == Cross(AltsAny(cs), AltsAll(rest))
  {
    if cs != [] {
      PrefixedAlts(cs[1..], rest);
      assert ([cs[0]] + rest)[1..] == rest;
      CrossConcat(Alts(cs[0]), AltsAny(cs[1..]), AltsAll(rest));
    }
  }

  /** Opening up one branch keeps the alternatives of the group, in order. */
  lemma ExpandAlts<L>(g: Group<L>)
    requires !Flat(g)
    ensures AltsOf(Expand(g)) == AltsAll(g)
  {
    var i := FirstBranch(g);
    var b, leaves, back := g[i], g[..i], g[i + 1..];
    var cs := b.children;
    var rest := leaves + back;
    assert g == leaves + [b] + back;
    FlatPrefix(leaves, [b], back);
    assert ([b] + rest)[1..] == rest;
    assert AltsAll(g) == Cross(Alts(b), AltsAll(rest));
    match b {
      case Either(_) =>
        PrefixedAlts(cs, rest);
      case OneOrMore(_) =>
        AltsAllConcat(cs, cs);
        AltsAllConcat(cs + cs, rest);
        AltsOfOne(cs + cs + rest);
      case _ =>
        AltsAllConcat(cs, rest);
        AltsOfOne(cs + rest);
    }
  }

  // ---------- the loop ----------

  /** The finished cases, wrapped as the branches of the resulting Either. */
  predicate IsCases<L>(r: Pattern<L>) {
    && r.Either?
    && forall i :: 0 <= i < |r.children| ==> r.children[i].Required? && Flat(r.children[i].children)
  }

  ghost function Cases<L>(r: Pattern<L>): (bags: seq<multiset<L>>)
    requires IsCases(r)
    ensures |bags| == |r.children|
  {
    seq(|r.children|, i requires 0 <= i < |r.children| => LeafBag(r.children[i].children))
  }

  ghost predicate AllFlat<L>(result: seq<Group<L>>) {
    forall g :: g in result ==> Flat(g)
  }

  lemma {:induction false} FinishedCases<L>(result: seq<Group<L>>)
    requires AllFlat(result)
    ensures |AltsOf(result)| == |result|
    ensures forall i :: 0 <= i < |result| ==> AltsOf(result)[i] == LeafBag(result[i])
  {
    if result != [] {
      FinishedCases(result[1..]);
      FlatAlts(result[0]);
    }
  }

  lemma FirstBranchIsRemoved<L>(g: Group<L>)
    requires !Flat(g)
    ensures Remove(g, g[FirstBranch(g)]) == g[..FirstBranch(g)] + g[FirstBranch(g) + 1..]
  {
    RemoveAt(g, FirstBranch(g));
  }

  /** Finished cases and queued groups together have the alternatives of the pattern. */
  ghost predicate Covers<L>(result: seq<Group<L>>, groups: seq<Group<L>>, pattern: Pattern<L>) {
    multiset(AltsOf(result)) + multiset(AltsOf(groups)) == multiset(Alts(pattern))
  }

  /** Opening the first group keeps the alternatives and uses up one round. */
  lemma OpenStep<L>(g: Group<L>, queue: seq<Group<L>>, result: seq<Group<L>>, pattern: Pattern<L>)
    requires !Flat(g)
    requires Covers(result, [g] + queue, pattern)
    ensures Covers(result, queue + Expand(g), pattern)
    ensures TotalRounds([g] + queue) == 1 + TotalRounds(queue + Expand(g))
  {
    assert ([g] + queue)[1..] == queue;
    ExpandAlts(g);
    AltsOfConcat(queue, Expand(g));
    ExpandRounds(g);
    TotalRoundsConcat(queue, Expand(g));
  }

  /** Moving a flat group to the results keeps the alternatives and uses up one round. */
  lemma FinishStep<L>(g: Group<L>, queue: seq<Group<L>>, result: seq<Group<L>>, pattern: Pattern<L>)
    requires Flat(g) && AllFlat(result)
    requires Covers(result, [g] + queue, pattern)
    ensures AllFlat(result + [g])
    ensures Covers(result + [g], queue, pattern)
    ensures TotalRounds([g] + queue) == 1 + TotalRounds(queue)
  {
    assert ([g] + queue)[1..] == queue;
    AltsOfConcat(result, [g]);
    AltsOfOne(g);
  }

  function Wrapped<L>(result: seq<Group<L>>): (cs: seq<Pattern<L>>)
    ensures |cs| == |result|
    ensures forall i :: 0 <= i < |result| ==> cs[i] == Required(result[i])
  {
    if result == [] then [] else [Required(result[0])] + Wrapped(result[1..])
  }

  /** With the queue empty, the finished cases are the alternatives. */
  lemma WrapCases<L>(result: seq<Group<L>>, r: Pattern<L>, pattern: Pattern<L>)
    requires AllFlat(result)
    requires Covers(result, [], pattern)
    requires r == Either(Wrapped(result))
    ensures IsCases(r)
    ensures multiset(Cases(r)) == multiset(Alts(pattern))
    ensures |r.children| == AltCount(pattern)
  {
    WrappedCases(result, r);
    assert multiset(Cases(r)) == multiset(Alts(pattern));
    SameSize(Cases(r), Alts(pattern));
    AltsLength(pattern);
  }

  lemma WrappedCases<L>(result: seq<Group<L>>, r: Pattern<L>)
    requires AllFlat(result) && r == Either(Wrapped(result))
    ensures IsCases(r) && Cases(r) == AltsOf(result)
  {
    FinishedCases(result);
  }

  lemma SameSize<T>(s: seq<T>, t: seq<T>)
    requires multiset(s) == multiset(t)
    ensures |s| == |t|
  {
    assert |multiset(s)| == |multiset(t)|;
  }

  lemma InitialQueue<L>(pattern: Pattern<L>)
    ensures AltsOf([[pattern]]) == Alts(pattern)
    ensures TotalRounds([[pattern]]) == Rounds([pattern])
  {
    AltsOfOne([pattern]);
    assert [pattern][1..] == [];
    CrossRightUnit(Alts(pattern));
    assert [[pattern]][1..] == [];
  }

  /** Opens the branch `child`, taken out of a group that leaves `rest`. */
  method Open<L>(child: Pattern<L>, rest: Group<L>) returns (expanded: seq<Group<L>>)
    requires !child.Leaf?
    ensures expanded == Opened(child, rest)
  {
    if child.Either? {
      expanded := [];
      for k := 0 to |child.children|
        invariant expanded == Prefixed(child.children[..k], rest)
      {
        PrefixedSnoc(child.children, k, rest);
        expanded := expanded + [[child.children[k]] + rest];
      }
      assert child.children[..|child.children|] == child.children;
    } else if child.OneOrMore? {
      expanded := [child.children + child.children + rest];
    } else {
      expanded := [child.children + rest];
    }
  }

  /** Opens the first branch of a group: lines 84-94. */
  method OpenGroup<L(==)>(group: Group<L>) returns (expanded: seq<Group<L>>)
    requires !Flat(group)
    ensures expanded == Expand(group)
  {
    FirstBranchIsRemoved(group);
    var child := group[FirstBranch(group)];
    expanded := Open(child, Remove(group, child));
  }

  /** The result is one case for each alternative of the pattern, with the same leaves. */
  method Transform<L(==)>(pattern: Pattern<L>) returns (r: Pattern<L>, ghost rounds: nat)
    ensures IsCases(r)
    ensures multiset(Cases(r)) == multiset(Alts(pattern))
    ensures |r.children| == AltCount(pattern)
    ensures rounds == Rounds([pattern])
  {
    var result: seq<Group<L>> := [];
    var groups: seq<Group<L>> := [[pattern]];
    rounds := 0;
    InitialQueue(pattern);
    while groups != []
      invariant AllFlat(result)
      invariant Covers(result, groups, pattern)
      invariant rounds + TotalRounds(groups) == Rounds([pattern])
      decreases TotalRounds(groups)
    {
      var group := groups[0];
      var queue := groups[1..];
      assert groups == [group] + queue;
      rounds := rounds + 1;
      if !Flat(group) {
        OpenStep(group, queue, result, pattern);
        var expanded := OpenGroup(group);
        groups := queue + expanded;
      } else {
        FinishStep(group, queue, result, pattern);
        groups := queue;
        result := result + [group];
      }
    }
    r := Either(Wrapped(result));
    WrapCases(result, r, pattern);
  }

  lemma {:induction false} CrossRightUnit<L>(xs: seq<multiset<L>>)
    ensures Cross(xs, [multiset{}]) == xs
  {
    if xs != [] {
      CrossRightUnit(xs[1..]);
      assert AddAll(xs[0], [multiset{}])[0] == xs[0];
    }
  }

  lemma {:induction false} PrefixedSnoc<L>(cs: seq<Pattern<L>>, k: nat, rest: Group<L>)
    requires k < |cs|
    ensures Prefixed(cs[..k + 1], rest) == Prefixed(cs[..k], rest) + [[cs[k]] + rest]
  {
    if k == 0 {
      assert cs[..1] == [cs[0]];
    } else {
      PrefixedSnoc(cs[1..], k - 1, rest);
      assert cs[..k + 1][1..] == cs[1..][..k] && cs[..k][1..] == cs[1..][..k - 1];
    }
  }
}
