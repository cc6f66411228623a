/** docopt's matcher (docopt.py:112-279), every outcome owning its `collected`.

`Match` follows the source: it threads what is left of argv and what has been collected
through the tree and backs out of failed branches.  `Run` is the reference: it leaves out
`collected` and records instead which leaf took which argv element.  `MatchIsRun` connects
the two; the laws about values are proved on runs in Capture.dfy.
 */
module Matcher {
  import opened Basics
  import opened Elements
  import opened Patterns

  type Tree = Pattern<Element>

  // ---------- leaves ----------

  /** What a leaf captures when it takes `item` (docopt.py:152-177, 204-208). */
  function MatchOf(self: Element, item: Element): Element {
    match self
    case Argument(name, _) => Argument(name, item.value)
    case Command(name, _) => Command(name, Flag(true))
    case Opt(_, _, _, _) => item
  }

  predicate SpelledBy(name: Option<string>, v: Value) {
    match name
    case Some(s) => v == Text(s)
    case None => v.Null?
  }

  /** Position of the argv element `self` takes; the length of `left` if it takes none. */
  function SingleMatch(self: Element, left: seq<Element>): (pos: nat)
    ensures pos <= |left|
  {
    match self
    case Argument(_, _) => FindArgument(left)
    case Command(name, _) =>
      var i := FindArgument(left);
      if i < |left| && SpelledBy(name, left[i].value) then i else |left|
    case Opt(_, _, _, _) => Find(left, Name(self))
  }

  /** What `self` adds to a collected value (docopt.py:119-124). */
  function Increment(self: Element, m: Element): Value {
    if self.value.Count? then Count(1)
    else if m.value.Text? then Texts([m.value.text])
    else m.value
  }

  /** Lines 118-130: an accumulating leaf adds to the entry of its name, others append. */
  function Collect(collected: seq<Element>, self: Element, m: Element): seq<Element> {
    if Accumulates(self) then
      var j := Find(collected, Name(self));
      var inc := Increment(self, m);
      if j == |collected| then collected + [m.(value := inc)]
      else collected[j := collected[j].(value := Plus(collected[j].value, inc))]
    else collected + [m]
  }

  // ---------- the matcher ----------

  datatype Outcome = Outcome(matched: bool, left: seq<Element>, collected: seq<Element>)

  ghost predicate Sane(o: Outcome, left: seq<Element>, collected: seq<Element>) {
    && (o.left == left || |o.left| < |left|)
    && (!o.matched ==> o.left == left && o.collected == collected)
  }

  /** The assertion at docopt.py:249: a repeated group has one member. */
  predicate Matchable(p: Tree)
    decreases p
  {
    !p.Leaf? ==>
      && (p.OneOrMore? ==> |p.children| == 1)
      && forall i :: 0 <= i < |p.children| ==> Matchable(p.children[i])
  }

  predicate AllMatchable(cs: seq<Tree>) {
    forall i :: 0 <= i < |cs| ==> Matchable(cs[i])
  }

  function Match(p: Tree, left: seq<Element>, collected: seq<Element>): (o: Outcome)
    requires Matchable(p)
    ensures Sane(o, left, collected)
    decreases p, 0
  {
    match p
    case Leaf(self) =>
      var pos := SingleMatch(self, left);
      if pos == |left| then Outcome(false, left, collected)
      else Outcome(true, Drop(left, pos), Collect(collected, self, MatchOf(self, left[pos])))
    case Required(cs) =>
      var o := MatchAll(cs, left, collected);
      if o.matched then o else Outcome(false, left, collected)
    case Optional(cs) => MatchEach(cs, left, collected)
    case OptionsShortcut(cs) => MatchEach(cs, left, collected)
    case OneOrMore(cs) =>
      var (times, l, c) := MatchLoop(cs[0], left, collected, None, 0);
      if times >= 1 then Outcome(true, l, c) else Outcome(false, left, collected)
    case Either(cs) =>
      var outcomes := MatchAny(cs, left, collected);
      if outcomes == [] then Outcome(false, left, collected)
      else outcomes[Shortest(Lefts(outcomes))]
  }

  /** Required's loop: stops at the first failure. */
  function MatchAll(cs: seq<Tree>, left: seq<Element>, collected: seq<Element>): (o: Outcome)
    requires AllMatchable(cs)
    ensures o.left == left || |o.left| < |left|
    decreases cs, 0
  {
    if cs == [] then Outcome(true, left, collected) else
      var o := Match(cs[0], left, collected);
      if o.matched then MatchAll(cs[1..], o.left, o.collected) else o
  }

  /** Optional's loop: goes on after a failure. */
  function MatchEach(cs: seq<Tree>, left: seq<Element>, collected: seq<Element>): (o: Outcome)
    requires AllMatchable(cs)
    ensures o.matched && (o.left == left || |o.left| < |left|)
    decreases cs, 0
  {
    if cs == [] then Outcome(true, left, collected) else
      var o := Match(cs[0], left, collected);
      MatchEach(cs[1..], o.left, o.collected)
  }

  /** OneOrMore's loop, `prev` being what was left one round before. */
  function MatchLoop(p: Tree, l: seq<Element>, c: seq<Element>, prev: Option<seq<Element>>, times: nat)
    : (r: (nat, seq<Element>, seq<Element>))
    requires Matchable(p)
    requires prev.None? || prev == Some(l)
    ensures r.0 >= times && (r.1 == l || |r.1| < |l|)
    decreases p, 1, if prev.None? then 1 else 0, |l|
  {
    var o := Match(p, l, c);
    var times := if o.matched then times + 1 else times;
    if prev == Some(o.left) || !o.matched then (times, o.left, o.collected)
    else MatchLoop(p, o.left, o.collected, Some(o.left), times)
  }

  /** Either's successful outcomes, all from the same starting point. */
  function MatchAny(cs: seq<Tree>, left: seq<Element>, collected: seq<Element>): (os: seq<Outcome>)
    requires AllMatchable(cs)
    ensures forall i :: 0 <= i < |os| ==> os[i].matched && Sane(os[i], left, collected)
    decreases cs, 0
  {
    if cs == [] then [] else
      var o := Match(cs[0], left, collected);
      (if o.matched then [o] else []) + MatchAny(cs[1..], left, collected)
  }

  function Lefts(os: seq<Outcome>): (ls: seq<seq<Element>>)
    ensures |ls| == |os|
    ensures forall i :: 0 <= i < |os| ==> ls[i] == os[i].left
  {
    if os == [] then [] else [os[0].left] + Lefts(os[1..])
  }

  /** `min(..., key=len)`: the first of the shortest. */
  function Shortest(ls: seq<seq<Element>>): (i: nat)
    requires ls != []
    ensures i < |ls|
    ensures forall k :: 0 <= k < |ls| ==> |ls[i]| <= |ls[k]|
    ensures forall k :: 0 <= k < i ==> |ls[i]| < |ls[k]|
  {
    if |ls| == 1 then 0 else
      var i := 1 + Shortest(ls[1..]);
      assert forall k :: 0 < k < |ls| ==> ls[k] == ls[1..][k - 1];
      if |ls[0]| <= |ls[i]| then 0 else i
  }

  // ---------- runs ----------

  /** The leaf `leaf` took the argv element `item`. */
  datatype Event = Event(leaf: Element, item: Element)

  /** `tried` counts the matches of accumulating leaves, those that were discarded included. */
  datatype Run = Run(matched: bool, left: seq<Element>, events: seq<Event>, tried: nat)

  function CollectAll(collected: seq<Element>, events: seq<Event>): seq<Element>
    decreases |events|
  {
    if events == [] then collected
    else CollectAll(Collect(collected, events[0].leaf, MatchOf(events[0].leaf, events[0].item)), events[1..])
  }

  ghost predicate SaneRun(r: Run, left: seq<Element>) {
    && (r.left == left || |r.left| < |left|)
    && (!r.matched ==> r.left == left && r.events == [])
  }

  function RunOf(p: Tree, left: seq<Element>): (r: Run)
    requires Matchable(p)
    ensures SaneRun(r, left)
    decreases p, 0
  {
    match p
    case Leaf(self) =>
      var pos := SingleMatch(self, left);
      if pos == |left| then Run(false, left, [], 0)
      else Run(true, Drop(left, pos), [Event(self, left[pos])], if Accumulates(self) then 1 else 0)
    case Required(cs) =>
      var r := RunAll(cs, left);
      if r.matched then r else Run(false, left, [], r.tried)
    case Optional(cs) => RunEach(cs, left)
    case OptionsShortcut(cs) => RunEach(cs, left)
    case OneOrMore(cs) =>
      var (times, r) := RunLoop(cs[0], left, true);
      if times >= 1 then Run(true, r.left, r.events, r.tried) else Run(false, left, [], r.tried)
    case Either(cs) =>
      var runs := RunAny(cs, left);
      var tried := TriedAny(cs, left);
      if runs == [] then Run(false, left, [], tried) else
        var best := runs[Shortest(RunLefts(runs))];
        Run(true, best.left, best.events, tried)
  }

  function RunAll(cs: seq<Tree>, left: seq<Element>): (r: Run)
    requires AllMatchable(cs)
    ensures r.left == left || |r.left| < |left|
    decreases cs, 0
  {
    if cs == [] then Run(true, left, [], 0) else
      var r := RunOf(cs[0], left);
      if !r.matched then r else
        var s := RunAll(cs[1..], r.left);
        Run(s.matched, s.left, r.events + s.events, r.tried + s.tried)
  }

  function RunEach(cs: seq<Tree>, left: seq<Element>): (r: Run)
    requires AllMatchable(cs)
    ensures r.matched && (r.left == left || |r.left| < |left|)
    decreases cs, 0
  {
    if cs == [] then Run(true, left, [], 0) else
      var r := RunOf(cs[0], left);
      var s := RunEach(cs[1..], r.left);
      Run(true, s.left, r.events + s.events, r.tried + s.tried)
  }

  /** Repeats while something is consumed; in the first round it need not be.
      Returns also the number of rounds that matched. */
  function RunLoop(p: Tree, l: seq<Element>, first: bool): (r: (nat, Run))
    requires Matchable(p)
    ensures r.1.left == l || |r.1.left| < |l|
    decreases p, 1, if first then 1 else 0, |l|
  {
    var r := RunOf(p, l);
    if !r.matched || (!first && r.left == l) then (if r.matched then 1 else 0, r)
    else Round(r, RunLoop(p, r.left, false))
  }

  /** A round and the rounds after it. */
  function Round(r: Run, rest: (nat, Run)): (nat, Run) {
    (1 + rest.0, Run(true, rest.1.left, r.events + rest.1.events, r.tried + rest.1.tried))
  }

  function RunAny(cs: seq<Tree>, left: seq<Element>): (rs: seq<Run>)
    requires AllMatchable(cs)
    ensures forall i :: 0 <= i < |rs| ==> rs[i].matched && SaneRun(rs[i], left)
    decreases cs, 0
  {
    if cs == [] then [] else
      var r := RunOf(cs[0], left);
      (if r.matched then [r] else []) + RunAny(cs[1..], left)
  }

  /** Which branch is the `k`-th that matches. */
  function BranchOf(cs: seq<Tree>, left: seq<Element>, k: nat): (i: nat)
    requires AllMatchable(cs) && k < |RunAny(cs, left)|
    ensures i < |cs| && RunOf(cs[i], left) == RunAny(cs, left)[k] && RunOf(cs[i], left).matched
    decreases cs, 1
  {
    if RunOf(cs[0], left).matched && k == 0 then 0
    else 1 + BranchOf(cs[1..], left, if RunOf(cs[0], left).matched then k - 1 else k)
  }

  /** The matches of accumulating leaves in all branches of an Either. */
  function TriedAny(cs: seq<Tree>, left: seq<Element>): nat
    requires AllMatchable(cs)
    decreases cs, 0
  {
    if cs == [] then 0 else RunOf(cs[0], left).tried + TriedAny(cs[1..], left)
  }

  function RunLefts(rs: seq<Run>): (ls: seq<seq<Element>>)
    ensures |ls| == |rs|
    ensures forall i :: 0 <= i < |rs| ==> ls[i] == rs[i].left
  {
    if rs == [] then [] else [rs[0].left] + RunLefts(rs[1..])
  }

  // ---------- the matcher computes its run ----------

  lemma CollectOne(c: seq<Element>, e: Event)
    ensures CollectAll(c, [e]) == Collect(c, e.leaf, MatchOf(e.leaf, e.item))
  {
    assert CollectAll(c, [e]) == CollectAll(Collect(c, e.leaf, MatchOf(e.leaf, e.item)), [e][1..]);
    assert [e][1..] == [];
  }

  lemma {:induction false} CollectAllConcat(c: seq<Element>, es: seq<Event>, fs: seq<Event>)
    ensures CollectAll(c, es + fs) == CollectAll(CollectAll(c, es), fs)
    decreases |es|
  {
    if es == [] {
      assert es + fs == fs;
    } else {
      assert (es + fs)[0] == es[0] && (es + fs)[1..] == es[1..] + fs;
      CollectAllConcat(Collect(c, es[0].leaf, MatchOf(es[0].leaf, es[0].item)), es[1..], fs);
    }
  }

  /** The outcome of following run `r` with `c` already collected. */
  function Followed(c: seq<Element>, r: Run): Outcome {
    Outcome(r.matched, r.left, CollectAll(c, r.events))
  }

  /** Whether a pattern matches and what it leaves do not depend on what has been
      collected, and what it collects is the fold of the events of its run. */
  lemma {:induction false} MatchIsRun(p: Tree, left: seq<Element>, c: seq<Element>)
    requires Matchable(p)
    ensures Match(p, left, c) == Followed(c, RunOf(p, left))
    decreases p, 0
  {
    match p
    case Leaf(self) =>
      var pos := SingleMatch(self, left);
      if pos < |left| {
        CollectOne(c, Event(self, left[pos]));
      }
    case Required(cs) => MatchAllIsRun(cs, left, c);
    case Optional(cs) => MatchEachIsRun(cs, left, c);
    case OptionsShortcut(cs) => MatchEachIsRun(cs, left, c);
    case OneOrMore(cs) => MatchLoopIsRun(cs[0], left, c, true, 0);
    case Either(cs) => MatchAnyIsRun(cs, left, c);
      assert Lefts(MatchAny(cs, left, c)) == RunLefts(RunAny(cs, left));
  }

  lemma {:induction false} MatchAllIsRun(cs: seq<Tree>, left: seq<Element>, c: seq<Element>)
    requires AllMatchable(cs)
    ensures MatchAll(cs, left, c).matched == RunAll(cs, left).matched
    ensures RunAll(cs, left).matched ==> MatchAll(cs, left, c) == Followed(c, RunAll(cs, left))
    decreases cs, 0
  {
    if cs != [] {
      MatchIsRun(cs[0], left, c);
      var r := RunOf(cs[0], left);
      if r.matched {
        MatchAllIsRun(cs[1..], r.left, CollectAll(c, r.events));
        CollectAllConcat(c, r.events, RunAll(cs[1..], r.left).events);
      }
    }
  }

  lemma {:induction false} MatchEachIsRun(cs: seq<Tree>, left: seq<Element>, c: seq<Element>)
    requires AllMatchable(cs)
    ensures MatchEach(cs, left, c) == Followed(c, RunEach(cs, left))
    decreases cs, 0
  {
    if cs != [] {
      MatchIsRun(cs[0], left, c);
      var r := RunOf(cs[0], left);
      MatchEachIsRun(cs[1..], r.left, CollectAll(c, r.events));
      CollectAllConcat(c, r.events, RunEach(cs[1..], r.left).events);
    }
  }

  /** The value of `l_` on entry to a round. */
  function Before(first: bool, l: seq<Element>): Option<seq<Element>> {
    if first then None else Some(l)
  }

  function LoopResult(c: seq<Element>, nr: (nat, Run), times: nat): (nat, seq<Element>, seq<Element>) {
    (times + nr.0, nr.1.left, CollectAll(c, nr.1.events))
  }

  lemma LastRound(p: Tree, l: seq<Element>, c: seq<Element>, first: bool, times: nat)
    requires Matchable(p)
    requires Match(p, l, c) == Followed(c, RunOf(p, l))
    requires !RunOf(p, l).matched || (!first && RunOf(p, l).left == l)
    ensures MatchLoop(p, l, c, Before(first, l), times) == LoopResult(c, RunLoop(p, l, first), times)
  {
  }

  lemma InnerRound(p: Tree, l: seq<Element>, c: seq<Element>, first: bool, times: nat)
    requires Matchable(p)
    requires Match(p, l, c) == Followed(c, RunOf(p, l))
    requires RunOf(p, l).matched && (first || RunOf(p, l).left != l)
    ensures var r := RunOf(p, l);
            && MatchLoop(p, l, c, Before(first, l), times)
               == MatchLoop(p, r.left, CollectAll(c, r.events), Before(false, r.left), times + 1)
            && LoopResult(c, RunLoop(p, l, first), times)
               == LoopResult(CollectAll(c, r.events), RunLoop(p, r.left, false), times + 1)
  {
    InnerRun(p, l, c, first, times);
  }

  lemma InnerRun(p: Tree, l: seq<Element>, c: seq<Element>, first: bool, times: nat)
    requires Matchable(p)
    requires RunOf(p, l).matched && (first || RunOf(p, l).left != l)
    ensures var r := RunOf(p, l);
            LoopResult(c, RunLoop(p, l, first), times)
            == LoopResult(CollectAll(c, r.events), RunLoop(p, r.left, false), times + 1)
  {
    RunGoesOn(p, l, first);
    RoundResult(c, RunOf(p, l), RunLoop(p, RunOf(p, l).left, false), times);
  }

  lemma RunGoesOn(p: Tree, l: seq<Element>, first: bool)
    requires Matchable(p) && RunOf(p, l).matched && (first || RunOf(p, l).left != l)
    ensures RunLoop(p, l, first) == Round(RunOf(p, l), RunLoop(p, RunOf(p, l).left, false))
  {
  }

  lemma RoundResult(c: seq<Element>, r: Run, rest: (nat, Run), times: nat)
    ensures LoopResult(c, Round(r, rest), times) == LoopResult(CollectAll(c, r.events), rest, times + 1)
  {
    CollectAllConcat(c, r.events, rest.1.events);
  }

  lemma {:induction false} MatchLoopIsRun(p: Tree, l: seq<Element>, c: seq<Element>, first: bool, times: nat)
    requires Matchable(p)
    ensures MatchLoop(p, l, c, Before(first, l), times) == LoopResult(c, RunLoop(p, l, first), times)
    decreases p, 1, if first then 1 else 0, |l|
  {
    MatchIsRun(p, l, c);
    var r := RunOf(p, l);
    if r.matched && (first || r.left != l) {
      InnerRound(p, l, c, first, times);
      MatchLoopIsRun(p, r.left, CollectAll(c, r.events), false, times + 1);
    } else {
      LastRound(p, l, c, first, times);
    }
  }

  lemma {:induction false} MatchAnyIsRun(cs: seq<Tree>, left: seq<Element>, c: seq<Element>)
    requires AllMatchable(cs)
    ensures |MatchAny(cs, left, c)| == |RunAny(cs, left)|
    ensures forall i :: 0 <= i < |RunAny(cs, left)| ==>
              MatchAny(cs, left, c)[i] == Followed(c, RunAny(cs, left)[i])
    decreases cs, 0
  {
    if cs != [] {
      MatchIsRun(cs[0], left, c);
      MatchAnyIsRun(cs[1..], left, c);
    }
  }
}
