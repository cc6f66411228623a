/** The matcher on shared objects (docopt.py:112-279 with lines 126 and 128 as written).

argv elements and collected entries are objects: an option that matches is the argv element
itself, line 126 overwrites its value and line 128 adds to an entry that other outcomes may
share, and neither is undone when an outcome is discarded.  Objects are cells of a memory.

What matches and what is left never depends on this (`HeapControl`).  The values do: a
discarded match of an accumulating leaf can be counted (`HeapOvercounts`) or undo one that is
kept (`HeapUndercounts`).  When no such match is discarded the values are those of
`Matcher.Match` (`HeapAgrees`); Reporting.dfy says exactly when docopt's answer suffers.
 */
module HeapMatcher {
  import opened Basics
  import opened Elements
  import opened Patterns
  import opened Matcher
  import opened Language
  import opened Repeats
  import opened Capture

  type Addr = nat

  datatype HeapOutcome = HeapOutcome(matched: bool, left: seq<Addr>, collected: seq<Addr>, mem: seq<Element>)

  predicate Within(xs: seq<Addr>, mem: seq<Element>) {
    forall i :: 0 <= i < |xs| ==> xs[i] < |mem|
  }

  function Deref(mem: seq<Element>, xs: seq<Addr>): (r: seq<Element>)
    requires Within(xs, mem)
    ensures |r| == |xs|
    ensures forall i :: 0 <= i < |xs| ==> r[i] == mem[xs[i]]
  {
    seq(|xs|, i requires 0 <= i < |xs| => mem[xs[i]])
  }

  function SetValue(e: Element, v: Value): Element {
    match e
    case Argument(name, _) => Argument(name, v)
    case Command(name, _) => Command(name, v)
    case Opt(short, long, argcount, _) => Opt(short, long, argcount, v)
  }

  // ---------- the matcher ----------

  ghost predicate SaneHeap(o: HeapOutcome, left: seq<Addr>, collected: seq<Addr>, mem: seq<Element>) {
    && |mem| <= |o.mem|
    && Within(o.left, o.mem) && Within(o.collected, o.mem)
    && (o.left == left || |o.left| < |left|)
  }

  /** Lines 112-130. */
  function HeapLeaf(self: Element, left: seq<Addr>, collected: seq<Addr>, mem: seq<Element>): (o: HeapOutcome)
    requires Within(left, mem) && Within(collected, mem)
    ensures SaneHeap(o, left, collected, mem)
  {
    var pos := SingleMatch(self, Deref(mem, left));
    if pos == |left| then HeapOutcome(false, left, collected, mem) else
      var item := left[pos];
      // an option matches as the argv element itself, the others as a new object
      var m := if self.Opt? then item else |mem|;
      var mem := if self.Opt? then mem else mem + [MatchOf(self, mem[item])];
      if Accumulates(self) then
        var j := Find(Deref(mem, collected), Name(self));
        var inc := Increment(self, mem[m]);
        if j == |collected| then
          HeapOutcome(true, Drop(left, pos), collected + [m], mem[m := SetValue(mem[m], inc)])
        else
          var a := collected[j];
          HeapOutcome(true, Drop(left, pos), collected, mem[a := SetValue(mem[a], Plus(mem[a].value, inc))])
      else HeapOutcome(true, Drop(left, pos), collected + [m], mem)
  }

  function HeapMatch(p: Tree, left: seq<Addr>, collected: seq<Addr>, mem: seq<Element>): (o: HeapOutcome)
    requires Matchable(p) && Within(left, mem) && Within(collected, mem)
    ensures SaneHeap(o, left, collected, mem)
    decreases p, 0
  {
    match p
    case Leaf(self) => HeapLeaf(self, left, collected, mem)
    case Required(cs) =>
      var o := HeapAll(cs, left, collected, mem);
      if o.matched then o else HeapOutcome(false, left, collected, o.mem)
    case Optional(cs) => HeapEach(cs, left, collected, mem)
    case OptionsShortcut(cs) => HeapEach(cs, left, collected, mem)
    case OneOrMore(cs) =>
      var (times, o) := HeapLoop(cs[0], left, collected, mem, None, 0);
      if times >= 1 then HeapOutcome(true, o.left, o.collected, o.mem)
      else HeapOutcome(false, left, collected, o.mem)
    case Either(cs) =>
      var (outcomes, mem') := HeapAny(cs, left, collected, mem);
      if outcomes == [] then HeapOutcome(false, left, collected, mem') else
        var o := outcomes[ShortestAddrs(outcomes)];
        HeapOutcome(true, o.left, o.collected, mem')
  }

  function HeapAll(cs: seq<Tree>, left: seq<Addr>, collected: seq<Addr>, mem: seq<Element>): (o: HeapOutcome)
    requires AllMatchable(cs) && Within(left, mem) && Within(collected, mem)
    ensures SaneHeap(o, left, collected, mem)
    decreases cs, 0
  {
    if cs == [] then HeapOutcome(true, left, collected, mem) else
      var o := HeapMatch(cs[0], left, collected, mem);
      if o.matched then HeapAll(cs[1..], o.left, o.collected, o.mem) else o
  }

  function HeapEach(cs: seq<Tree>, left: seq<Addr>, collected: seq<Addr>, mem: seq<Element>): (o: HeapOutcome)
    requires AllMatchable(cs) && Within(left, mem) && Within(collected, mem)
    ensures o.matched && SaneHeap(o, left, collected, mem)
    decreases cs, 0
  {
    if cs == [] then HeapOutcome(true, left, collected, mem) else
      var o := HeapMatch(cs[0], left, collected, mem);
      HeapEach(cs[1..], o.left, o.collected, o.mem)
  }

  /** `l_ == l` compares lists of objects by their printed forms. */
  predicate SameLeft(prev: Option<seq<Addr>>, left: seq<Addr>, mem: seq<Element>)
    requires prev.Some? ==> Within(prev.value, mem)
    requires Within(left, mem)
  {
    prev.Some? && Deref(mem, prev.value) == Deref(mem, left)
  }

  function HeapLoop(p: Tree, l: seq<Addr>, c: seq<Addr>, mem: seq<Element>, prev: Option<seq<Addr>>, times: nat)
    : (r: (nat, HeapOutcome))
    requires Matchable(p) && Within(l, mem) && Within(c, mem)
    requires prev.None? || prev == Some(l)
    ensures SaneHeap(r.1, l, c, mem)
    decreases p, 1, if prev.None? then 1 else 0, |l|
  {
    var o := HeapMatch(p, l, c, mem);
    var times := if o.matched then times + 1 else times;
    if SameLeft(prev, o.left, o.mem) || !o.matched then (times, o)
    else HeapLoop(p, o.left, o.collected, o.mem, Some(o.left), times)
  }

  /** The branches run one after the other on the same memory. */
  function HeapAny(cs: seq<Tree>, left: seq<Addr>, collected: seq<Addr>, mem: seq<Element>)
    : (r: (seq<HeapOutcome>, seq<Element>))
    requires AllMatchable(cs) && Within(left, mem) && Within(collected, mem)
    ensures |mem| <= |r.1|
    ensures forall i :: 0 <= i < |r.0| ==>
              && r.0[i].matched && (r.0[i].left == left || |r.0[i].left| < |left|)
              && Within(r.0[i].left, r.1) && Within(r.0[i].collected, r.1)
    decreases cs, 0
  {
    if cs == [] then ([], mem) else
      var o := HeapMatch(cs[0], left, collected, mem);
      var (os, mem') := HeapAny(cs[1..], left, collected, o.mem);
      ((if o.matched then [o] else []) + os, mem')
  }

  /** `min(outcomes, key=len of left)`: the first of the shortest. */
  function ShortestAddrs(os: seq<HeapOutcome>): (i: nat)
    requires os != []
    ensures i < |os|
    ensures forall k :: 0 <= k < |os| ==> |os[i].left| <= |os[k].left|
    ensures forall k :: 0 <= k < i ==> |os[i].left| < |os[k].left|
  {
    if |os| == 1 then 0 else
      var i := 1 + ShortestAddrs(os[1..]);
      assert forall k :: 0 < k < |os| ==> os[k] == os[1..][k - 1];
      if |os[0].left| <= |os[i].left| then 0 else i
  }

  // ---------- what the matcher looks at ----------

  /** The part of an element that decides what matches: all of a word, and all but the value
      of anything that has a name. */
  function Skeleton(e: Element): Element {
    if e.Argument? && e.name.None? then e else SetValue(e, Null)
  }

  predicate Alike(l: seq<Element>, m: seq<Element>) {
    |l| == |m| && forall i :: 0 <= i < |l| ==> Skeleton(l[i]) == Skeleton(m[i])
  }

  /** Arguments in argv have no name. */
  predicate FromArgv(l: seq<Element>) {
    forall i :: 0 <= i < |l| ==> l[i].Argument? ==> l[i].name.None?
  }

  lemma AlikeDrop(l: seq<Element>, m: seq<Element>, pos: nat)
    requires Alike(l, m) && pos < |l|
    ensures Alike(Drop(l, pos), Drop(m, pos))
  {
  }

  lemma AlikeFromArgv(l: seq<Element>, m: seq<Element>)
    requires Alike(l, m) && FromArgv(l)
    ensures FromArgv(m)
  {
    forall i | 0 <= i < |m| && m[i].Argument?
      ensures m[i].name.None?
    {
      assert Skeleton(l[i]) == Skeleton(m[i]);
    }
  }

  lemma {:induction false} FindAlike(l: seq<Element>, m: seq<Element>, n: Option<string>)
    requires Alike(l, m)
    ensures Find(l, n) == Find(m, n)
  {
    if l != [] {
      assert Name(l[0]) == Name(m[0]) by { assert Skeleton(l[0]) == Skeleton(m[0]); }
      FindAlike(l[1..], m[1..], n);
    }
  }

  lemma {:induction false} FindArgumentAlike(l: seq<Element>, m: seq<Element>)
    requires Alike(l, m)
    ensures FindArgument(l) == FindArgument(m)
  {
    if l != [] {
      assert l[0].Argument? == m[0].Argument? by { assert Skeleton(l[0]) == Skeleton(m[0]); }
      FindArgumentAlike(l[1..], m[1..]);
    }
  }

  lemma SingleMatchAlike(self: Element, l: seq<Element>, m: seq<Element>)
    requires Alike(l, m) && FromArgv(l)
    ensures SingleMatch(self, l) == SingleMatch(self, m)
  {
    FindAlike(l, m, Name(self));
    FindArgumentAlike(l, m);
    var i := FindArgument(l);
    if i < |l| {
      assert Skeleton(l[i]) == Skeleton(m[i]);
    }
  }

  // ---------- runs on alike argvs ----------

  /** Events with the same leaves. */
  predicate SameLeaves(es: seq<Event>, fs: seq<Event>) {
    |es| == |fs| && forall i :: 0 <= i < |es| ==> es[i].leaf == fs[i].leaf
  }

  predicate RunsAlike(r: Run, s: Run) {
    r.matched == s.matched && Alike(r.left, s.left) && SameLeaves(r.events, s.events) && r.tried == s.tried
  }

  lemma {:induction false} RunAlike(p: Tree, l: seq<Element>, m: seq<Element>)
    requires Matchable(p) && Alike(l, m) && FromArgv(l)
    ensures RunsAlike(RunOf(p, l), RunOf(p, m)) && FromArgv(RunOf(p, l).left)
    decreases p, 0
  {
    match p
    case Leaf(self) =>
      SingleMatchAlike(self, l, m);
      var pos := SingleMatch(self, l);
      if pos < |l| {
        AlikeDrop(l, m, pos);
      }
    case Required(cs) => RunAllAlike(cs, l, m);
    case Optional(cs) => RunEachAlike(cs, l, m);
    case OptionsShortcut(cs) => RunEachAlike(cs, l, m);
    case OneOrMore(cs) => RunLoopAlike(cs[0], l, m, true);
    case Either(cs) =>
      RunAnyAlike(cs, l, m);
      EitherAlike(cs, l, m);
  }

  lemma EitherAlike(cs: seq<Tree>, l: seq<Element>, m: seq<Element>)
    requires Matchable(Either(cs)) && Alike(l, m) && FromArgv(l)
    requires |RunAny(cs, l)| == |RunAny(cs, m)| && TriedAny(cs, l) == TriedAny(cs, m)
    requires forall i :: 0 <= i < |RunAny(cs, l)| ==>
               RunsAlike(RunAny(cs, l)[i], RunAny(cs, m)[i]) && FromArgv(RunAny(cs, l)[i].left)
    ensures RunsAlike(RunOf(Either(cs), l), RunOf(Either(cs), m)) && FromArgv(RunOf(Either(cs), l).left)
  {
    var rs, ss := RunAny(cs, l), RunAny(cs, m);
    if rs != [] {
      BestAlike(rs, ss);
    }
  }

  lemma BestAlike(rs: seq<Run>, ss: seq<Run>)
    requires rs != [] && |rs| == |ss|
    requires forall i :: 0 <= i < |rs| ==> RunsAlike(rs[i], ss[i]) && FromArgv(rs[i].left)
    ensures var r, s := rs[Shortest(RunLefts(rs))], ss[Shortest(RunLefts(ss))]; RunsAlike(r, s) && FromArgv(r.left)
  {
    ShortestAlike(RunLefts(rs), RunLefts(ss));
  }

  lemma ShortestAlike(ls: seq<seq<Element>>, ms: seq<seq<Element>>)
    requires ls != [] && |ls| == |ms| && forall i :: 0 <= i < |ls| ==> |ls[i]| == |ms[i]|
    ensures Shortest(ls) == Shortest(ms)
  {
    var i, j := Shortest(ls), Shortest(ms);
    assert |ls[i]| <= |ls[j]| && |ms[j]| <= |ms[i]|;
  }

  lemma {:induction false} RunAllAlike(cs: seq<Tree>, l: seq<Element>, m: seq<Element>)
    requires AllMatchable(cs) && Alike(l, m) && FromArgv(l)
    ensures RunsAlike(RunAll(cs, l), RunAll(cs, m)) && FromArgv(RunAll(cs, l).left)
    decreases cs, 0
  {
    if cs != [] {
      RunAlike(cs[0], l, m);
      RunAllAlike(cs[1..], RunOf(cs[0], l).left, RunOf(cs[0], m).left);
    }
  }

  lemma {:induction false} RunEachAlike(cs: seq<Tree>, l: seq<Element>, m: seq<Element>)
    requires AllMatchable(cs) && Alike(l, m) && FromArgv(l)
    ensures RunsAlike(RunEach(cs, l), RunEach(cs, m)) && FromArgv(RunEach(cs, l).left)
    decreases cs, 0
  {
    if cs != [] {
      RunAlike(cs[0], l, m);
      RunEachAlike(cs[1..], RunOf(cs[0], l).left, RunOf(cs[0], m).left);
    }
  }

  lemma {:induction false} RunLoopAlike(p: Tree, l: seq<Element>, m: seq<Element>, first: bool)
    requires Matchable(p) && Alike(l, m) && FromArgv(l)
    ensures RunLoop(p, l, first).0 == RunLoop(p, m, first).0
    ensures RunsAlike(RunLoop(p, l, first).1, RunLoop(p, m, first).1) && FromArgv(RunLoop(p, l, first).1.left)
    decreases p, 1, if first then 1 else 0, |l|
  {
    RunAlike(p, l, m);
    var r, s := RunOf(p, l), RunOf(p, m);
    if r.matched && (first || r.left != l) {
      RunGoesOn(p, l, first);
      RunGoesOn(p, m, first);
      RunLoopAlike(p, r.left, s.left, false);
      RoundsAlike(r, s, RunLoop(p, r.left, false), RunLoop(p, s.left, false));
    } else {
      RunStops(p, l, first);
      RunStops(p, m, first);
    }
  }

  lemma RoundsAlike(r: Run, s: Run, x: (nat, Run), y: (nat, Run))
    requires RunsAlike(r, s) && x.0 == y.0 && RunsAlike(x.1, y.1)
    ensures Round(r, x).0 == Round(s, y).0 && RunsAlike(Round(r, x).1, Round(s, y).1)
  {
  }

  lemma {:induction false} RunAnyAlike(cs: seq<Tree>, l: seq<Element>, m: seq<Element>)
    requires AllMatchable(cs) && Alike(l, m) && FromArgv(l)
    ensures |RunAny(cs, l)| == |RunAny(cs, m)| && TriedAny(cs, l) == TriedAny(cs, m)
    ensures forall i :: 0 <= i < |RunAny(cs, l)| ==>
              RunsAlike(RunAny(cs, l)[i], RunAny(cs, m)[i]) && FromArgv(RunAny(cs, l)[i].left)
    decreases cs, 0
  {
    if cs != [] {
      RunAlike(cs[0], l, m);
      RunAnyAlike(cs[1..], l, m);
    }
  }

  // ---------- control does not depend on the mutations ----------

  ghost predicate NamedTree(p: Tree)
    decreases p
  {
    if p.Leaf? then Name(p.leaf).Some?
    else forall i :: 0 <= i < |p.children| ==> NamedTree(p.children[i])
  }

  ghost predicate AllNamed(cs: seq<Tree>) {
    forall i :: 0 <= i < |cs| ==> NamedTree(cs[i])
  }

  /** Cells keep everything but their value; words keep that too. */
  predicate KeepsSkeletons(mem: seq<Element>, mem': seq<Element>) {
    |mem| <= |mem'| && forall a :: 0 <= a < |mem| ==> Skeleton(mem'[a]) == Skeleton(mem[a])
  }

  /** `o` matched and left what run `r` did, and changed nothing if `r` tried no accumulator. */
  ghost predicate Controlled(o: HeapOutcome, r: Run, mem: seq<Element>)
    requires Within(o.left, o.mem)
  {
    && o.matched == r.matched
    && Alike(Deref(o.mem, o.left), r.left)
    && KeepsSkeletons(mem, o.mem)
    && (r.tried == 0 ==> mem <= o.mem)
  }

  lemma DerefAlike(mem: seq<Element>, mem': seq<Element>, xs: seq<Addr>)
    requires Within(xs, mem) && KeepsSkeletons(mem, mem')
    ensures Within(xs, mem') && Alike(Deref(mem, xs), Deref(mem', xs)) && Alike(Deref(mem', xs), Deref(mem, xs))
  {
  }

  lemma AlikeTrans(k: seq<Element>, l: seq<Element>, m: seq<Element>)
    requires Alike(k, l) && Alike(l, m)
    ensures Alike(k, m)
  {
  }

  lemma AlikeSym(k: seq<Element>, l: seq<Element>)
    requires Alike(k, l)
    ensures Alike(l, k)
  {
  }

  lemma DerefDrop(mem: seq<Element>, xs: seq<Addr>, pos: nat)
    requires Within(xs, mem) && pos < |xs|
    ensures Within(Drop(xs, pos), mem) && Deref(mem, Drop(xs, pos)) == Drop(Deref(mem, xs), pos)
  {
  }

  lemma LeafControl(self: Element, left: seq<Addr>, collected: seq<Addr>, mem: seq<Element>)
    requires Name(self).Some?
    requires Within(left, mem) && Within(collected, mem)
    ensures Controlled(HeapLeaf(self, left, collected, mem), RunOf(Leaf(self), Deref(mem, left)), mem)
  {
    var pos := SingleMatch(self, Deref(mem, left));
    var o := HeapLeaf(self, left, collected, mem);
    if pos < |left| {
      LeafKeepsSkeletons(self, left, collected, mem);
      DerefDrop(mem, left, pos);
      DerefAlike(mem, o.mem, Drop(left, pos));
    }
  }

  lemma LeafKeepsSkeletons(self: Element, left: seq<Addr>, collected: seq<Addr>, mem: seq<Element>)
    requires Name(self).Some?
    requires Within(left, mem) && Within(collected, mem)
    ensures KeepsSkeletons(mem, HeapLeaf(self, left, collected, mem).mem)
  {
    var l := Deref(mem, left);
    var pos := SingleMatch(self, l);
    if pos < |left| {
      SingleMatchFits(self, l);
      var item := left[pos];
      var m := if self.Opt? then item else |mem|;
      var mem' := if self.Opt? then mem else mem + [MatchOf(self, mem[item])];
      assert Name(mem'[m]).Some?;
      if Accumulates(self) {
        var j := Find(Deref(mem', collected), Name(self));
        if j == |collected| {
          WriteKeepsSkeletons(mem, mem', m, Increment(self, mem'[m]));
        } else {
          WriteKeepsSkeletons(mem, mem', collected[j], Plus(mem'[collected[j]].value, Increment(self, mem'[m])));
        }
      }
    }
  }

  /** Writing the value of something that has a name. */
  lemma WriteKeepsSkeletons(mem: seq<Element>, mem': seq<Element>, a: Addr, v: Value)
    requires KeepsSkeletons(mem, mem') && a < |mem'| && Name(mem'[a]).Some?
    ensures KeepsSkeletons(mem, mem'[a := SetValue(mem'[a], v)])
  {
  }

  /** Whether a pattern matches and what it leaves is as in the value reading, whatever has
      been overwritten on the way. */
  lemma {:induction false} HeapControl(p: Tree, left: seq<Addr>, collected: seq<Addr>, mem: seq<Element>)
    requires Matchable(p) && NamedTree(p) && Within(left, mem) && Within(collected, mem)
    requires FromArgv(Deref(mem, left))
    ensures Controlled(HeapMatch(p, left, collected, mem), RunOf(p, Deref(mem, left)), mem)
    decreases p, 0
  {
    match p
    case Leaf(self) => LeafControl(self, left, collected, mem);
    case Required(cs) =>
      HeapAllControl(cs, left, collected, mem);
      DerefAlike(mem, HeapMatch(p, left, collected, mem).mem, left);
    case Optional(cs) => HeapEachControl(cs, left, collected, mem);
    case OptionsShortcut(cs) => HeapEachControl(cs, left, collected, mem);
    case OneOrMore(cs) =>
      HeapLoopControl(cs[0], left, collected, mem, true, 0);
      DerefAlike(mem, HeapMatch(p, left, collected, mem).mem, left);
    case Either(cs) =>
      HeapAnyControl(cs, left, collected, mem);
      DerefAlike(mem, HeapMatch(p, left, collected, mem).mem, left);
      var (os, mem') := HeapAny(cs, left, collected, mem);
      if os != [] {
        SameShortest(os, RunLefts(RunAny(cs, Deref(mem, left))), mem');
      }
  }

  lemma SameShortest(os: seq<HeapOutcome>, ls: seq<seq<Element>>, mem: seq<Element>)
    requires os != [] && |os| == |ls|
    requires forall i :: 0 <= i < |os| ==> |os[i].left| == |ls[i]|
    ensures ShortestAddrs(os) == Shortest(ls)
  {
    var i, j := ShortestAddrs(os), Shortest(ls);
    assert |os[i].left| <= |os[j].left| && |ls[j]| <= |ls[i]|;
  }

  lemma {:induction false} HeapAllControl(cs: seq<Tree>, left: seq<Addr>, collected: seq<Addr>, mem: seq<Element>)
    requires AllMatchable(cs) && AllNamed(cs) && Within(left, mem) && Within(collected, mem)
    requires FromArgv(Deref(mem, left))
    ensures Controlled(HeapAll(cs, left, collected, mem), RunAll(cs, Deref(mem, left)), mem)
    decreases cs, 0
  {
    if cs != [] {
      HeapControl(cs[0], left, collected, mem);
      var o, r := HeapMatch(cs[0], left, collected, mem), RunOf(cs[0], Deref(mem, left));
      RunAlike(cs[0], Deref(mem, left), Deref(mem, left));
      if o.matched {
        ControlNext(o, r, mem);
        HeapAllControl(cs[1..], o.left, o.collected, o.mem);
        RunAllAlike(cs[1..], r.left, Deref(o.mem, o.left));
        ControlJoined(HeapAll(cs[1..], o.left, o.collected, o.mem), RunAll(cs[1..], Deref(o.mem, o.left)),
                      RunAll(cs[1..], r.left), mem, o.mem);
      }
    }
  }

  lemma ControlNext(o: HeapOutcome, r: Run, mem: seq<Element>)
    requires Within(o.left, o.mem) && Controlled(o, r, mem) && FromArgv(r.left)
    ensures Alike(r.left, Deref(o.mem, o.left)) && FromArgv(Deref(o.mem, o.left))
  {
    AlikeSym(Deref(o.mem, o.left), r.left);
    AlikeFromArgv(r.left, Deref(o.mem, o.left));
  }

  /** A second step, on what the first one left. */
  lemma ControlJoined(o: HeapOutcome, s: Run, s': Run, mem: seq<Element>, mid: seq<Element>)
    requires Within(o.left, o.mem) && Controlled(o, s, mid) && RunsAlike(s', s)
    requires KeepsSkeletons(mem, mid)
    ensures o.matched == s'.matched && Alike(Deref(o.mem, o.left), s'.left)
    ensures KeepsSkeletons(mem, o.mem)
    ensures mem <= mid && s'.tried == 0 ==> mem <= o.mem
  {
    AlikeSym(s'.left, s.left);
    AlikeTrans(Deref(o.mem, o.left), s.left, s'.left);
  }

  lemma {:induction false} HeapEachControl(cs: seq<Tree>, left: seq<Addr>, collected: seq<Addr>, mem: seq<Element>)
    requires AllMatchable(cs) && AllNamed(cs) && Within(left, mem) && Within(collected, mem)
    requires FromArgv(Deref(mem, left))
    ensures Controlled(HeapEach(cs, left, collected, mem), RunEach(cs, Deref(mem, left)), mem)
    decreases cs, 0
  {
    if cs != [] {
      HeapControl(cs[0], left, collected, mem);
      var o, r := HeapMatch(cs[0], left, collected, mem), RunOf(cs[0], Deref(mem, left));
      RunAlike(cs[0], Deref(mem, left), Deref(mem, left));
      ControlNext(o, r, mem);
      HeapEachControl(cs[1..], o.left, o.collected, o.mem);
      RunEachAlike(cs[1..], r.left, Deref(o.mem, o.left));
      ControlJoined(HeapEach(cs[1..], o.left, o.collected, o.mem), RunEach(cs[1..], Deref(o.mem, o.left)),
                    RunEach(cs[1..], r.left), mem, o.mem);
    }
  }

  function BeforeAddrs(first: bool, l: seq<Addr>): Option<seq<Addr>> {
    if first then None else Some(l)
  }

  /** The test that ends the loop is whether the round took nothing. */
  lemma SameLeftIsSame(l: seq<Addr>, o: HeapOutcome, collected: seq<Addr>, mem: seq<Element>)
    requires Within(l, mem) && SaneHeap(o, l, collected, mem)
    ensures SameLeft(Some(l), o.left, o.mem) <==> o.left == l
  {
    if o.left != l {
      assert |Deref(o.mem, l)| != |Deref(o.mem, o.left)|;
    }
  }

  /** One turn of the loop, on the heap and on values. */
  lemma LoopTurn(p: Tree, l: seq<Addr>, c: seq<Addr>, mem: seq<Element>, prev: Option<seq<Addr>>, times: nat)
    requires Matchable(p) && Within(l, mem) && Within(c, mem)
    requires prev.None? || prev == Some(l)
    ensures var o := HeapMatch(p, l, c, mem);
            var times' := if o.matched then times + 1 else times;
            HeapLoop(p, l, c, mem, prev, times)
            == if SameLeft(prev, o.left, o.mem) || !o.matched then (times', o)
               else HeapLoop(p, o.left, o.collected, o.mem, Some(o.left), times')
  {
  }

  lemma RunStops(p: Tree, l: seq<Element>, first: bool)
    requires Matchable(p) && (!RunOf(p, l).matched || (!first && RunOf(p, l).left == l))
    ensures RunLoop(p, l, first) == (if RunOf(p, l).matched then 1 else 0, RunOf(p, l))
  {
  }

  /** The loops on the heap and on values run in step. */
  ghost predicate LoopsAgree(x: (nat, HeapOutcome), y: (nat, Run), times: nat, mem: seq<Element>) {
    && Within(x.1.left, x.1.mem)
    && x.0 == times + y.0
    && Alike(Deref(x.1.mem, x.1.left), y.1.left)
    && KeepsSkeletons(mem, x.1.mem) && (y.1.tried == 0 ==> mem <= x.1.mem)
  }

  lemma LoopsStop(p: Tree, l: seq<Addr>, c: seq<Addr>, mem: seq<Element>, first: bool, times: nat)
    requires Matchable(p) && Within(l, mem) && Within(c, mem)
    requires Controlled(HeapMatch(p, l, c, mem), RunOf(p, Deref(mem, l)), mem)
    requires var o, r := HeapMatch(p, l, c, mem), RunOf(p, Deref(mem, l));
             !r.matched || (!first && o.left == l && r.left == Deref(mem, l))
    ensures LoopsAgree(HeapLoop(p, l, c, mem, BeforeAddrs(first, l), times), RunLoop(p, Deref(mem, l), first), times, mem)
  {
    LoopTurn(p, l, c, mem, BeforeAddrs(first, l), times);
    RunStops(p, Deref(mem, l), first);
    SameLeftIsSame(l, HeapMatch(p, l, c, mem), c, mem);
  }

  lemma LoopsGoOn(p: Tree, l: seq<Addr>, c: seq<Addr>, mem: seq<Element>, first: bool, times: nat)
    requires Matchable(p) && Within(l, mem) && Within(c, mem)
    requires Controlled(HeapMatch(p, l, c, mem), RunOf(p, Deref(mem, l)), mem) && FromArgv(RunOf(p, Deref(mem, l)).left)
    requires var o, r := HeapMatch(p, l, c, mem), RunOf(p, Deref(mem, l));
             && r.matched && (first || (o.left != l && r.left != Deref(mem, l)))
             && LoopsAgree(HeapLoop(p, o.left, o.collected, o.mem, Some(o.left), times + 1),
                           RunLoop(p, Deref(o.mem, o.left), false), times + 1, o.mem)
    ensures LoopsAgree(HeapLoop(p, l, c, mem, BeforeAddrs(first, l), times), RunLoop(p, Deref(mem, l), first), times, mem)
  {
    var o, r := HeapMatch(p, l, c, mem), RunOf(p, Deref(mem, l));
    LoopTurn(p, l, c, mem, BeforeAddrs(first, l), times);
    RunGoesOn(p, Deref(mem, l), first);
    SameLeftIsSame(l, o, c, mem);
    ControlNext(o, r, mem);
    RunLoopAlike(p, r.left, Deref(o.mem, o.left), false);
    var o' := HeapLoop(p, o.left, o.collected, o.mem, Some(o.left), times + 1).1;
    AlikeBack(Deref(o'.mem, o'.left), RunLoop(p, Deref(o.mem, o.left), false).1.left, RunLoop(p, r.left, false).1.left);
  }

  lemma {:induction false} HeapLoopControl(p: Tree, l: seq<Addr>, c: seq<Addr>, mem: seq<Element>, first: bool, times: nat)
    requires Matchable(p) && NamedTree(p) && Within(l, mem) && Within(c, mem)
    requires FromArgv(Deref(mem, l))
    ensures LoopsAgree(HeapLoop(p, l, c, mem, BeforeAddrs(first, l), times), RunLoop(p, Deref(mem, l), first), times, mem)
    decreases p, 1, if first then 1 else 0, |l|
  {
    HeapControl(p, l, c, mem);
    var o, r := HeapMatch(p, l, c, mem), RunOf(p, Deref(mem, l));
    RunAlike(p, Deref(mem, l), Deref(mem, l));
    assert o.left == l <==> r.left == Deref(mem, l);
    if o.matched && (first || o.left != l) {
      ControlNext(o, r, mem);
      HeapLoopControl(p, o.left, o.collected, o.mem, false, times + 1);
      LoopsGoOn(p, l, c, mem, first, times);
    } else {
      LoopsStop(p, l, c, mem, first, times);
    }
  }

  lemma AlikeBack(l: seq<Element>, m: seq<Element>, n: seq<Element>)
    requires Alike(l, m) && Alike(n, m)
    ensures Alike(l, n)
  {
    AlikeSym(n, m);
    AlikeTrans(l, m, n);
  }

  lemma {:induction false} HeapAnyControl(cs: seq<Tree>, left: seq<Addr>, collected: seq<Addr>, mem: seq<Element>)
    requires AllMatchable(cs) && AllNamed(cs) && Within(left, mem) && Within(collected, mem)
    requires FromArgv(Deref(mem, left))
    ensures BranchesAgree(HeapAny(cs, left, collected, mem), RunAny(cs, Deref(mem, left)))
    ensures KeepsSkeletons(mem, HeapAny(cs, left, collected, mem).1)
    ensures TriedAny(cs, Deref(mem, left)) == 0 ==> mem <= HeapAny(cs, left, collected, mem).1
    decreases cs, 0
  {
    if cs != [] {
      HeapControl(cs[0], left, collected, mem);
      var o, r := HeapMatch(cs[0], left, collected, mem), RunOf(cs[0], Deref(mem, left));
      DerefAlike(mem, o.mem, left);
      AlikeFromArgv(Deref(mem, left), Deref(o.mem, left));
      HeapAnyControl(cs[1..], left, collected, o.mem);
      RunAnyAlike(cs[1..], Deref(mem, left), Deref(o.mem, left));
      var x := HeapAny(cs[1..], left, collected, o.mem);
      BranchesShift(x, RunAny(cs[1..], Deref(mem, left)), RunAny(cs[1..], Deref(o.mem, left)));
      if o.matched {
        DerefAlike(o.mem, x.1, o.left);
        AlikeTrans(Deref(x.1, o.left), Deref(o.mem, o.left), r.left);
      }
    }
  }

  /** The branches that match are the same, and leave alike argvs. */
  ghost predicate BranchesAgree(x: (seq<HeapOutcome>, seq<Element>), rs: seq<Run>) {
    && |x.0| == |rs|
    && forall i :: 0 <= i < |rs| ==> Within(x.0[i].left, x.1) && Alike(Deref(x.1, x.0[i].left), rs[i].left)
  }

  lemma BranchesShift(x: (seq<HeapOutcome>, seq<Element>), rs: seq<Run>, ss: seq<Run>)
    requires BranchesAgree(x, ss) && |rs| == |ss| && forall i :: 0 <= i < |rs| ==> RunsAlike(rs[i], ss[i])
    ensures BranchesAgree(x, rs)
  {
    forall i | 0 <= i < |rs|
      ensures Alike(Deref(x.1, x.0[i].left), rs[i].left)
    {
      AlikeBack(Deref(x.1, x.0[i].left), ss[i].left, rs[i].left);
    }
  }

  // ---------- agreement when nothing is discarded ----------

  /** Events of accumulating leaves. */
  function AccEvents(es: seq<Event>): nat {
    if es == [] then 0 else (if Accumulates(es[0].leaf) then 1 else 0) + AccEvents(es[1..])
  }

  lemma {:induction false} AccEventsConcat(es: seq<Event>, fs: seq<Event>)
    ensures AccEvents(es + fs) == AccEvents(es) + AccEvents(fs)
  {
    if es == [] {
      assert es + fs == fs;
    } else {
      assert (es + fs)[0] == es[0] && (es + fs)[1..] == es[1..] + fs;
      AccEventsConcat(es[1..], fs);
    }
  }

  /** No match of an accumulating leaf was discarded. */
  predicate Undisturbed(r: Run) {
    r.tried == AccEvents(r.events)
  }

  lemma {:induction false} KeptAtMostTried(p: Tree, l: seq<Element>)
    requires Matchable(p)
    ensures AccEvents(RunOf(p, l).events) <= RunOf(p, l).tried
    decreases p, 0
  {
    match p
    case Leaf(self) =>
      var pos := SingleMatch(self, l);
      if pos < |l| {
        assert [Event(self, l[pos])][1..] == [];
      }
    case Required(cs) => KeptAll(cs, l);
    case Optional(cs) => KeptEach(cs, l);
    case OptionsShortcut(cs) => KeptEach(cs, l);
    case OneOrMore(cs) => KeptLoop(cs[0], l, true);
    case Either(cs) =>
      var rs := RunAny(cs, l);
      if rs != [] {
        KeptAny(cs, l, Shortest(RunLefts(rs)));
      }
  }

  lemma {:induction false} KeptAll(cs: seq<Tree>, l: seq<Element>)
    requires AllMatchable(cs)
    ensures AccEvents(RunAll(cs, l).events) <= RunAll(cs, l).tried
    decreases cs, 0
  {
    if cs != [] {
      KeptAtMostTried(cs[0], l);
      var r := RunOf(cs[0], l);
      if r.matched {
        KeptAll(cs[1..], r.left);
        AccEventsConcat(r.events, RunAll(cs[1..], r.left).events);
      }
    }
  }

  lemma {:induction false} KeptEach(cs: seq<Tree>, l: seq<Element>)
    requires AllMatchable(cs)
    ensures AccEvents(RunEach(cs, l).events) <= RunEach(cs, l).tried
    decreases cs, 0
  {
    if cs != [] {
      KeptAtMostTried(cs[0], l);
      var r := RunOf(cs[0], l);
      KeptEach(cs[1..], r.left);
      AccEventsConcat(r.events, RunEach(cs[1..], r.left).events);
    }
  }

  lemma {:induction false} KeptLoop(p: Tree, l: seq<Element>, first: bool)
    requires Matchable(p)
    ensures AccEvents(RunLoop(p, l, first).1.events) <= RunLoop(p, l, first).1.tried
    decreases p, 1, if first then 1 else 0, |l|
  {
    KeptAtMostTried(p, l);
    var r := RunOf(p, l);
    if r.matched && (first || r.left != l) {
      KeptLoop(p, r.left, false);
      AccEventsConcat(r.events, RunLoop(p, r.left, false).1.events);
    }
  }

  lemma {:induction false} KeptAny(cs: seq<Tree>, l: seq<Element>, k: nat)
    requires AllMatchable(cs) && k < |RunAny(cs, l)|
    ensures AccEvents(RunAny(cs, l)[k].events) <= RunAny(cs, l)[k].tried <= TriedAny(cs, l)
    decreases cs, 0
  {
    KeptAtMostTried(cs[0], l);
    if !RunOf(cs[0], l).matched {
      KeptAny(cs[1..], l, k);
    } else if k > 0 {
      KeptAny(cs[1..], l, k - 1);
    }
  }

  /** The objects in `left` and `collected` are all different. */
  ghost predicate Separate(left: seq<Addr>, collected: seq<Addr>) {
    && NoDuplicates(left) && NoDuplicates(collected)
    && forall i, j :: 0 <= i < |left| && 0 <= j < |collected| ==> left[i] != collected[j]
  }

  /** `o` holds the values the value reading computes with run `r` from `c`. */
  ghost predicate Agrees(o: HeapOutcome, r: Run, c: seq<Element>)
    requires Within(o.left, o.mem) && Within(o.collected, o.mem)
  {
    && Deref(o.mem, o.left) == r.left
    && Deref(o.mem, o.collected) == CollectAll(c, r.events)
    && Separate(o.left, o.collected)
  }

  lemma DerefExtends(mem: seq<Element>, mem': seq<Element>, xs: seq<Addr>)
    requires Within(xs, mem) && mem <= mem'
    ensures Within(xs, mem') && Deref(mem', xs) == Deref(mem, xs)
  {
  }

  lemma DerefUpdate(mem: seq<Element>, xs: seq<Addr>, a: Addr, e: Element)
    requires Within(xs, mem) && a < |mem| && a !in xs
    ensures Deref(mem[a := e], xs) == Deref(mem, xs)
  {
    forall i | 0 <= i < |xs|
      ensures mem[a := e][xs[i]] == mem[xs[i]]
    {
      assert xs[i] in xs;
    }
  }

  lemma DerefUpdateAt(mem: seq<Element>, xs: seq<Addr>, j: nat, e: Element)
    requires Within(xs, mem) && NoDuplicates(xs) && j < |xs|
    ensures Deref(mem[xs[j] := e], xs) == Deref(mem, xs)[j := e]
  {
  }

  lemma DerefSnoc(mem: seq<Element>, xs: seq<Addr>, a: Addr)
    requires Within(xs, mem) && a < |mem|
    ensures Within(xs + [a], mem) && Deref(mem, xs + [a]) == Deref(mem, xs) + [mem[a]]
  {
  }

  /** Taking one object out of `left` and putting it, or a new one, at the end of `collected`. */
  lemma SeparateMoved(left: seq<Addr>, collected: seq<Addr>, pos: nat, m: Addr)
    requires Separate(left, collected) && pos < |left|
    requires m == left[pos] || (m !in left && m !in collected)
    ensures Separate(Drop(left, pos), collected) && Separate(Drop(left, pos), collected + [m])
    ensures m !in Drop(left, pos) && m !in collected
  {
    var rest := Drop(left, pos);
    forall i | 0 <= i < |rest|
      ensures rest[i] in left && rest[i] != left[pos]
    {
    }
    assert forall j :: 0 <= j < |collected| ==> left[pos] != collected[j];
  }

  lemma LeafAgrees(self: Element, left: seq<Addr>, collected: seq<Addr>, mem: seq<Element>)
    requires Within(left, mem) && Within(collected, mem) && Separate(left, collected)
    ensures var o, r := HeapLeaf(self, left, collected, mem), RunOf(Leaf(self), Deref(mem, left));
            Agrees(o, r, Deref(mem, collected))
  {
    var l, c := Deref(mem, left), Deref(mem, collected);
    var pos := SingleMatch(self, l);
    var o := HeapLeaf(self, left, collected, mem);
    if pos < |left| {
      var item, rest := left[pos], Drop(left, pos);
      var m := if self.Opt? then item else |mem|;
      var mem1 := if self.Opt? then mem else mem + [MatchOf(self, mem[item])];
      assert mem1[m] == MatchOf(self, l[pos]);
      SeparateMoved(left, collected, pos, m);
      DerefDrop(mem, left, pos);
      DerefExtends(mem, mem1, rest);
      DerefExtends(mem, mem1, collected);
      CollectOne(c, Event(self, l[pos]));
      var j := Find(c, Name(self));
      var inc := Increment(self, mem1[m]);
      if Accumulates(self) && j < |collected| {
        var a := collected[j];
        assert a !in rest;
        DerefUpdate(mem1, rest, a, SetValue(mem1[a], Plus(mem1[a].value, inc)));
        DerefUpdateAt(mem1, collected, j, SetValue(mem1[a], Plus(mem1[a].value, inc)));
        assert SetValue(c[j], Plus(c[j].value, inc)) == c[j].(value := Plus(c[j].value, inc));
      } else if Accumulates(self) {
        var e := SetValue(mem1[m], inc);
        DerefUpdate(mem1, rest, m, e);
        DerefUpdate(mem1, collected, m, e);
        DerefSnoc(mem1[m := e], collected, m);
        assert e == mem1[m].(value := inc);
      } else {
        DerefSnoc(mem1, collected, m);
      }
    }
  }

  /** Nothing was tried, so memory only grew and what was there reads the same. */
  lemma NothingTried(left: seq<Addr>, collected: seq<Addr>, mem: seq<Element>, mem': seq<Element>)
    requires Within(left, mem) && Within(collected, mem) && mem <= mem'
    ensures Within(left, mem') && Within(collected, mem')
    ensures Deref(mem', left) == Deref(mem, left) && Deref(mem', collected) == Deref(mem, collected)
  {
  }

  ghost predicate Startable(left: seq<Addr>, collected: seq<Addr>, mem: seq<Element>) {
    Within(left, mem) && Within(collected, mem) && Separate(left, collected) && FromArgv(Deref(mem, left))
  }

  /** When no accumulating match is discarded, the objects hold the values of the value
      reading. */
  lemma {:induction false} HeapAgrees(p: Tree, left: seq<Addr>, collected: seq<Addr>, mem: seq<Element>)
    requires Matchable(p) && NamedTree(p) && Startable(left, collected, mem)
    requires Undisturbed(RunOf(p, Deref(mem, left)))
    ensures Agrees(HeapMatch(p, left, collected, mem), RunOf(p, Deref(mem, left)), Deref(mem, collected))
    decreases p, 0
  {
    var l := Deref(mem, left);
    HeapControl(p, left, collected, mem);
    var o := HeapMatch(p, left, collected, mem);
    if !RunOf(p, l).matched {
      NothingTried(left, collected, mem, o.mem);
    } else {
      match p
      case Leaf(self) => LeafAgrees(self, left, collected, mem);
      case Required(cs) => HeapAllAgrees(cs, left, collected, mem);
      case Optional(cs) => HeapEachAgrees(cs, left, collected, mem);
      case OptionsShortcut(cs) => HeapEachAgrees(cs, left, collected, mem);
      case OneOrMore(cs) =>
        HeapLoopControl(cs[0], left, collected, mem, true, 0);
        HeapLoopAgrees(cs[0], left, collected, mem, true, 0);
      case Either(cs) =>
        HeapAnyControl(cs, left, collected, mem);
        var (os, mem') := HeapAny(cs, left, collected, mem);
        var rs := RunAny(cs, l);
        SameShortest(os, RunLefts(rs), mem');
        HeapAnyAgrees(cs, left, collected, mem, Shortest(RunLefts(rs)));
    }
  }

  /** After a first step that agrees, a second step can start. */
  lemma AgreesNext(p: Tree, o: HeapOutcome, l: seq<Element>, c: seq<Element>)
    requires Matchable(p) && FromArgv(l)
    requires Within(o.left, o.mem) && Within(o.collected, o.mem) && Agrees(o, RunOf(p, l), c)
    ensures Startable(o.left, o.collected, o.mem)
  {
    AlikeSelf(l);
    RunAlike(p, l, l);
  }

  lemma AlikeSelf(l: seq<Element>)
    ensures Alike(l, l)
  {
  }

  /** Two runs in a row are undisturbed if both are. */
  lemma UndisturbedParts(es: seq<Event>, fs: seq<Event>, m: nat, n: nat)
    requires m + n == AccEvents(es + fs) && AccEvents(es) <= m && AccEvents(fs) <= n
    ensures m == AccEvents(es) && n == AccEvents(fs)
  {
    AccEventsConcat(es, fs);
  }

  lemma {:induction false} HeapAllAgrees(cs: seq<Tree>, left: seq<Addr>, collected: seq<Addr>, mem: seq<Element>)
    requires AllMatchable(cs) && AllNamed(cs) && Startable(left, collected, mem)
    requires RunAll(cs, Deref(mem, left)).matched && Undisturbed(RunAll(cs, Deref(mem, left)))
    ensures Agrees(HeapAll(cs, left, collected, mem), RunAll(cs, Deref(mem, left)), Deref(mem, collected))
    decreases cs, 0
  {
    if cs != [] {
      var l, c := Deref(mem, left), Deref(mem, collected);
      var r := RunOf(cs[0], l);
      var s := RunAll(cs[1..], r.left);
      KeptAtMostTried(cs[0], l);
      KeptAll(cs[1..], r.left);
      UndisturbedParts(r.events, s.events, r.tried, s.tried);
      HeapControl(cs[0], left, collected, mem);
      HeapAgrees(cs[0], left, collected, mem);
      var o := HeapMatch(cs[0], left, collected, mem);
      AgreesNext(cs[0], o, l, c);
      HeapAllAgrees(cs[1..], o.left, o.collected, o.mem);
      CollectAllConcat(c, r.events, s.events);
    }
  }

  lemma {:induction false} HeapEachAgrees(cs: seq<Tree>, left: seq<Addr>, collected: seq<Addr>, mem: seq<Element>)
    requires AllMatchable(cs) && AllNamed(cs) && Startable(left, collected, mem)
    requires Undisturbed(RunEach(cs, Deref(mem, left)))
    ensures Agrees(HeapEach(cs, left, collected, mem), RunEach(cs, Deref(mem, left)), Deref(mem, collected))
    decreases cs, 0
  {
    if cs != [] {
      var l, c := Deref(mem, left), Deref(mem, collected);
      var r := RunOf(cs[0], l);
      var s := RunEach(cs[1..], r.left);
      KeptAtMostTried(cs[0], l);
      KeptEach(cs[1..], r.left);
      UndisturbedParts(r.events, s.events, r.tried, s.tried);
      HeapAgrees(cs[0], left, collected, mem);
      var o := HeapMatch(cs[0], left, collected, mem);
      AgreesNext(cs[0], o, l, c);
      HeapEachAgrees(cs[1..], o.left, o.collected, o.mem);
      CollectAllConcat(c, r.events, s.events);
    }
  }

  lemma {:induction false} HeapLoopAgrees(p: Tree, left: seq<Addr>, collected: seq<Addr>, mem: seq<Element>, first: bool, times: nat)
    requires Matchable(p) && NamedTree(p) && Startable(left, collected, mem)
    requires Undisturbed(RunLoop(p, Deref(mem, left), first).1)
    ensures Agrees(HeapLoop(p, left, collected, mem, BeforeAddrs(first, left), times).1,
                   RunLoop(p, Deref(mem, left), first).1, Deref(mem, collected))
    decreases p, 1, if first then 1 else 0, |left|
  {
    var l, c := Deref(mem, left), Deref(mem, collected);
    var r := RunOf(p, l);
    var o := HeapMatch(p, left, collected, mem);
    HeapControl(p, left, collected, mem);
    SameLeftIsSame(left, o, collected, mem);
    assert o.left == left <==> r.left == l;
    if r.matched && (first || r.left != l) {
      var s := RunLoop(p, r.left, false).1;
      KeptAtMostTried(p, l);
      KeptLoop(p, r.left, false);
      UndisturbedParts(r.events, s.events, r.tried, s.tried);
      HeapAgrees(p, left, collected, mem);
      AgreesNext(p, o, l, c);
      HeapLoopAgrees(p, o.left, o.collected, o.mem, false, times + 1);
      CollectAllConcat(c, r.events, s.events);
    } else {
      HeapAgrees(p, left, collected, mem);
    }
  }

  lemma {:induction false} HeapAnyAgrees(cs: seq<Tree>, left: seq<Addr>, collected: seq<Addr>, mem: seq<Element>, k: nat)
    requires AllMatchable(cs) && AllNamed(cs) && Startable(left, collected, mem)
    requires k < |RunAny(cs, Deref(mem, left))|
    requires TriedAny(cs, Deref(mem, left)) == AccEvents(RunAny(cs, Deref(mem, left))[k].events)
    ensures AnyAgrees(HeapAny(cs, left, collected, mem), k, RunAny(cs, Deref(mem, left))[k], Deref(mem, collected))
    decreases cs, 1
  {
    var l := Deref(mem, left);
    var r := RunOf(cs[0], l);
    if r.matched && k == 0 {
      HeapAnyHead(cs, left, collected, mem);
    } else {
      var o := HeapMatch(cs[0], left, collected, mem);
      var k' := if r.matched then k - 1 else k;
      HeapControl(cs[0], left, collected, mem);
      RunAnySkip(cs, l, k, k');
      KeptAny(cs[1..], l, k');
      NothingTried(left, collected, mem, o.mem);
      HeapAnyAgrees(cs[1..], left, collected, o.mem, k');
      HeapAnyUnfold(cs, left, collected, mem);
      AnyAgreesShift(HeapAny(cs, left, collected, mem), if o.matched then [o] else [],
                     HeapAny(cs[1..], left, collected, o.mem), k', k, RunAny(cs, l)[k], Deref(mem, collected));
    }
  }

  /** The `k`-th outcome agrees with run `r` in the final memory. */
  ghost predicate AnyAgrees(res: (seq<HeapOutcome>, seq<Element>), k: nat, r: Run, c: seq<Element>) {
    && k < |res.0|
    && Within(res.0[k].left, res.1) && Within(res.0[k].collected, res.1)
    && Agrees(HeapOutcome(true, res.0[k].left, res.0[k].collected, res.1), r, c)
  }

  lemma AnyAgreesShift(all: (seq<HeapOutcome>, seq<Element>), head: seq<HeapOutcome>, rest: (seq<HeapOutcome>, seq<Element>),
                       k: nat, n: nat, r: Run, c: seq<Element>)
    requires all == (head + rest.0, rest.1) && n == |head| + k
    requires AnyAgrees(rest, k, r, c)
    ensures AnyAgrees(all, n, r, c)
  {
    assert all.0[n] == rest.0[k];
  }

  /** A later run is found among those of the later branches. */
  lemma RunAnySkip(cs: seq<Tree>, l: seq<Element>, k: nat, k': nat)
    requires AllMatchable(cs) && cs != [] && k < |RunAny(cs, l)|
    requires k == if RunOf(cs[0], l).matched then k' + 1 else k'
    ensures k' < |RunAny(cs[1..], l)| && RunAny(cs, l)[k] == RunAny(cs[1..], l)[k']
  {
    RunAnyUnfold(cs, l);
    AfterFirst(RunOf(cs[0], l).matched, RunOf(cs[0], l), RunAny(cs[1..], l), k, k');
  }

  lemma RunAnyUnfold(cs: seq<Tree>, l: seq<Element>)
    requires AllMatchable(cs) && cs != []
    ensures RunAny(cs, l) == (if RunOf(cs[0], l).matched then [RunOf(cs[0], l)] else []) + RunAny(cs[1..], l)
  {
  }

  lemma AfterFirst<T>(there: bool, first: T, rest: seq<T>, k: nat, k': nat)
    requires k == if there then k' + 1 else k'
    ensures var all := (if there then [first] else []) + rest;
            (k < |all| <==> k' < |rest|) && (k < |all| ==> all[k] == rest[k'])
  {
  }

  /** The outcomes of an Either: the first branch's, if it matched, and the others'. */
  lemma HeapAnyUnfold(cs: seq<Tree>, left: seq<Addr>, collected: seq<Addr>, mem: seq<Element>)
    requires AllMatchable(cs) && cs != [] && Within(left, mem) && Within(collected, mem)
    ensures var o := HeapMatch(cs[0], left, collected, mem);
            var rest := HeapAny(cs[1..], left, collected, o.mem);
            HeapAny(cs, left, collected, mem) == ((if o.matched then [o] else []) + rest.0, rest.1)
  {
  }

  /** The first branch is the one chosen, and the others tried no accumulator after it. */
  lemma {:induction false} HeapAnyHead(cs: seq<Tree>, left: seq<Addr>, collected: seq<Addr>, mem: seq<Element>)
    requires AllMatchable(cs) && AllNamed(cs) && Startable(left, collected, mem)
    requires cs != [] && RunOf(cs[0], Deref(mem, left)).matched
    requires TriedAny(cs, Deref(mem, left)) == AccEvents(RunAny(cs, Deref(mem, left))[0].events)
    ensures AnyAgrees(HeapAny(cs, left, collected, mem), 0, RunAny(cs, Deref(mem, left))[0], Deref(mem, collected))
    decreases cs, 0
  {
    var l := Deref(mem, left);
    var o := HeapMatch(cs[0], left, collected, mem);
    HeapControl(cs[0], left, collected, mem);
    KeptAtMostTried(cs[0], l);
    HeapAgrees(cs[0], left, collected, mem);
    DerefAlike(mem, o.mem, left);
    AlikeFromArgv(l, Deref(o.mem, left));
    RunAnyAlike(cs[1..], l, Deref(o.mem, left));
    HeapAnyControl(cs[1..], left, collected, o.mem);
    NothingTried(o.left, o.collected, o.mem, HeapAny(cs[1..], left, collected, o.mem).1);
  }

  // ---------- when something is discarded ----------

  /** `-v`, counting. */
  function Verbose(): Element {
    Opt(Some("-v"), None, 0, Count(0))
  }

  function VerboseItem(v: Value): Element {
    Opt(Some("-v"), None, 0, v)
  }

  /** `-v` takes the first element, if that is a `-v`. */
  lemma VerboseRun(l: seq<Element>)
    requires l != [] && Name(l[0]) == Some("-v")
    ensures RunOf(Leaf(Verbose()), l) == Run(true, l[1..], [Event(Verbose(), l[0])], 1)
  {
    assert Find(l, Name(Verbose())) == 0;
    assert Drop(l, 0) == l[1..];
  }

  /** On the heap it makes a first entry of it or adds one to the entry there is. */
  lemma VerboseHeap(left: seq<Addr>, collected: seq<Addr>, mem: seq<Element>)
    requires Within(left, mem) && Within(collected, mem)
    requires left != [] && exists v :: mem[left[0]] == VerboseItem(v)
    requires collected == [] || (exists n :: mem[collected[0]] == VerboseItem(Count(n)))
    ensures var o := HeapMatch(Leaf(Verbose()), left, collected, mem);
            && (collected == [] ==>
                  o == HeapOutcome(true, left[1..], [left[0]], mem[left[0] := VerboseItem(Count(1))]))
            && (forall n :: collected != [] && mem[collected[0]] == VerboseItem(Count(n)) ==>
                  o == HeapOutcome(true, left[1..], collected, mem[collected[0] := VerboseItem(Count(n + 1))]))
  {
    assert Find(Deref(mem, left), Name(Verbose())) == 0;
    assert Drop(left, 0) == left[1..];
    if collected == [] {
      assert collected + [left[0]] == [left[0]];
    } else {
      assert Find(Deref(mem, collected), Name(Verbose())) == 0;
    }
  }

  /** `(-v (-v | -v))` */
  function VerbosePattern(): Tree {
    Required([Leaf(Verbose()), VerboseEither()])
  }

  /** `(-v | -v)` */
  function VerboseEither(): Tree {
    Either([Leaf(Verbose()), Leaf(Verbose())])
  }

  lemma VerboseEitherRun(item: Element)
    requires item == VerboseItem(Flag(true))
    ensures Matchable(VerboseEither())
    ensures RunOf(VerboseEither(), [item]) == Run(true, [], [Event(Verbose(), item)], 2)
  {
    VerboseRun([item]);
    assert [item][1..] == [];
    EitherTwo(Leaf(Verbose()), Leaf(Verbose()), [item]);
  }

  /** An Either of two patterns that both match, the first leaving no more than the second. */
  lemma EitherTwo(p: Tree, q: Tree, l: seq<Element>)
    requires Matchable(p) && Matchable(q) && RunOf(p, l).matched && RunOf(q, l).matched
    requires |RunOf(p, l).left| <= |RunOf(q, l).left|
    ensures Matchable(Either([p, q]))
    ensures var r := RunOf(p, l);
            RunOf(Either([p, q]), l) == Run(true, r.left, r.events, r.tried + RunOf(q, l).tried)
  {
    var r, s := RunOf(p, l), RunOf(q, l);
    TwoBranches(p, q, l);
    BestIsFirst(r, s);
    EitherRunUnfolds(Either([p, q]), l);
  }

  lemma TwoBranches(p: Tree, q: Tree, l: seq<Element>)
    requires Matchable(p) && Matchable(q) && RunOf(p, l).matched && RunOf(q, l).matched
    ensures AllMatchable([p, q]) && RunAny([p, q], l) == [RunOf(p, l), RunOf(q, l)]
    ensures TriedAny([p, q], l) == RunOf(p, l).tried + RunOf(q, l).tried
  {
    MoreBranches(q, [], l);
    MoreBranches(p, [q], l);
    assert [p] + [q] == [p, q] && [q] + [] == [q];
  }

  lemma MoreBranches(p: Tree, cs: seq<Tree>, l: seq<Element>)
    requires Matchable(p) && AllMatchable(cs) && RunOf(p, l).matched
    ensures AllMatchable([p] + cs)
    ensures RunAny([p] + cs, l) == [RunOf(p, l)] + RunAny(cs, l) && TriedAny([p] + cs, l) == RunOf(p, l).tried + TriedAny(cs, l)
  {
    assert ([p] + cs)[0] == p && ([p] + cs)[1..] == cs;
  }

  lemma EitherRunUnfolds(p: Tree, l: seq<Element>)
    requires Matchable(p) && p.Either? && RunAny(p.children, l) != []
    ensures var rs := RunAny(p.children, l);
            var best := rs[Shortest(RunLefts(rs))];
            RunOf(p, l) == Run(true, best.left, best.events, TriedAny(p.children, l))
  {
  }

  lemma BestIsFirst(r: Run, s: Run)
    requires |r.left| <= |s.left|
    ensures Shortest(RunLefts([r, s])) == 0
  {
    assert RunLefts([r, s])[0] == r.left && RunLefts([r, s])[1] == s.left;
  }

  /** A Required of two patterns that both match. */
  lemma RequiredTwo(p: Tree, q: Tree, l: seq<Element>)
    requires Matchable(p) && Matchable(q)
    requires RunOf(p, l).matched && RunOf(q, RunOf(p, l).left).matched
    ensures Matchable(Required([p, q]))
    ensures var r, s := RunOf(p, l), RunOf(q, RunOf(p, l).left);
            RunOf(Required([p, q]), l) == Run(true, s.left, r.events + s.events, r.tried + s.tried)
  {
    var r, s := RunOf(p, l), RunOf(q, RunOf(p, l).left);
    assert [p, q][1..] == [q] && [q][1..] == [];
    assert RunAll([q][1..], s.left) == Run(true, s.left, [], 0);
    assert s.events + [] == s.events;
    assert RunAll([q], r.left) == Run(true, s.left, s.events, s.tried);
  }

  lemma VerboseRuns(item: Element)
    requires item == VerboseItem(Flag(true))
    ensures Matchable(VerbosePattern())
    ensures RunOf(VerbosePattern(), [item, item])
         == Run(true, [], [Event(Verbose(), item)] + [Event(Verbose(), item)], 3)
  {
    VerboseRun([item, item]);
    assert [item, item][1..] == [item];
    VerboseEitherRun(item);
    RequiredTwo(Leaf(Verbose()), VerboseEither(), [item, item]);
  }

  /** Two alternatives that both match: each runs on the memory the one before it left. */
  lemma HeapAnyTwo(p: Tree, q: Tree, left: seq<Addr>, collected: seq<Addr>, mem: seq<Element>)
    requires Matchable(p) && Matchable(q) && Within(left, mem) && Within(collected, mem)
    requires HeapMatch(p, left, collected, mem).matched
    requires HeapMatch(q, left, collected, HeapMatch(p, left, collected, mem).mem).matched
    ensures var o := HeapMatch(p, left, collected, mem);
            var o' := HeapMatch(q, left, collected, o.mem);
            HeapAny([p, q], left, collected, mem) == ([o, o'], o'.mem)
  {
    var o := HeapMatch(p, left, collected, mem);
    var o' := HeapMatch(q, left, collected, o.mem);
    HeapAnyLast(q, left, collected, o.mem);
    assert [p, q][1..] == [q] && [o] + [o'] == [o, o'];
  }

  lemma EitherTwoHeap(p: Tree, q: Tree, left: seq<Addr>, collected: seq<Addr>, mem: seq<Element>)
    requires Matchable(p) && Matchable(q) && Matchable(Either([p, q])) && Within(left, mem) && Within(collected, mem)
    requires var o := HeapMatch(p, left, collected, mem);
             var o' := HeapMatch(q, left, collected, o.mem);
             o.matched && o'.matched && o.left == o'.left && o.collected == o'.collected
    ensures var o' := HeapMatch(q, left, collected, HeapMatch(p, left, collected, mem).mem);
            HeapMatch(Either([p, q]), left, collected, mem) == o'
  {
    HeapAnyTwo(p, q, left, collected, mem);
  }

  lemma VerboseEitherHeap(mem: seq<Element>)
    requires mem == [VerboseItem(Count(1)), VerboseItem(Flag(true))]
    requires Matchable(VerboseEither())
    ensures HeapMatch(VerboseEither(), [1], [0], mem)
         == HeapOutcome(true, [], [0], [VerboseItem(Count(3)), VerboseItem(Flag(true))])
  {
    var mem2, mem3 := mem[0 := VerboseItem(Count(2))], mem[0 := VerboseItem(Count(3))];
    assert mem2[0 := VerboseItem(Count(3))] == mem3;
    var one: seq<Addr>, none: seq<Addr> := [1], [];
    assert one[1..] == none;
    VerboseHeap(one, [0], mem);
    VerboseHeap(one, [0], mem2);
    EitherTwoHeap(Leaf(Verbose()), Leaf(Verbose()), one, [0], mem);
  }

  /** The last alternative of an Either, when it matches. */
  lemma HeapAnyLast(p: Tree, left: seq<Addr>, collected: seq<Addr>, mem: seq<Element>)
    requires Matchable(p) && Within(left, mem) && Within(collected, mem) && HeapMatch(p, left, collected, mem).matched
    ensures var o := HeapMatch(p, left, collected, mem); HeapAny([p], left, collected, mem) == ([o], o.mem)
  {
    var o := HeapMatch(p, left, collected, mem);
    assert [p][1..] == [] && [o] + [] == [o];
  }

  lemma RequiredTwoHeap(p: Tree, q: Tree, left: seq<Addr>, mem: seq<Element>)
    requires Matchable(p) && Matchable(q) && Matchable(Required([p, q])) && Within(left, mem)
    requires var o := HeapMatch(p, left, [], mem);
             o.matched && HeapMatch(q, o.left, o.collected, o.mem).matched
    ensures var o := HeapMatch(p, left, [], mem);
            HeapMatch(Required([p, q]), left, [], mem) == HeapMatch(q, o.left, o.collected, o.mem)
  {
    var o := HeapMatch(p, left, [], mem);
    var o' := HeapMatch(q, o.left, o.collected, o.mem);
    assert [p, q][1..] == [q] && [q][1..] == [];
    assert HeapAll([q][1..], o'.left, o'.collected, o'.mem) == o';
    assert HeapAll([q], o.left, o.collected, o.mem) == o';
  }

  lemma VerboseHeapRuns(item: Element)
    requires item == VerboseItem(Flag(true))
    requires Matchable(VerbosePattern())
    ensures HeapMatch(VerbosePattern(), [0, 1], [], [item, item])
         == HeapOutcome(true, [], [0], [VerboseItem(Count(3)), item])
  {
    var mem := [item, item];
    var both: seq<Addr>, one: seq<Addr> := [0, 1], [1];
    VerboseHeap(both, [], mem);
    assert both[1..] == one && mem[0 := VerboseItem(Count(1))] == [VerboseItem(Count(1)), item];
    VerboseEitherRun(item);
    VerboseEitherHeap([VerboseItem(Count(1)), item]);
    RequiredTwoHeap(Leaf(Verbose()), VerboseEither(), both, mem);
  }

  lemma VerboseCollected(item: Element)
    requires item == VerboseItem(Flag(true))
    ensures var e := Event(Verbose(), item); CollectAll([], [e] + [e]) == [VerboseItem(Count(2))] && AccEvents([e] + [e]) == 2
  {
    var e, once := Event(Verbose(), item), [VerboseItem(Count(1))];
    CollectOne([], e);
    assert Collect([], Verbose(), item) == [] + once == once;
    CollectAllConcat([], [e], [e]);
    CollectOne(once, e);
    assert Find(once, Name(Verbose())) == 0;
    assert once[0 := VerboseItem(Count(2))] == [VerboseItem(Count(2))];
    AccEventsConcat([e], [e]);
    assert [e][1..] == [];
  }

  /** The mutation is visible: for `(-v (-v | -v))` and `-v -v` both branches of the Either
      add to the same object, so two options are reported as three. */
  lemma HeapOvercounts() returns (p: Tree, argv: seq<Element>)
    ensures Matchable(p) && |argv| == 2
    ensures Match(p, argv, []).collected == [VerboseItem(Count(2))]
    ensures var o := HeapMatch(p, [0, 1], [], argv);
            o.matched && o.left == [] && o.collected == [0] && o.mem[0] == VerboseItem(Count(3))
    ensures !Undisturbed(RunOf(p, argv))
  {
    var item := VerboseItem(Flag(true));
    p := VerbosePattern();
    argv := [item, item];
    VerboseRuns(item);
    VerboseHeapRuns(item);
    MatchIsRun(p, argv, []);
    VerboseCollected(item);
  }

  /** `(-v -v | -v)` */
  function VerboseLines(): Tree {
    Either([VerboseTwice(), Leaf(Verbose())])
  }

  /** `(-v -v)` */
  function VerboseTwice(): Tree {
    Required([Leaf(Verbose()), Leaf(Verbose())])
  }

  lemma VerboseLinesRun(item: Element)
    requires item == VerboseItem(Flag(true))
    ensures Matchable(VerboseTwice()) && Matchable(VerboseLines())
    ensures RunOf(VerboseTwice(), [item, item]) == Run(true, [], [Event(Verbose(), item)] + [Event(Verbose(), item)], 2)
    ensures RunOf(VerboseLines(), [item, item]).matched && RunOf(VerboseLines(), [item, item]).left == []
    ensures RunOf(VerboseLines(), [item, item]).events == [Event(Verbose(), item)] + [Event(Verbose(), item)]
  {
    var v: Tree, l := Leaf(Verbose()), [item, item];
    VerboseRun(l);
    assert l[1..] == [item] && [item][1..] == [];
    VerboseRun([item]);
    RequiredTwo(v, v, l);
    EitherTwo(VerboseTwice(), v, l);
  }

  lemma VerboseTwiceHeap(item: Element)
    requires item == VerboseItem(Flag(true)) && Matchable(VerboseTwice())
    ensures HeapMatch(VerboseTwice(), [0, 1], [], [item, item])
         == HeapOutcome(true, [], [0], [VerboseItem(Count(2)), item])
  {
    var mem := [item, item];
    var mem1, mem2 := [VerboseItem(Count(1)), item], [VerboseItem(Count(2)), item];
    var both: seq<Addr>, one: seq<Addr> := [0, 1], [1];
    assert mem[0 := VerboseItem(Count(1))] == mem1 && mem1[0 := VerboseItem(Count(2))] == mem2;
    assert both[1..] == one && one[1..] == [];
    VerboseHeap(both, [], mem);
    VerboseHeap(one, [0], mem1);
    RequiredTwoHeap(Leaf(Verbose()), Leaf(Verbose()), both, mem);
  }

  /** The heavier branch wins, in the memory the other one left. */
  lemma EitherFirstHeap(p: Tree, q: Tree, left: seq<Addr>, mem: seq<Element>)
    requires Matchable(p) && Matchable(q) && Matchable(Either([p, q])) && Within(left, mem)
    requires var o := HeapMatch(p, left, [], mem);
             o.matched && HeapMatch(q, left, [], o.mem).matched
             && |o.left| <= |HeapMatch(q, left, [], o.mem).left|
    ensures var o := HeapMatch(p, left, [], mem);
            HeapMatch(Either([p, q]), left, [], mem)
            == HeapOutcome(true, o.left, o.collected, HeapMatch(q, left, [], o.mem).mem)
  {
    var o := HeapMatch(p, left, [], mem);
    var o' := HeapMatch(q, left, [], o.mem);
    HeapAnyTwo(p, q, left, [], mem);
    FirstOfTwo(o, o');
    EitherUnfolds([p, q], left, mem, ([o, o'], o'.mem));
  }

  lemma EitherUnfolds(cs: seq<Tree>, left: seq<Addr>, mem: seq<Element>, x: (seq<HeapOutcome>, seq<Element>))
    requires Matchable(Either(cs)) && AllMatchable(cs) && Within(left, mem) && x == HeapAny(cs, left, [], mem) && x.0 != []
    ensures var best := x.0[ShortestAddrs(x.0)];
            HeapMatch(Either(cs), left, [], mem) == HeapOutcome(true, best.left, best.collected, x.1)
  {
  }

  lemma FirstOfTwo(o: HeapOutcome, o': HeapOutcome)
    requires |o.left| <= |o'.left|
    ensures ShortestAddrs([o, o']) == 0
  {
    assert [o, o'][ShortestAddrs([o, o'])] == (if ShortestAddrs([o, o']) == 0 then o else o');
  }

  /** `-v` after a branch that counted two in the same element. */
  lemma VerboseAfterTwo(p: Tree, item: Element)
    requires item == VerboseItem(Flag(true)) && Matchable(p) && Matchable(Either([p, Leaf(Verbose())]))
    requires HeapMatch(p, [0, 1], [], [item, item]) == HeapOutcome(true, [], [0], [VerboseItem(Count(2)), item])
    ensures HeapMatch(Either([p, Leaf(Verbose())]), [0, 1], [], [item, item])
         == HeapOutcome(true, [], [0], [VerboseItem(Count(1)), item])
  {
    var both: seq<Addr>, mem2, mem3 := [0, 1], [VerboseItem(Count(2)), item], [VerboseItem(Count(1)), item];
    VerboseHeap(both, [], mem2);
    assert mem2[0 := VerboseItem(Count(1))] == mem3;
    EitherFirstHeap(p, Leaf(Verbose()), both, [item, item]);
  }

  /** Nor is too much the only mistake: for `(-v -v | -v)` and `-v -v` the second branch, though
      it loses, takes the count of the first back to one (line 126). */
  lemma HeapUndercounts() returns (p: Tree, argv: seq<Element>)
    ensures Matchable(p) && |argv| == 2
    ensures Match(p, argv, []).matched && Match(p, argv, []).collected == [VerboseItem(Count(2))]
    ensures var o := HeapMatch(p, [0, 1], [], argv);
            o.matched && o.left == [] && o.collected == [0] && o.mem[0] == VerboseItem(Count(1))
  {
    var item := VerboseItem(Flag(true));
    p := VerboseLines();
    argv := [item, item];
    VerboseLinesRun(item);
    MatchIsRun(p, argv, []);
    VerboseCollected(item);
    VerboseTwiceHeap(item);
    VerboseAfterTwo(VerboseTwice(), item);
  }
}
