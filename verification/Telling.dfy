/** What docopt really reports under a name, without the shared objects (docopt.py:112-279).

Under one name at most one object ever changes: the entry collected under it, or, for an
option not collected yet, the argv element that will become it.  So its value can be followed
through all branches that are tried, discarded ones included, by a single value, `Tell`.
`Tracks` shows that this is exactly the value the shared objects of HeapMatcher.dfy hold.
 */
module Telling {
  import opened Basics
  import opened Elements
  import opened Patterns
  import opened Matcher
  import opened Language
  import opened HeapMatcher

  /** Whether something is collected under the name, and the value of the object followed. */
  datatype Told = Told(has: bool, value: Value)

  /** The value of an entry made of `item`, whose own value is by now `v` if it is an option. */
  function Begin(a: Element, item: Element, v: Value): Value {
    var m := MatchOf(a, if a.Opt? then SetValue(item, v) else item);
    if Accumulates(a) then Increment(a, m) else m.value
  }

  /** What a discarded outcome leaves behind: entries made in it are gone, but not what it did
      to an entry that was there before, or to an argv element. */
  function Discard(a: Element, s: Told, t: Told): Told {
    Told(s.has, if s.has || a.Opt? then t.value else s.value)
  }

  function TellLeaf(a: Element, self: Element, l: seq<Element>, s: Told): Told {
    var pos := SingleMatch(self, l);
    if pos == |l| || Name(self) != Name(a) then s
    else if !s.has then Told(true, Begin(a, l[pos], s.value))
    else if Accumulates(a) then Told(true, Plus(s.value, Increment(a, MatchOf(a, l[pos]))))
    else s
  }

  function Tell(a: Element, p: Tree, l: seq<Element>, s: Told): Told
    requires Matchable(p)
    decreases p, 0
  {
    match p
    case Leaf(self) => TellLeaf(a, self, l, s)
    case Required(cs) =>
      var t := TellAll(a, cs, l, s);
      if RunAll(cs, l).matched then t else Discard(a, s, t)
    case Optional(cs) => TellEach(a, cs, l, s)
    case OptionsShortcut(cs) => TellEach(a, cs, l, s)
    case OneOrMore(cs) => TellLoop(a, cs[0], l, true, s)
    case Either(cs) =>
      var (ts, end) := TellAny(a, cs, l, s);
      var rs := RunAny(cs, l);
      if rs == [] then end else Survivor(a, s, ts[Shortest(RunLefts(rs))], end)
  }

  function TellAll(a: Element, cs: seq<Tree>, l: seq<Element>, s: Told): Told
    requires AllMatchable(cs)
    decreases cs, 0
  {
    if cs == [] then s else
      var t, r := Tell(a, cs[0], l, s), RunOf(cs[0], l);
      if r.matched then TellAll(a, cs[1..], r.left, t) else t
  }

  function TellEach(a: Element, cs: seq<Tree>, l: seq<Element>, s: Told): Told
    requires AllMatchable(cs)
    decreases cs, 0
  {
    if cs == [] then s else TellEach(a, cs[1..], RunOf(cs[0], l).left, Tell(a, cs[0], l, s))
  }

  function TellLoop(a: Element, p: Tree, l: seq<Element>, first: bool, s: Told): Told
    requires Matchable(p)
    decreases p, 1, if first then 1 else 0, |l|
  {
    var t, r := Tell(a, p, l, s), RunOf(p, l);
    if !r.matched || (!first && r.left == l) then t else TellLoop(a, p, r.left, false, t)
  }

  /** The branches of an Either, each after what the ones before it left behind. */
  function TellAny(a: Element, cs: seq<Tree>, l: seq<Element>, s: Told): (r: (seq<Told>, Told))
    requires AllMatchable(cs)
    ensures |r.0| == |RunAny(cs, l)|
    decreases cs, 0
  {
    if cs == [] then ([], s) else
      var t := Tell(a, cs[0], l, s);
      var rest := TellAny(a, cs[1..], l, Discard(a, s, t));
      ((if RunOf(cs[0], l).matched then [t] else []) + rest.0, rest.1)
  }

  /** The chosen outcome `t` of an Either once the branches after it have been tried. */
  function Survivor(a: Element, s: Told, t: Told, end: Told): Told {
    Told(t.has, if s.has || a.Opt? then end.value else t.value)
  }

  // ---------- the object followed ----------

  /** All leaves of the name of `a` are `a`. */
  ghost predicate Sole(p: Tree, a: Element)
    decreases p
  {
    if p.Leaf? then Name(p.leaf).Some? && (Name(p.leaf) == Name(a) ==> p.leaf == a)
    else forall i :: 0 <= i < |p.children| ==> Sole(p.children[i], a)
  }

  ghost predicate AllSole(cs: seq<Tree>, a: Element) {
    forall i :: 0 <= i < |cs| ==> Sole(cs[i], a)
  }

  predicate SameNames(c: seq<Element>, d: seq<Element>) {
    |c| == |d| && forall i :: 0 <= i < |c| ==> Name(c[i]) == Name(d[i])
  }

  /** In state `h`, whose argv was `orig`, `x` is the object followed, and `s` tells of it. */
  ghost predicate Tracked(a: Element, orig: seq<Element>, h: HeapOutcome, x: Addr, s: Told) {
    && Within(h.left, orig) && KeepsSkeletons(orig, h.mem) && Within(h.collected, h.mem)
    && Separate(h.left, h.collected) && FromArgv(orig) && Name(a).Some?
    && OthersKept(a, orig, h.mem, x)
    && EntryIs(a, h.collected, h.mem, x, s)
    && (!s.has && a.Opt? ==> NextIs(a, orig, h.left, h.mem, x, s))
  }

  /** No other argv element of the name has changed. */
  ghost predicate OthersKept(a: Element, orig: seq<Element>, mem: seq<Element>, x: Addr)
    requires |orig| <= |mem|
  {
    a.Opt? ==> forall b :: 0 <= b < |orig| && Name(orig[b]) == Name(a) && b != x ==> mem[b] == orig[b]
  }

  ghost predicate EntryIs(a: Element, collected: seq<Addr>, mem: seq<Element>, x: Addr, s: Told)
    requires Within(collected, mem)
  {
    var j := Find(Deref(mem, collected), Name(a));
    && (s.has <==> j < |collected|)
    && (s.has ==> collected[j] == x && mem[x].value == s.value)
  }

  ghost predicate NextIs(a: Element, orig: seq<Element>, left: seq<Addr>, mem: seq<Element>, x: Addr, s: Told)
    requires Within(left, orig) && |orig| <= |mem|
  {
    var i := Find(Deref(orig, left), Name(a));
    i < |left| ==> left[i] == x && mem[x].value == s.value
  }

  /** Some argv element of the name is left. */
  predicate Awaits(a: Element, orig: seq<Element>, left: seq<Addr>)
    requires Within(left, orig)
  {
    Find(Deref(orig, left), Name(a)) < |left|
  }

  /** Objects outside `left` and `collected` are as they were. */
  ghost predicate Untouched(left: seq<Addr>, collected: seq<Addr>, mem: seq<Element>, mem': seq<Element>) {
    |mem| <= |mem'| && forall b :: 0 <= b < |mem| && b !in left && b !in collected ==> mem'[b] == mem[b]
  }

  /** Outcome `o` of a pattern tried in `h` with run `r`, as far as names and objects go. */
  ghost predicate Moves(orig: seq<Element>, h: HeapOutcome, c: seq<Element>, o: HeapOutcome, r: Run) {
    && o.matched == r.matched
    && KeepsSkeletons(h.mem, o.mem) && Untouched(h.left, h.collected, h.mem, o.mem)
    && (forall b :: b in o.left ==> b in h.left)
    && (forall b :: b in o.collected ==> b in h.collected || b in h.left || b >= |h.mem|)
    && Within(o.left, orig) && Deref(orig, o.left) == r.left
    && Within(o.collected, o.mem) && SameNames(CollectAll(c, r.events), Deref(o.mem, o.collected))
  }

  /** What is told of it: `t`, of object `y`, if `o` is kept, and of `x` if it is discarded. */
  ghost predicate Tells(a: Element, orig: seq<Element>, h: HeapOutcome, x: Addr, s: Told, o: HeapOutcome, y: Addr, t: Told)
    requires |orig| <= |o.mem|
  {
    && Tracked(a, orig, h.(mem := o.mem), x, Discard(a, s, t))
    && Tracked(a, orig, o, y, t)
    && (s.has ==> t.has)
    && (s.has || a.Opt? ==> y == x)
    && (!s.has && !a.Opt? && t.has ==> y >= |h.mem|)
    && (a.Opt? && !t.has && Awaits(a, orig, h.left) ==> Awaits(a, orig, o.left))
    && (a.Opt? && !s.has && t.has ==> Awaits(a, orig, h.left))
  }

  lemma StillAwaits(a: Element, orig: seq<Element>, left: seq<Addr>, left': seq<Addr>)
    requires Within(left, orig) && Within(left', orig) && forall b :: b in left' ==> b in left
    ensures Awaits(a, orig, left') ==> Awaits(a, orig, left)
  {
    if Awaits(a, orig, left') {
      var b := left'[Find(Deref(orig, left'), Name(a))];
      assert b in left;
      var i :| 0 <= i < |left| && left[i] == b;
      assert Name(Deref(orig, left)[i]) == Name(a);
    }
  }

  lemma {:induction false} FindNames(c: seq<Element>, d: seq<Element>, n: Option<string>)
    requires SameNames(c, d)
    ensures Find(c, n) == Find(d, n)
  {
    if c != [] {
      assert Name(c[0]) == Name(d[0]);
      FindNames(c[1..], d[1..], n);
    }
  }

  lemma SkeletonName(e: Element, f: Element)
    requires Skeleton(e) == Skeleton(f)
    ensures Name(e) == Name(f) && (e.Argument? <==> f.Argument?) && (e.Opt? <==> f.Opt?)
  {
  }

  lemma NamesKept(xs: seq<Addr>, mem: seq<Element>, mem': seq<Element>)
    requires Within(xs, mem) && KeepsSkeletons(mem, mem')
    ensures Within(xs, mem') && SameNames(Deref(mem, xs), Deref(mem', xs))
  {
    forall i | 0 <= i < |xs|
      ensures Name(mem[xs[i]]) == Name(mem'[xs[i]])
    {
      SkeletonName(mem[xs[i]], mem'[xs[i]]);
    }
  }

  lemma KeepsTrans(k: seq<Element>, l: seq<Element>, m: seq<Element>)
    requires KeepsSkeletons(k, l) && KeepsSkeletons(l, m)
    ensures KeepsSkeletons(k, m)
  {
  }

  /** What is looked up is the same in the argv as it was and as it has become. */
  lemma LooksAlike(self: Element, orig: seq<Element>, left: seq<Addr>, mem: seq<Element>)
    requires Within(left, orig) && KeepsSkeletons(orig, mem) && FromArgv(orig)
    ensures Within(left, mem)
    ensures SingleMatch(self, Deref(mem, left)) == SingleMatch(self, Deref(orig, left))
    ensures forall i :: 0 <= i < |left| ==> Name(mem[left[i]]) == Name(orig[left[i]])
    ensures forall i :: 0 <= i < |left| && orig[left[i]].Argument? ==> mem[left[i]] == orig[left[i]]
  {
    DerefAlike(orig, mem, left);
    SingleMatchAlike(self, Deref(orig, left), Deref(mem, left));
    forall i | 0 <= i < |left|
      ensures Name(mem[left[i]]) == Name(orig[left[i]])
      ensures orig[left[i]].Argument? ==> mem[left[i]] == orig[left[i]]
    {
      SkeletonName(mem[left[i]], orig[left[i]]);
    }
  }

  // ---------- one leaf ----------

  /** Common to all states in which a pattern is tried. */
  ghost predicate Standing(orig: seq<Element>, h: HeapOutcome, c: seq<Element>) {
    && Within(h.left, orig) && KeepsSkeletons(orig, h.mem) && Within(h.collected, h.mem) && FromArgv(orig)
    && Within(h.left, h.mem) && SameNames(c, Deref(h.mem, h.collected))
  }

  lemma CollectNames(c: seq<Element>, d: seq<Element>, self: Element, m: Element)
    requires SameNames(c, d) && Name(m) == Name(self)
    ensures var c' := Collect(c, self, m);
            if Accumulates(self) && Find(d, Name(self)) < |d| then SameNames(c', d)
            else |c'| == |d| + 1 && SameNames(c'[..|d|], d) && Name(c'[|d|]) == Name(self)
  {
    FindNames(c, d, Name(self));
  }

  lemma MatchHasName(self: Element, l: seq<Element>)
    requires SingleMatch(self, l) < |l|
    ensures Name(MatchOf(self, l[SingleMatch(self, l)])) == Name(self)
  {
  }

  lemma LeafNames(self: Element, orig: seq<Element>, h: HeapOutcome, c: seq<Element>)
    requires Name(self).Some? && Standing(orig, h, c)
    ensures var o, r := HeapLeaf(self, h.left, h.collected, h.mem), RunOf(Leaf(self), Deref(orig, h.left));
            SameNames(CollectAll(c, r.events), Deref(o.mem, o.collected))
  {
    var l := Deref(orig, h.left);
    LooksAlike(self, orig, h.left, h.mem);
    LeafControl(self, h.left, h.collected, h.mem);
    var pos, o := SingleMatch(self, l), HeapLeaf(self, h.left, h.collected, h.mem);
    NamesKept(h.collected, h.mem, o.mem);
    if pos < |l| {
      MatchHasName(self, l);
      CollectOne(c, Event(self, l[pos]));
      TakenNames(self, h, c, MatchOf(self, l[pos]));
    }
  }

  lemma SameNamesTrans(c: seq<Element>, d: seq<Element>, e: seq<Element>)
    requires SameNames(c, d) && SameNames(d, e)
    ensures SameNames(c, e)
  {
  }

  lemma SameNamesSnoc(c: seq<Element>, d: seq<Element>, e: Element)
    requires |c| == |d| + 1 && SameNames(c[..|d|], d) && Name(c[|d|]) == Name(e)
    ensures SameNames(c, d + [e])
  {
    assert forall i :: 0 <= i < |d| ==> c[..|d|][i] == c[i];
  }

  /** A leaf that takes something adds an entry unless it adds to one. */
  lemma LeafGrows(self: Element, h: HeapOutcome)
    requires Within(h.left, h.mem) && Within(h.collected, h.mem)
    requires SingleMatch(self, Deref(h.mem, h.left)) < |h.left|
    ensures HeapLeaf(self, h.left, h.collected, h.mem).collected == h.collected
       <==> Accumulates(self) && Find(Deref(h.mem, h.collected), Name(self)) < |h.collected|
  {
    var grown := h.mem + [MatchOf(self, h.mem[h.left[SingleMatch(self, Deref(h.mem, h.left))]])];
    assert Deref(grown, h.collected) == Deref(h.mem, h.collected);
  }

  /** The names when a leaf has taken something. */
  lemma TakenNames(self: Element, h: HeapOutcome, c: seq<Element>, m: Element)
    requires Within(h.left, h.mem) && Within(h.collected, h.mem) && SameNames(c, Deref(h.mem, h.collected))
    requires SingleMatch(self, Deref(h.mem, h.left)) < |h.left| && Name(m) == Name(self)
    requires var o := HeapLeaf(self, h.left, h.collected, h.mem);
             Within(h.collected, o.mem) && SameNames(Deref(h.mem, h.collected), Deref(o.mem, h.collected))
    ensures var o := HeapLeaf(self, h.left, h.collected, h.mem);
            SameNames(Collect(c, self, m), Deref(o.mem, o.collected))
  {
    var d, o := Deref(h.mem, h.collected), HeapLeaf(self, h.left, h.collected, h.mem);
    CollectNames(c, d, self, m);
    LeafGrows(self, h);
    var d', c' := Deref(o.mem, h.collected), Collect(c, self, m);
    if o.collected == h.collected {
      SameNamesTrans(c', d, d');
    } else {
      LeafAppends(self, h, SingleMatch(self, Deref(h.mem, h.left)));
      SameNamesTrans(c'[..|d|], d, d');
      var a := o.collected[|h.collected|];
      DerefSnoc(o.mem, h.collected, a);
      SameNamesSnoc(c', d', o.mem[a]);
    }
  }

  /** A leaf that adds an entry adds one of its own name. */
  lemma LeafAppends(self: Element, h: HeapOutcome, pos: nat)
    requires Within(h.left, h.mem) && Within(h.collected, h.mem)
    requires pos == SingleMatch(self, Deref(h.mem, h.left)) < |h.left|
    ensures var o := HeapLeaf(self, h.left, h.collected, h.mem);
            o.collected != h.collected ==>
              var m := if self.Opt? then h.left[pos] else |h.mem|;
              o.collected == h.collected + [m] && Name(o.mem[m]) == Name(self)
  {
    MatchHasName(self, Deref(h.mem, h.left));
  }

  lemma LeafUntouched(self: Element, orig: seq<Element>, h: HeapOutcome)
    requires Within(h.left, h.mem) && Within(h.collected, h.mem)
    ensures var o := HeapLeaf(self, h.left, h.collected, h.mem);
            && Untouched(h.left, h.collected, h.mem, o.mem)
            && (forall b :: b in o.left ==> b in h.left)
            && (forall b :: b in o.collected ==> b in h.collected || b in h.left || b >= |h.mem|)
  {
  }

  lemma LeafMoves(self: Element, orig: seq<Element>, h: HeapOutcome, c: seq<Element>)
    requires Name(self).Some? && Standing(orig, h, c)
    ensures Moves(orig, h, c, HeapLeaf(self, h.left, h.collected, h.mem), RunOf(Leaf(self), Deref(orig, h.left)))
  {
    LooksAlike(self, orig, h.left, h.mem);
    LeafControl(self, h.left, h.collected, h.mem);
    LeafUntouched(self, orig, h);
    LeafNames(self, orig, h, c);
    var pos := SingleMatch(self, Deref(orig, h.left));
    if pos < |h.left| {
      DerefDrop(orig, h.left, pos);
    }
  }

  lemma {:induction false} FindAppend(c: seq<Element>, e: Element, n: Option<string>)
    ensures Find(c + [e], n) == if Find(c, n) < |c| then Find(c, n) else if Name(e) == n then |c| else |c| + 1
  {
    if c != [] {
      assert (c + [e])[1..] == c[1..] + [e];
      FindAppend(c[1..], e, n);
    }
  }

  /** Taking an element of another name leaves the first one of the name where it was. */
  lemma FindDropOther(l: seq<Element>, pos: nat, n: Option<string>)
    requires pos < |l| && Name(l[pos]) != n
    ensures Find(Drop(l, pos), n) == if pos < Find(l, n) then Find(l, n) - 1 else Find(l, n)
  {
    var i, k := Find(l, n), Find(Drop(l, pos), n);
    var i' := if pos < i then i - 1 else i;
    if i < |l| {
      assert Drop(l, pos)[i'] == l[i];
    }
    if k < |l| - 1 {
      assert Drop(l, pos)[k] == l[if k < pos then k else k + 1];
    }
    forall m | 0 <= m < i'
      ensures Name(Drop(l, pos)[m]) != n
    {
      assert Drop(l, pos)[m] == l[if m < pos then m else m + 1];
    }
  }

  /** A leaf of another name changes no object of the name. */
  lemma OtherLeafKeeps(a: Element, self: Element, h: HeapOutcome)
    requires Within(h.left, h.mem) && Within(h.collected, h.mem) && Name(self) != Name(a) && Name(self).Some?
    ensures var o := HeapLeaf(self, h.left, h.collected, h.mem);
            |h.mem| <= |o.mem| && forall b :: 0 <= b < |h.mem| && Name(h.mem[b]) == Name(a) ==> o.mem[b] == h.mem[b]
  {
    var pos := SingleMatch(self, Deref(h.mem, h.left));
    if pos < |h.left| {
      MatchHasName(self, Deref(h.mem, h.left));
    }
  }

  lemma EntryStays(a: Element, h: HeapOutcome, mem: seq<Element>, x: Addr, s: Told)
    requires Within(h.collected, h.mem) && KeepsSkeletons(h.mem, mem) && EntryIs(a, h.collected, h.mem, x, s)
    requires s.has ==> x < |h.mem| && mem[x].value == h.mem[x].value
    ensures EntryIs(a, h.collected, mem, x, s)
  {
    NamesKept(h.collected, h.mem, mem);
    FindNames(Deref(h.mem, h.collected), Deref(mem, h.collected), Name(a));
  }

  lemma EntryAppended(a: Element, collected: seq<Addr>, mem: seq<Element>, m: Addr, x: Addr, s: Told)
    requires Within(collected, mem) && m < |mem| && EntryIs(a, collected, mem, x, s)
    requires Name(mem[m]) == Name(a) ==> s.has
    ensures EntryIs(a, collected + [m], mem, x, s)
  {
    DerefSnoc(mem, collected, m);
    FindAppend(Deref(mem, collected), mem[m], Name(a));
  }

  /** If no object of the name has changed, what was told of it still holds. */
  lemma StillTracked(a: Element, orig: seq<Element>, h: HeapOutcome, x: Addr, s: Told, mem: seq<Element>)
    requires Tracked(a, orig, h, x, s) && KeepsSkeletons(h.mem, mem)
    requires forall b :: 0 <= b < |h.mem| && Name(h.mem[b]) == Name(a) ==> mem[b] == h.mem[b]
    ensures Tracked(a, orig, h.(mem := mem), x, s)
  {
    KeepsTrans(orig, h.mem, mem);
    NamesFrom(orig, h.mem);
    EntryStays(a, h, mem, x, s);
  }

  lemma OtherLeafDiscarded(a: Element, self: Element, orig: seq<Element>, h: HeapOutcome, x: Addr, s: Told)
    requires Tracked(a, orig, h, x, s) && Name(self) != Name(a) && Name(self).Some?
    ensures Tracked(a, orig, h.(mem := HeapLeaf(self, h.left, h.collected, h.mem).mem), x, s)
  {
    LooksAlike(self, orig, h.left, h.mem);
    LeafControl(self, h.left, h.collected, h.mem);
    OtherLeafKeeps(a, self, h);
    StillTracked(a, orig, h, x, s, HeapLeaf(self, h.left, h.collected, h.mem).mem);
  }

  /** Taking an argv element of another name. */
  lemma NextStays(a: Element, orig: seq<Element>, left: seq<Addr>, mem: seq<Element>, x: Addr, s: Told, pos: nat)
    requires Within(left, orig) && |orig| <= |mem| && pos < |left| && Name(orig[left[pos]]) != Name(a)
    ensures Within(Drop(left, pos), orig)
    ensures NextIs(a, orig, left, mem, x, s) ==> NextIs(a, orig, Drop(left, pos), mem, x, s)
    ensures Awaits(a, orig, left) ==> Awaits(a, orig, Drop(left, pos))
  {
    DerefDrop(orig, left, pos);
    FindDropOther(Deref(orig, left), pos, Name(a));
  }

  lemma OtherLeafEntry(a: Element, self: Element, orig: seq<Element>, h: HeapOutcome, x: Addr, s: Told)
    requires Tracked(a, orig, h, x, s) && Name(self) != Name(a) && Name(self).Some?
    requires SingleMatch(self, Deref(orig, h.left)) < |h.left|
    ensures var o := HeapLeaf(self, h.left, h.collected, h.mem);
            EntryIs(a, o.collected, o.mem, x, s) && Separate(o.left, o.collected)
  {
    var pos, o := SingleMatch(self, Deref(orig, h.left)), HeapLeaf(self, h.left, h.collected, h.mem);
    LooksAlike(self, orig, h.left, h.mem);
    OtherLeafDiscarded(a, self, orig, h, x, s);
    LeafSeparate(self, orig, h);
    if o.collected != h.collected {
      LeafAppends(self, h, pos);
      EntryAppended(a, h.collected, o.mem, if self.Opt? then h.left[pos] else |h.mem|, x, s);
    }
  }

  lemma LeafSeparate(self: Element, orig: seq<Element>, h: HeapOutcome)
    requires Within(h.left, orig) && Within(h.left, h.mem) && Within(h.collected, h.mem) && Separate(h.left, h.collected)
    requires SingleMatch(self, Deref(h.mem, h.left)) < |h.left|
    ensures var o := HeapLeaf(self, h.left, h.collected, h.mem); Separate(o.left, o.collected)
  {
    var pos := SingleMatch(self, Deref(h.mem, h.left));
    SeparateMoved(h.left, h.collected, pos, if self.Opt? then h.left[pos] else |h.mem|);
  }

  lemma OtherLeafTells(a: Element, self: Element, orig: seq<Element>, h: HeapOutcome, x: Addr, s: Told)
    requires Tracked(a, orig, h, x, s) && Name(self) != Name(a) && Name(self).Some?
    requires SingleMatch(self, Deref(orig, h.left)) < |h.left|
    ensures var o := HeapLeaf(self, h.left, h.collected, h.mem); |orig| <= |o.mem| && Tells(a, orig, h, x, s, o, x, s)
  {
    var pos, o := SingleMatch(self, Deref(orig, h.left)), HeapLeaf(self, h.left, h.collected, h.mem);
    LooksAlike(self, orig, h.left, h.mem);
    OtherLeafDiscarded(a, self, orig, h, x, s);
    OtherLeafEntry(a, self, orig, h, x, s);
    SingleMatchFits(self, Deref(orig, h.left));
    NextStays(a, orig, h.left, o.mem, x, s, pos);
  }

  // ---------- a leaf of the name ----------

  /** What the first match of `a` makes its entry of. */
  lemma BeginIs(a: Element, orig: seq<Element>, h: HeapOutcome, x: Addr, s: Told)
    requires Tracked(a, orig, h, x, s) && !s.has
    requires SingleMatch(a, Deref(orig, h.left)) < |h.left|
    ensures Within(h.left, h.mem)
    ensures var pos := SingleMatch(a, Deref(h.mem, h.left));
            && pos == SingleMatch(a, Deref(orig, h.left))
            && MatchOf(a, h.mem[h.left[pos]])
               == MatchOf(a, if a.Opt? then SetValue(orig[h.left[pos]], s.value) else orig[h.left[pos]])
            && (a.Opt? ==> h.left[pos] == x)
  {
    LooksAlike(a, orig, h.left, h.mem);
    var pos := SingleMatch(a, Deref(orig, h.left));
    SingleMatchFits(a, Deref(orig, h.left));
    if a.Opt? {
      assert Skeleton(h.mem[x]) == Skeleton(orig[x]);
    }
  }

  lemma FirstEntry(a: Element, orig: seq<Element>, h: HeapOutcome, x: Addr, s: Told)
    requires Tracked(a, orig, h, x, s) && !s.has
    requires SingleMatch(a, Deref(orig, h.left)) < |h.left|
    ensures var pos := SingleMatch(a, Deref(orig, h.left));
            var o := HeapLeaf(a, h.left, h.collected, h.mem);
            var m := if a.Opt? then x else |h.mem|;
            && o.left == Drop(h.left, pos) && o.collected == h.collected + [m] && m < |o.mem|
            && o.mem[m].value == Begin(a, orig[h.left[pos]], s.value) && Name(o.mem[m]) == Name(a)
            && (forall b :: 0 <= b < |h.mem| && b != m ==> o.mem[b] == h.mem[b])
  {
    BeginIs(a, orig, h, x, s);
    MatchHasName(a, Deref(h.mem, h.left));
  }

  lemma FirstEntryIs(a: Element, orig: seq<Element>, h: HeapOutcome, x: Addr, s: Told)
    requires Tracked(a, orig, h, x, s) && !s.has
    requires SingleMatch(a, Deref(orig, h.left)) < |h.left|
    ensures var pos := SingleMatch(a, Deref(orig, h.left));
            var o := HeapLeaf(a, h.left, h.collected, h.mem);
            var m := if a.Opt? then x else |h.mem|;
            && EntryIs(a, o.collected, o.mem, m, Told(true, Begin(a, orig[h.left[pos]], s.value)))
            && EntryIs(a, h.collected, o.mem, x, Told(false, s.value))
            && Separate(o.left, o.collected)
  {
    var pos, o := SingleMatch(a, Deref(orig, h.left)), HeapLeaf(a, h.left, h.collected, h.mem);
    var m := if a.Opt? then x else |h.mem|;
    FirstEntry(a, orig, h, x, s);
    BeginIs(a, orig, h, x, s);
    LeafControl(a, h.left, h.collected, h.mem);
    EntryStays(a, h, o.mem, x, s);
    SeparateMoved(h.left, h.collected, pos, m);
    DerefSnoc(o.mem, h.collected, m);
    FindAppend(Deref(o.mem, h.collected), o.mem[m], Name(a));
  }

  lemma FirstLeafTells(a: Element, orig: seq<Element>, h: HeapOutcome, x: Addr, s: Told)
    requires Tracked(a, orig, h, x, s) && !s.has
    requires SingleMatch(a, Deref(orig, h.left)) < |h.left|
    ensures var o := HeapLeaf(a, h.left, h.collected, h.mem);
            && |orig| <= |o.mem|
            && Tells(a, orig, h, x, s, o, if a.Opt? then x else |h.mem|, TellLeaf(a, a, Deref(orig, h.left), s))
  {
    var pos, o := SingleMatch(a, Deref(orig, h.left)), HeapLeaf(a, h.left, h.collected, h.mem);
    FirstEntry(a, orig, h, x, s);
    FirstEntryIs(a, orig, h, x, s);
    BeginIs(a, orig, h, x, s);
    LeafControl(a, h.left, h.collected, h.mem);
    KeepsTrans(orig, h.mem, o.mem);
  }

  /** A further match of `a` adds to its entry, or makes a second one. */
  lemma NextEntry(a: Element, orig: seq<Element>, h: HeapOutcome, x: Addr, s: Told)
    requires Tracked(a, orig, h, x, s) && s.has
    requires SingleMatch(a, Deref(orig, h.left)) < |h.left|
    ensures var o := HeapLeaf(a, h.left, h.collected, h.mem);
            && x < |h.mem| && o.mem[x].value == TellLeaf(a, a, Deref(orig, h.left), s).value
            && (forall b :: 0 <= b < |h.mem| && b != x ==> o.mem[b] == h.mem[b])
  {
    LooksAlike(a, orig, h.left, h.mem);
    var pos := SingleMatch(a, Deref(orig, h.left));
    SingleMatchFits(a, Deref(orig, h.left));
    assert h.left[pos] != x;
    assert h.mem[h.left[pos]] == orig[h.left[pos]];
  }

  lemma NextEntryIs(a: Element, orig: seq<Element>, h: HeapOutcome, x: Addr, s: Told)
    requires Tracked(a, orig, h, x, s) && s.has
    requires SingleMatch(a, Deref(orig, h.left)) < |h.left|
    ensures var o, t := HeapLeaf(a, h.left, h.collected, h.mem), TellLeaf(a, a, Deref(orig, h.left), s);
            && EntryIs(a, h.collected, o.mem, x, t) && EntryIs(a, o.collected, o.mem, x, t)
            && Separate(o.left, o.collected)
  {
    var o, t := HeapLeaf(a, h.left, h.collected, h.mem), TellLeaf(a, a, Deref(orig, h.left), s);
    var pos := SingleMatch(a, Deref(orig, h.left));
    LooksAlike(a, orig, h.left, h.mem);
    NextEntry(a, orig, h, x, s);
    LeafControl(a, h.left, h.collected, h.mem);
    NamesKept(h.collected, h.mem, o.mem);
    FindNames(Deref(h.mem, h.collected), Deref(o.mem, h.collected), Name(a));
    var m := if a.Opt? then h.left[pos] else |h.mem|;
    SeparateMoved(h.left, h.collected, pos, m);
    if o.collected != h.collected {
      LeafAppends(a, h, pos);
      EntryAppended(a, h.collected, o.mem, m, x, t);
    }
  }

  lemma NextLeafTells(a: Element, orig: seq<Element>, h: HeapOutcome, x: Addr, s: Told)
    requires Tracked(a, orig, h, x, s) && s.has
    requires SingleMatch(a, Deref(orig, h.left)) < |h.left|
    ensures var o := HeapLeaf(a, h.left, h.collected, h.mem);
            |orig| <= |o.mem| && Tells(a, orig, h, x, s, o, x, TellLeaf(a, a, Deref(orig, h.left), s))
  {
    var o := HeapLeaf(a, h.left, h.collected, h.mem);
    NextKeeps(a, orig, h);
    NextEntry(a, orig, h, x, s);
    NextEntryIs(a, orig, h, x, s);
    HeldTells(a, orig, h, x, s, o, TellLeaf(a, a, Deref(orig, h.left), s));
  }

  /** Of an entry that was there, when only it has changed. */
  lemma HeldTells(a: Element, orig: seq<Element>, h: HeapOutcome, x: Addr, s: Told, o: HeapOutcome, t: Told)
    requires Tracked(a, orig, h, x, s) && s.has && t.has
    requires |h.mem| <= |o.mem| && KeepsSkeletons(orig, o.mem) && KeepsSkeletons(h.mem, o.mem)
    requires Within(o.left, orig) && Within(o.collected, o.mem) && Separate(o.left, o.collected)
    requires forall b :: 0 <= b < |h.mem| && b != x ==> o.mem[b] == h.mem[b]
    requires EntryIs(a, h.collected, o.mem, x, t) && EntryIs(a, o.collected, o.mem, x, t)
    ensures Tells(a, orig, h, x, s, o, x, t)
  {
  }

  lemma NextKeeps(a: Element, orig: seq<Element>, h: HeapOutcome)
    requires Within(h.left, orig) && KeepsSkeletons(orig, h.mem) && Within(h.collected, h.mem) && FromArgv(orig) && Name(a).Some?
    ensures Within(h.left, h.mem)
    ensures var o := HeapLeaf(a, h.left, h.collected, h.mem);
            KeepsSkeletons(orig, o.mem) && KeepsSkeletons(h.mem, o.mem)
            && Within(o.left, orig) && Within(o.collected, o.mem)
  {
    LooksAlike(a, orig, h.left, h.mem);
    LeafKeepsSkeletons(a, h.left, h.collected, h.mem);
    KeepsTrans(orig, h.mem, HeapLeaf(a, h.left, h.collected, h.mem).mem);
  }

  lemma LeafTells(a: Element, self: Element, orig: seq<Element>, h: HeapOutcome, x: Addr, s: Told) returns (y: Addr)
    requires Tracked(a, orig, h, x, s) && Name(self).Some? && (Name(self) == Name(a) ==> self == a)
    ensures var o := HeapLeaf(self, h.left, h.collected, h.mem);
            |orig| <= |o.mem| && Tells(a, orig, h, x, s, o, y, TellLeaf(a, self, Deref(orig, h.left), s))
  {
    y := x;
    LooksAlike(self, orig, h.left, h.mem);
    if SingleMatch(self, Deref(orig, h.left)) < |h.left| {
      if Name(self) != Name(a) {
        OtherLeafTells(a, self, orig, h, x, s);
      } else if s.has {
        NextLeafTells(a, orig, h, x, s);
      } else {
        FirstLeafTells(a, orig, h, x, s);
        y := if a.Opt? then x else |h.mem|;
      }
    }
  }

  lemma NamesFrom(orig: seq<Element>, mem: seq<Element>)
    requires KeepsSkeletons(orig, mem)
    ensures forall b :: 0 <= b < |orig| ==> Name(mem[b]) == Name(orig[b])
  {
    forall b | 0 <= b < |orig|
      ensures Name(mem[b]) == Name(orig[b])
    {
      SkeletonName(mem[b], orig[b]);
    }
  }

  // ---------- one pattern after another ----------

  lemma NextReady(a: Element, orig: seq<Element>, h: HeapOutcome, c: seq<Element>, o: HeapOutcome, r: Run, y: Addr, t: Told)
    requires Moves(orig, h, c, o, r) && Tracked(a, orig, o, y, t)
    ensures Standing(orig, o, CollectAll(c, r.events))
  {
  }

  lemma MovesOn(orig: seq<Element>, h: HeapOutcome, c: seq<Element>, o: HeapOutcome, r: Run, o': HeapOutcome, r': Run, whole: Run)
    requires Moves(orig, h, c, o, r) && Moves(orig, o, CollectAll(c, r.events), o', r')
    requires whole.matched == r'.matched && whole.left == r'.left && whole.events == r.events + r'.events
    ensures Moves(orig, h, c, o', whole)
  {
    KeepsTrans(h.mem, o.mem, o'.mem);
    CollectAllConcat(c, r.events, r'.events);
  }

  /** The first state, once what follows the first pattern has been tried as well. */
  lemma DiscardBoth(a: Element, orig: seq<Element>, h: HeapOutcome, x: Addr, s: Told, o: HeapOutcome, y: Addr, t: Told,
                    mem: seq<Element>, u: Told)
    requires |orig| <= |o.mem| && Tells(a, orig, h, x, s, o, y, t) && KeepsSkeletons(o.mem, mem)
    requires Tracked(a, orig, o.(mem := mem), y, Discard(a, t, u)) && (t.has ==> u.has)
    ensures Tracked(a, orig, h.(mem := mem), x, Discard(a, s, u))
  {
    KeepsTrans(orig, o.mem, mem);
    NamesKept(h.collected, o.mem, mem);
    FindNames(Deref(o.mem, h.collected), Deref(mem, h.collected), Name(a));
    if !s.has && a.Opt? && Awaits(a, orig, h.left) && !t.has {
      assert Awaits(a, orig, o.left);
    }
  }

  lemma TellsOn(a: Element, orig: seq<Element>, h: HeapOutcome, x: Addr, s: Told, o: HeapOutcome, y: Addr, t: Told,
                o': HeapOutcome, z: Addr, u: Told)
    requires |orig| <= |o.mem| <= |o'.mem| && |h.mem| <= |o.mem| && KeepsSkeletons(o.mem, o'.mem)
    requires Tells(a, orig, h, x, s, o, y, t) && Tells(a, orig, o, y, t, o', z, u)
    requires forall b :: b in o.left ==> b in h.left
    ensures Tells(a, orig, h, x, s, o', z, u)
  {
    StillAwaits(a, orig, h.left, o.left);
    DiscardBoth(a, orig, h, x, s, o, y, t, o'.mem, u);
  }

  /** A pattern that fails gives back what it was given, whatever it has tried. */
  lemma TellsFailed(a: Element, orig: seq<Element>, h: HeapOutcome, x: Addr, s: Told, mem: seq<Element>, t: Told)
    requires |orig| <= |mem| && Tracked(a, orig, h.(mem := mem), x, Discard(a, s, t))
    ensures Tells(a, orig, h, x, s, HeapOutcome(false, h.left, h.collected, mem), x, Discard(a, s, t))
  {
    assert Discard(a, s, Discard(a, s, t)) == Discard(a, s, t);
  }

  lemma MovesFailed(orig: seq<Element>, h: HeapOutcome, c: seq<Element>, mem: seq<Element>, tried: nat)
    requires Standing(orig, h, c) && KeepsSkeletons(h.mem, mem) && Untouched(h.left, h.collected, h.mem, mem)
    ensures Moves(orig, h, c, HeapOutcome(false, h.left, h.collected, mem), Run(false, Deref(orig, h.left), [], tried))
  {
    NamesKept(h.collected, h.mem, mem);
  }

  // ---------- an Either ----------

  /** What trying all branches does, whichever is chosen. */
  ghost predicate AllTried(a: Element, orig: seq<Element>, h: HeapOutcome, x: Addr, s: Told,
                           res: (seq<HeapOutcome>, seq<Element>), rs: seq<Run>, end: Told) {
    && |res.0| == |rs| && (forall i :: 0 <= i < |rs| ==> |res.0[i].left| == |rs[i].left|)
    && KeepsSkeletons(h.mem, res.1) && Untouched(h.left, h.collected, h.mem, res.1)
    && Tracked(a, orig, h.(mem := res.1), x, end) && end == Discard(a, s, end)
  }

  /** The outcome of the branch that is chosen, in the memory all branches leave. */
  ghost predicate Chosen(a: Element, orig: seq<Element>, h: HeapOutcome, c: seq<Element>, x: Addr, s: Told,
                         o: HeapOutcome, r: Run, y: Addr, t: Told) {
    Moves(orig, h, c, o, r) && |orig| <= |o.mem| && Tells(a, orig, h, x, s, o, y, t)
  }

  /** Branches tried after the chosen one change what it tells only through the object followed. */
  lemma LaterBranches(a: Element, orig: seq<Element>, h: HeapOutcome, c: seq<Element>, x: Addr, s: Told,
                      o: HeapOutcome, r: Run, y: Addr, t: Told, mem: seq<Element>, end: Told)
    requires Chosen(a, orig, h, c, x, s, o, r, y, t)
    requires KeepsSkeletons(o.mem, mem) && Untouched(h.left, h.collected, o.mem, mem) && Within(h.collected, h.mem)
    requires |orig| <= |h.mem| && Tracked(a, orig, h.(mem := mem), x, end) && end == Discard(a, s, end)
    ensures Chosen(a, orig, h, c, x, s, o.(mem := mem), r, y, Survivor(a, s, t, end))
  {
    KeepsTrans(h.mem, o.mem, mem);
    KeepsTrans(orig, o.mem, mem);
    NamesKept(o.collected, o.mem, mem);
    FindNames(Deref(o.mem, o.collected), Deref(mem, o.collected), Name(a));
    SurvivorEntry(a, orig, h, x, s, o, y, t, mem, end);
  }

  lemma SurvivorEntry(a: Element, orig: seq<Element>, h: HeapOutcome, x: Addr, s: Told, o: HeapOutcome, y: Addr, t: Told,
                      mem: seq<Element>, end: Told)
    requires |orig| <= |o.mem| && Tells(a, orig, h, x, s, o, y, t)
    requires KeepsSkeletons(o.mem, mem) && Untouched(h.left, h.collected, o.mem, mem) && Within(h.collected, h.mem)
    requires forall b :: b in o.left ==> b in h.left
    requires |orig| <= |h.mem| && Tracked(a, orig, h.(mem := mem), x, end) && end == Discard(a, s, end)
    ensures Tracked(a, orig, o.(mem := mem), y, Survivor(a, s, t, end))
  {
    KeepsTrans(orig, o.mem, mem);
    NamesKept(o.collected, o.mem, mem);
    FindNames(Deref(o.mem, o.collected), Deref(mem, o.collected), Name(a));
    StillAwaits(a, orig, h.left, o.left);
    if t.has && !s.has && !a.Opt? {
      assert y !in h.left && y !in h.collected;
    }
  }

  lemma TrackedReady(a: Element, orig: seq<Element>, h: HeapOutcome, c: seq<Element>, x: Addr, s: Told, mem: seq<Element>)
    requires Standing(orig, h, c) && KeepsSkeletons(h.mem, mem) && Tracked(a, orig, h.(mem := mem), x, s)
    ensures Standing(orig, h.(mem := mem), c)
  {
    NamesKept(h.collected, h.mem, mem);
  }

  /** A branch chosen among those after the first. */
  lemma ChosenEarlier(a: Element, orig: seq<Element>, h: HeapOutcome, c: seq<Element>, x: Addr, s: Told, t0: Told,
                      mem: seq<Element>, o: HeapOutcome, r: Run, y: Addr, t: Told)
    requires KeepsSkeletons(h.mem, mem) && Untouched(h.left, h.collected, h.mem, mem)
    requires Chosen(a, orig, h.(mem := mem), c, x, Discard(a, s, t0), o, r, y, t)
    ensures Chosen(a, orig, h, c, x, s, o, r, y, t)
  {
    KeepsTrans(h.mem, mem, o.mem);
    assert Discard(a, Discard(a, s, t0), t) == Discard(a, s, t);
  }

  /** What a failed pattern leaves behind is what its being discarded does. */
  lemma {:induction false} FailedTell(a: Element, p: Tree, l: seq<Element>, s: Told)
    requires Matchable(p) && !RunOf(p, l).matched
    ensures Tell(a, p, l, s) == Discard(a, s, Tell(a, p, l, s))
    decreases p
  {
    match p
    case Leaf(_) =>
    case Required(_) =>
    case Optional(_) =>
    case OptionsShortcut(_) =>
    case OneOrMore(cs) => FailedTell(a, cs[0], l, s);
    case Either(cs) => EndTell(a, cs, l, s);
  }

  lemma {:induction false} EndTell(a: Element, cs: seq<Tree>, l: seq<Element>, s: Told)
    requires AllMatchable(cs)
    ensures TellAny(a, cs, l, s).1 == Discard(a, s, TellAny(a, cs, l, s).1)
    decreases cs
  {
    if cs != [] {
      EndTell(a, cs[1..], l, Discard(a, s, Tell(a, cs[0], l, s)));
    }
  }

  // ---------- the theorem ----------

  /** Through any pattern, `Tell` tells the value of the object followed. */
  lemma {:induction false} Tracks(a: Element, p: Tree, orig: seq<Element>, h: HeapOutcome, c: seq<Element>, x: Addr, s: Told)
    returns (y: Addr)
    requires Matchable(p) && Sole(p, a) && Standing(orig, h, c) && Tracked(a, orig, h, x, s)
    ensures Chosen(a, orig, h, c, x, s, HeapMatch(p, h.left, h.collected, h.mem), RunOf(p, Deref(orig, h.left)),
                   y, Tell(a, p, Deref(orig, h.left), s))
    decreases p, 0
  {
    var l := Deref(orig, h.left);
    match p
    case Leaf(self) =>
      LeafMoves(self, orig, h, c);
      y := LeafTells(a, self, orig, h, x, s);
    case Required(cs) =>
      y := TracksAll(a, cs, orig, h, c, x, s);
      if !RunAll(cs, l).matched {
        var mem := HeapAll(cs, h.left, h.collected, h.mem).mem;
        MovesFailed(orig, h, c, mem, RunAll(cs, l).tried);
        TellsFailed(a, orig, h, x, s, mem, TellAll(a, cs, l, s));
        y := x;
      }
    case Optional(cs) => y := TracksEach(a, cs, orig, h, c, x, s);
    case OptionsShortcut(cs) => y := TracksEach(a, cs, orig, h, c, x, s);
    case OneOrMore(cs) => y := TracksOneOrMore(a, cs, orig, h, c, x, s);
    case Either(cs) => y := TracksEither(a, cs, orig, h, c, x, s);
  }

  lemma {:induction false} TracksAll(a: Element, cs: seq<Tree>, orig: seq<Element>, h: HeapOutcome, c: seq<Element>, x: Addr, s: Told)
    returns (z: Addr)
    requires AllMatchable(cs) && AllSole(cs, a) && Standing(orig, h, c) && Tracked(a, orig, h, x, s)
    ensures Chosen(a, orig, h, c, x, s, HeapAll(cs, h.left, h.collected, h.mem), RunAll(cs, Deref(orig, h.left)),
                   z, TellAll(a, cs, Deref(orig, h.left), s))
    decreases cs, 0
  {
    var l := Deref(orig, h.left);
    if cs == [] {
      z := x;
      Nothing(a, orig, h, c, x, s);
    } else {
      var y := Tracks(a, cs[0], orig, h, c, x, s);
      var o, r, t := HeapMatch(cs[0], h.left, h.collected, h.mem), RunOf(cs[0], l), Tell(a, cs[0], l, s);
      z := y;
      if r.matched {
        NextReady(a, orig, h, c, o, r, y, t);
        z := TracksAll(a, cs[1..], orig, o, CollectAll(c, r.events), y, t);
        ChosenOn(a, orig, h, c, x, s, o, r, y, t, HeapAll(cs[1..], o.left, o.collected, o.mem), RunAll(cs[1..], r.left),
                 z, TellAll(a, cs[1..], r.left, t), RunAll(cs, l));
      }
    }
  }

  lemma Nothing(a: Element, orig: seq<Element>, h: HeapOutcome, c: seq<Element>, x: Addr, s: Told)
    requires Standing(orig, h, c) && Tracked(a, orig, h, x, s)
    ensures Chosen(a, orig, h, c, x, s, HeapOutcome(true, h.left, h.collected, h.mem), Run(true, Deref(orig, h.left), [], 0), x, s)
  {
  }

  lemma ChosenOn(a: Element, orig: seq<Element>, h: HeapOutcome, c: seq<Element>, x: Addr, s: Told, o: HeapOutcome, r: Run, y: Addr, t: Told,
                 o': HeapOutcome, r': Run, z: Addr, u: Told, whole: Run)
    requires Chosen(a, orig, h, c, x, s, o, r, y, t) && Chosen(a, orig, o, CollectAll(c, r.events), y, t, o', r', z, u)
    requires whole.matched == r'.matched && whole.left == r'.left && whole.events == r.events + r'.events
    ensures Chosen(a, orig, h, c, x, s, o', whole, z, u)
  {
    MovesOn(orig, h, c, o, r, o', r', whole);
    TellsOn(a, orig, h, x, s, o, y, t, o', z, u);
  }

  lemma {:induction false} TracksEach(a: Element, cs: seq<Tree>, orig: seq<Element>, h: HeapOutcome, c: seq<Element>, x: Addr, s: Told)
    returns (z: Addr)
    requires AllMatchable(cs) && AllSole(cs, a) && Standing(orig, h, c) && Tracked(a, orig, h, x, s)
    ensures Chosen(a, orig, h, c, x, s, HeapEach(cs, h.left, h.collected, h.mem), RunEach(cs, Deref(orig, h.left)),
                   z, TellEach(a, cs, Deref(orig, h.left), s))
    decreases cs, 0
  {
    var l := Deref(orig, h.left);
    if cs == [] {
      z := x;
      Nothing(a, orig, h, c, x, s);
    } else {
      var y := Tracks(a, cs[0], orig, h, c, x, s);
      var o, r, t := HeapMatch(cs[0], h.left, h.collected, h.mem), RunOf(cs[0], l), Tell(a, cs[0], l, s);
      NextReady(a, orig, h, c, o, r, y, t);
      z := TracksEach(a, cs[1..], orig, o, CollectAll(c, r.events), y, t);
      ChosenOn(a, orig, h, c, x, s, o, r, y, t, HeapEach(cs[1..], o.left, o.collected, o.mem), RunEach(cs[1..], r.left),
               z, TellEach(a, cs[1..], r.left, t), RunEach(cs, l));
    }
  }

  /** The loop: whether its last round matched does not matter to what it leaves. */
  ghost predicate LoopTracked(a: Element, orig: seq<Element>, h: HeapOutcome, c: seq<Element>, x: Addr, s: Told,
                              res: (nat, HeapOutcome), run: (nat, Run), times: nat, y: Addr, t: Told) {
    && res.0 == times + run.0 && (run.0 >= 1 ==> run.1.matched) && (run.0 == 0 ==> run.1.left == Deref'(orig, h.left))
    && Chosen(a, orig, h, c, x, s, res.1.(matched := run.1.matched), run.1, y, t)
  }

  function Deref'(orig: seq<Element>, left: seq<Addr>): seq<Element> {
    if Within(left, orig) then Deref(orig, left) else []
  }

  /** What the loop does from state `h` on, `t` being told of `z` in the end. */
  ghost predicate LoopTold(a: Element, p: Tree, orig: seq<Element>, h: HeapOutcome, c: seq<Element>, x: Addr, s: Told,
                           first: bool, times: nat, z: Addr, t: Told)
    requires Matchable(p) && Standing(orig, h, c)
  {
    LoopTracked(a, orig, h, c, x, s, HeapLoop(p, h.left, h.collected, h.mem, BeforeAddrs(first, h.left), times),
                RunLoop(p, Deref(orig, h.left), first), times, z, t)
  }

  lemma {:induction false} TracksLoop(a: Element, p: Tree, orig: seq<Element>, h: HeapOutcome, c: seq<Element>, x: Addr, s: Told,
                                      first: bool, times: nat)
    returns (z: Addr)
    requires Matchable(p) && Sole(p, a) && Standing(orig, h, c) && Tracked(a, orig, h, x, s)
    ensures LoopTold(a, p, orig, h, c, x, s, first, times, z, TellLoop(a, p, Deref(orig, h.left), first, s))
    decreases p, 1, if first then 1 else 0, |h.left|
  {
    var l := Deref(orig, h.left);
    var y := Tracks(a, p, orig, h, c, x, s);
    var o, r, t := HeapMatch(p, h.left, h.collected, h.mem), RunOf(p, l), Tell(a, p, l, s);
    TellTurn(a, p, l, first, s);
    SameLengths(a, orig, h, c, x, s, o, r, y, t);
    if r.matched && (first || r.left != l) {
      NextReady(a, orig, h, c, o, r, y, t);
      z := TracksLoop(a, p, orig, o, CollectAll(c, r.events), y, t, false, times + 1);
      LoopGoesOn(a, p, orig, h, c, x, s, y, t, first, times, z, TellLoop(a, p, r.left, false, t));
      return;
    }
    z := y;
    LoopEnds(a, p, orig, h, c, x, s, y, t, first, times);
  }

  /** The memory and the value reading take something in the same rounds. */
  lemma SameLengths(a: Element, orig: seq<Element>, h: HeapOutcome, c: seq<Element>, x: Addr, s: Told,
                    o: HeapOutcome, r: Run, y: Addr, t: Told)
    requires Within(h.left, orig) && Chosen(a, orig, h, c, x, s, o, r, y, t)
    requires o.left == h.left || |o.left| < |h.left|
    ensures o.left == h.left <==> r.left == Deref(orig, h.left)
    ensures |r.left| == |o.left|
  {
  }

  lemma TellTurn(a: Element, p: Tree, l: seq<Element>, first: bool, s: Told)
    requires Matchable(p)
    ensures var t, r := Tell(a, p, l, s), RunOf(p, l);
            TellLoop(a, p, l, first, s) == if !r.matched || (!first && r.left == l) then t else TellLoop(a, p, r.left, false, t)
  {
  }

  lemma LoopEnds(a: Element, p: Tree, orig: seq<Element>, h: HeapOutcome, c: seq<Element>, x: Addr, s: Told, y: Addr, t: Told,
                 first: bool, times: nat)
    requires Matchable(p) && Standing(orig, h, c)
    requires var o, r := HeapMatch(p, h.left, h.collected, h.mem), RunOf(p, Deref(orig, h.left));
             Chosen(a, orig, h, c, x, s, o, r, y, t)
             && (!r.matched || (!first && o.left == h.left && r.left == Deref(orig, h.left)))
    ensures LoopTold(a, p, orig, h, c, x, s, first, times, y, t)
  {
    LoopTurn(p, h.left, h.collected, h.mem, BeforeAddrs(first, h.left), times);
    SameLeftIsSame(h.left, HeapMatch(p, h.left, h.collected, h.mem), h.collected, h.mem);
    RunStops(p, Deref(orig, h.left), first);
  }

  lemma LoopGoesOn(a: Element, p: Tree, orig: seq<Element>, h: HeapOutcome, c: seq<Element>, x: Addr, s: Told, y: Addr, t: Told,
                   first: bool, times: nat, z: Addr, u: Told)
    requires Matchable(p) && Standing(orig, h, c)
    requires var o, r := HeapMatch(p, h.left, h.collected, h.mem), RunOf(p, Deref(orig, h.left));
             && Chosen(a, orig, h, c, x, s, o, r, y, t)
             && r.matched && (first || (o.left != h.left && r.left != Deref(orig, h.left)))
             && LoopTracked(a, orig, o, CollectAll(c, r.events), y, t, HeapLoop(p, o.left, o.collected, o.mem, Some(o.left), times + 1),
                            RunLoop(p, r.left, false), times + 1, z, u)
    ensures LoopTold(a, p, orig, h, c, x, s, first, times, z, u)
  {
    var l := Deref(orig, h.left);
    var o, r := HeapMatch(p, h.left, h.collected, h.mem), RunOf(p, l);
    LoopTurn(p, h.left, h.collected, h.mem, BeforeAddrs(first, h.left), times);
    SameLeftIsSame(h.left, o, h.collected, h.mem);
    RunGoesOn(p, l, first);
    var o', run := HeapLoop(p, o.left, o.collected, o.mem, Some(o.left), times + 1).1, RunLoop(p, r.left, false).1;
    var whole := RunLoop(p, l, first).1;
    ChosenOn(a, orig, h, c, x, s, o, r, y, t, o'.(matched := run.matched), run, z, u, whole.(matched := run.matched));
    ChosenMatched(a, orig, h, c, x, s, o'.(matched := run.matched), whole.(matched := run.matched), z, u);
  }

  lemma ChosenMatched(a: Element, orig: seq<Element>, h: HeapOutcome, c: seq<Element>, x: Addr, s: Told,
                      o: HeapOutcome, r: Run, y: Addr, t: Told)
    requires Chosen(a, orig, h, c, x, s, o, r, y, t)
    ensures Chosen(a, orig, h, c, x, s, o.(matched := true), r.(matched := true), y, t)
  {
  }

  lemma {:induction false} TracksOneOrMore(a: Element, cs: seq<Tree>, orig: seq<Element>, h: HeapOutcome, c: seq<Element>, x: Addr, s: Told)
    returns (y: Addr)
    requires |cs| == 1 && Matchable(OneOrMore(cs)) && Matchable(cs[0]) && Sole(cs[0], a) && Standing(orig, h, c) && Tracked(a, orig, h, x, s)
    ensures var p: Tree := OneOrMore(cs);
            Chosen(a, orig, h, c, x, s, HeapMatch(p, h.left, h.collected, h.mem), RunOf(p, Deref(orig, h.left)),
                   y, Tell(a, p, Deref(orig, h.left), s))
    decreases cs, 2
  {
    var l, p: Tree := Deref(orig, h.left), OneOrMore(cs);
    y := TracksLoop(a, cs[0], orig, h, c, x, s, true, 0);
    var t, n, run := TellLoop(a, cs[0], l, true, s), RunLoop(cs[0], l, true).0, RunLoop(cs[0], l, true).1;
    var o := HeapLoop(cs[0], h.left, h.collected, h.mem, None, 0).1;
    if n == 0 {
      NoRound(a, cs[0], orig, h, c, x, s, y, t);
      y := x;
    }
    var o', r := if n == 0 then HeapOutcome(false, h.left, h.collected, o.mem) else o.(matched := true),
                 if n == 0 then Run(false, l, [], run.tried) else run;
    assert Chosen(a, orig, h, c, x, s, o', r, y, t);
    OneOrMoreIs(cs, orig, h);
    OneOrMoreTell(a, cs, l, s);
  }

  lemma OneOrMoreTell(a: Element, cs: seq<Tree>, l: seq<Element>, s: Told)
    requires |cs| == 1 && Matchable(OneOrMore(cs)) && Matchable(cs[0])
    ensures Tell(a, OneOrMore(cs), l, s) == TellLoop(a, cs[0], l, true, s)
  {
  }

  lemma OneOrMoreIs(cs: seq<Tree>, orig: seq<Element>, h: HeapOutcome)
    requires |cs| == 1 && Matchable(OneOrMore(cs)) && Matchable(cs[0]) && Within(h.left, orig)
    requires Within(h.left, h.mem) && Within(h.collected, h.mem)
    requires HeapLoop(cs[0], h.left, h.collected, h.mem, None, 0).0 == RunLoop(cs[0], Deref(orig, h.left), true).0
    requires RunLoop(cs[0], Deref(orig, h.left), true).0 >= 1 ==> RunLoop(cs[0], Deref(orig, h.left), true).1.matched
    ensures var p: Tree := OneOrMore(cs);
            var o := HeapLoop(cs[0], h.left, h.collected, h.mem, None, 0).1;
            var (n, run) := RunLoop(cs[0], Deref(orig, h.left), true);
            && HeapMatch(p, h.left, h.collected, h.mem)
               == (if n == 0 then HeapOutcome(false, h.left, h.collected, o.mem) else o.(matched := true))
            && RunOf(p, Deref(orig, h.left)) == (if n == 0 then Run(false, Deref(orig, h.left), [], run.tried) else run)
  {
  }

  lemma NoRound(a: Element, p: Tree, orig: seq<Element>, h: HeapOutcome, c: seq<Element>, x: Addr, s: Told, y: Addr, t: Told)
    requires Matchable(p) && Standing(orig, h, c) && RunLoop(p, Deref(orig, h.left), true).0 == 0
    requires LoopTracked(a, orig, h, c, x, s, HeapLoop(p, h.left, h.collected, h.mem, None, 0),
                         RunLoop(p, Deref(orig, h.left), true), 0, y, t)
    requires t == TellLoop(a, p, Deref(orig, h.left), true, s)
    ensures var o := HeapLoop(p, h.left, h.collected, h.mem, None, 0).1;
            Chosen(a, orig, h, c, x, s, HeapOutcome(false, h.left, h.collected, o.mem),
                   Run(false, Deref(orig, h.left), [], RunLoop(p, Deref(orig, h.left), true).1.tried), x, t)
  {
    var l, o := Deref(orig, h.left), HeapLoop(p, h.left, h.collected, h.mem, None, 0).1;
    if RunOf(p, l).matched {
      RunGoesOn(p, l, true);
    } else {
      RunStops(p, l, true);
    }
    FailedTell(a, p, l, s);
    MovesFailed(orig, h, c, o.mem, RunLoop(p, l, true).1.tried);
    TellsFailed(a, orig, h, x, s, o.mem, Tell(a, p, l, s));
  }

  lemma {:induction false} TracksEither(a: Element, cs: seq<Tree>, orig: seq<Element>, h: HeapOutcome, c: seq<Element>, x: Addr, s: Told)
    returns (y: Addr)
    requires Matchable(Either(cs)) && AllMatchable(cs) && AllSole(cs, a) && Standing(orig, h, c) && Tracked(a, orig, h, x, s)
    ensures var p: Tree := Either(cs);
            Chosen(a, orig, h, c, x, s, HeapMatch(p, h.left, h.collected, h.mem), RunOf(p, Deref(orig, h.left)),
                   y, Tell(a, p, Deref(orig, h.left), s))
    decreases cs, 3
  {
    var l := Deref(orig, h.left);
    var rs, end := RunAny(cs, l), TellAny(a, cs, l, s).1;
    TracksBranches(a, cs, orig, h, c, x, s);
    var (os, mem) := HeapAny(cs, h.left, h.collected, h.mem);
    if rs == [] {
      MovesFailed(orig, h, c, mem, TriedAny(cs, l));
      TellsFailed(a, orig, h, x, s, mem, end);
      y := x;
      NoBranchIs(a, cs, orig, h, s);
    } else {
      SameShortest(os, RunLefts(rs), mem);
      y := TracksChosen(a, cs, orig, h, c, x, s, Shortest(RunLefts(rs)));
      BranchIs(a, cs, orig, h, c, x, s, y);
    }
  }

  lemma NoBranchIs(a: Element, cs: seq<Tree>, orig: seq<Element>, h: HeapOutcome, s: Told)
    requires Matchable(Either(cs)) && AllMatchable(cs) && Within(h.left, orig) && Within(h.left, h.mem) && Within(h.collected, h.mem)
    requires RunAny(cs, Deref(orig, h.left)) == [] && HeapAny(cs, h.left, h.collected, h.mem).0 == []
    ensures var p: Tree, l := Either(cs), Deref(orig, h.left);
            && HeapMatch(p, h.left, h.collected, h.mem)
               == HeapOutcome(false, h.left, h.collected, HeapAny(cs, h.left, h.collected, h.mem).1)
            && RunOf(p, l) == Run(false, l, [], TriedAny(cs, l))
            && Tell(a, p, l, s) == TellAny(a, cs, l, s).1
  {
  }

  lemma BranchIs(a: Element, cs: seq<Tree>, orig: seq<Element>, h: HeapOutcome, c: seq<Element>, x: Addr, s: Told, y: Addr)
    requires Matchable(Either(cs)) && AllMatchable(cs) && Within(h.left, orig) && Within(h.left, h.mem) && Within(h.collected, h.mem)
    requires var os, rs := HeapAny(cs, h.left, h.collected, h.mem).0, RunAny(cs, Deref(orig, h.left));
             os != [] && rs != [] && ShortestAddrs(os) == Shortest(RunLefts(rs))
    requires BranchChosen(a, cs, orig, h, c, x, s, Shortest(RunLefts(RunAny(cs, Deref(orig, h.left)))), y)
    ensures var p: Tree := Either(cs);
            Chosen(a, orig, h, c, x, s, HeapMatch(p, h.left, h.collected, h.mem), RunOf(p, Deref(orig, h.left)),
                   y, Tell(a, p, Deref(orig, h.left), s))
  {
    var l, k := Deref(orig, h.left), Shortest(RunLefts(RunAny(cs, Deref(orig, h.left))));
    var x' := HeapAny(cs, h.left, h.collected, h.mem);
    var y', r := TellAny(a, cs, l, s), RunAny(cs, l)[k];
    var p: Tree := Either(cs);
    assert HeapMatch(p, h.left, h.collected, h.mem) == HeapOutcome(true, x'.0[k].left, x'.0[k].collected, x'.1);
    assert RunOf(p, l) == Run(true, r.left, r.events, TriedAny(cs, l));
    ChosenRun(a, orig, h, c, x, s, HeapOutcome(true, x'.0[k].left, x'.0[k].collected, x'.1), r, y, Survivor(a, s, y'.0[k], y'.1),
              RunOf(p, l));
    TellEither(a, cs, l, s, y');
  }

  lemma TellEither(a: Element, cs: seq<Tree>, l: seq<Element>, s: Told, y: (seq<Told>, Told))
    requires Matchable(Either(cs)) && AllMatchable(cs) && RunAny(cs, l) != [] && y == TellAny(a, cs, l, s)
    ensures Tell(a, Either(cs), l, s) == Survivor(a, s, y.0[Shortest(RunLefts(RunAny(cs, l)))], y.1)
  {
  }

  lemma ChosenRun(a: Element, orig: seq<Element>, h: HeapOutcome, c: seq<Element>, x: Addr, s: Told,
                  o: HeapOutcome, r: Run, y: Addr, t: Told, r': Run)
    requires Chosen(a, orig, h, c, x, s, o, r, y, t)
    requires r'.matched == r.matched && r'.left == r.left && r'.events == r.events
    ensures Chosen(a, orig, h, c, x, s, o, r', y, t)
  {
  }

  lemma {:induction false} TracksBranches(a: Element, cs: seq<Tree>, orig: seq<Element>, h: HeapOutcome, c: seq<Element>, x: Addr, s: Told)
    requires AllMatchable(cs) && AllSole(cs, a) && Standing(orig, h, c) && Tracked(a, orig, h, x, s)
    ensures AllTried(a, orig, h, x, s, HeapAny(cs, h.left, h.collected, h.mem), RunAny(cs, Deref(orig, h.left)),
                     TellAny(a, cs, Deref(orig, h.left), s).1)
    decreases cs, 0
  {
    if cs != [] {
      var l := Deref(orig, h.left);
      var y := Tracks(a, cs[0], orig, h, c, x, s);
      var o, t := HeapMatch(cs[0], h.left, h.collected, h.mem), Tell(a, cs[0], l, s);
      TrackedReady(a, orig, h, c, x, Discard(a, s, t), o.mem);
      TracksBranches(a, cs[1..], orig, h.(mem := o.mem), c, x, Discard(a, s, t));
      EndTell(a, cs, l, s);
      HeapAnyUnfold(cs, h.left, h.collected, h.mem);
      BranchesTried(a, orig, h, x, s, t, o, RunOf(cs[0], l), HeapAny(cs[1..], h.left, h.collected, o.mem), RunAny(cs[1..], l),
                    TellAny(a, cs, l, s).1);
    }
  }

  lemma BranchesTried(a: Element, orig: seq<Element>, h: HeapOutcome, x: Addr, s: Told, t: Told, o: HeapOutcome, r: Run,
                      rest: (seq<HeapOutcome>, seq<Element>), rs: seq<Run>, end: Told)
    requires o.matched == r.matched && |o.left| == |r.left|
    requires KeepsSkeletons(h.mem, o.mem) && Untouched(h.left, h.collected, h.mem, o.mem)
    requires AllTried(a, orig, h.(mem := o.mem), x, Discard(a, s, t), rest, rs, end) && end == Discard(a, s, end)
    ensures AllTried(a, orig, h, x, s, ((if o.matched then [o] else []) + rest.0, rest.1), (if r.matched then [r] else []) + rs, end)
  {
    KeepsTrans(h.mem, o.mem, rest.1);
  }

  lemma {:induction false} TracksChosen(a: Element, cs: seq<Tree>, orig: seq<Element>, h: HeapOutcome, c: seq<Element>, x: Addr, s: Told, k: nat)
    returns (y: Addr)
    requires AllMatchable(cs) && AllSole(cs, a) && Standing(orig, h, c) && Tracked(a, orig, h, x, s)
    requires k < |RunAny(cs, Deref(orig, h.left))|
    ensures BranchChosen(a, cs, orig, h, c, x, s, k, y)
    decreases cs, 2
  {
    if RunOf(cs[0], Deref(orig, h.left)).matched && k == 0 {
      y := TracksFirst(a, cs, orig, h, c, x, s);
    } else {
      y := TracksLater(a, cs, orig, h, c, x, s, k);
    }
  }

  lemma {:induction false} TracksFirst(a: Element, cs: seq<Tree>, orig: seq<Element>, h: HeapOutcome, c: seq<Element>, x: Addr, s: Told)
    returns (y: Addr)
    requires AllMatchable(cs) && AllSole(cs, a) && Standing(orig, h, c) && Tracked(a, orig, h, x, s)
    requires cs != [] && RunOf(cs[0], Deref(orig, h.left)).matched
    ensures BranchChosen(a, cs, orig, h, c, x, s, 0, y)
    decreases cs, 1
  {
    y := TracksHead(a, cs, orig, h, c, x, s);
    var o := HeapMatch(cs[0], h.left, h.collected, h.mem);
    TracksBranches(a, cs[1..], orig, h.(mem := o.mem), c, x, Discard(a, s, Tell(a, cs[0], Deref(orig, h.left), s)));
    FirstChosen(a, cs, orig, h, c, x, s, y);
  }

  lemma {:induction false} TracksLater(a: Element, cs: seq<Tree>, orig: seq<Element>, h: HeapOutcome, c: seq<Element>, x: Addr, s: Told, k: nat)
    returns (y: Addr)
    requires AllMatchable(cs) && AllSole(cs, a) && Standing(orig, h, c) && Tracked(a, orig, h, x, s)
    requires k < |RunAny(cs, Deref(orig, h.left))| && (RunOf(cs[0], Deref(orig, h.left)).matched ==> k > 0)
    ensures BranchChosen(a, cs, orig, h, c, x, s, k, y)
    decreases cs, 1
  {
    var l := Deref(orig, h.left);
    y := TracksHead(a, cs, orig, h, c, x, s);
    var o := HeapMatch(cs[0], h.left, h.collected, h.mem);
    var k' := if RunOf(cs[0], l).matched then k - 1 else k;
    y := TracksChosen(a, cs[1..], orig, h.(mem := o.mem), c, x, Discard(a, s, Tell(a, cs[0], l, s)), k');
    LaterChosen(a, cs, orig, h, c, x, s, k, k', y);
  }

  lemma {:induction false} TracksHead(a: Element, cs: seq<Tree>, orig: seq<Element>, h: HeapOutcome, c: seq<Element>, x: Addr, s: Told)
    returns (y: Addr)
    requires cs != [] && AllMatchable(cs) && AllSole(cs, a) && Standing(orig, h, c) && Tracked(a, orig, h, x, s)
    ensures var o, r, t := HeapMatch(cs[0], h.left, h.collected, h.mem), RunOf(cs[0], Deref(orig, h.left)),
                           Tell(a, cs[0], Deref(orig, h.left), s);
            && Chosen(a, orig, h, c, x, s, o, r, y, t)
            && Standing(orig, h.(mem := o.mem), c) && Tracked(a, orig, h.(mem := o.mem), x, Discard(a, s, t))
    decreases cs, 0
  {
    y := Tracks(a, cs[0], orig, h, c, x, s);
    TrackedReady(a, orig, h, c, x, Discard(a, s, Tell(a, cs[0], Deref(orig, h.left), s)),
                 HeapMatch(cs[0], h.left, h.collected, h.mem).mem);
  }

  /** The `k`-th of the branches that match, as it is when all have been tried. */
  ghost predicate BranchChosen(a: Element, cs: seq<Tree>, orig: seq<Element>, h: HeapOutcome, c: seq<Element>, x: Addr, s: Told,
                               k: nat, y: Addr)
    requires AllMatchable(cs) && Within(h.left, orig) && Within(h.left, h.mem) && Within(h.collected, h.mem)
  {
    var x' := HeapAny(cs, h.left, h.collected, h.mem);
    var y', rs := TellAny(a, cs, Deref(orig, h.left), s), RunAny(cs, Deref(orig, h.left));
    && k < |x'.0| && k < |rs|
    && Chosen(a, orig, h, c, x, s, HeapOutcome(true, x'.0[k].left, x'.0[k].collected, x'.1), rs[k], y, Survivor(a, s, y'.0[k], y'.1))
  }

  lemma FirstChosen(a: Element, cs: seq<Tree>, orig: seq<Element>, h: HeapOutcome, c: seq<Element>, x: Addr, s: Told, y: Addr)
    requires AllMatchable(cs) && cs != [] && Standing(orig, h, c)
    requires var l := Deref(orig, h.left);
             var o, r, t := HeapMatch(cs[0], h.left, h.collected, h.mem), RunOf(cs[0], l), Tell(a, cs[0], l, s);
             && r.matched && Chosen(a, orig, h, c, x, s, o, r, y, t)
             && AllTried(a, orig, h.(mem := o.mem), x, Discard(a, s, t), HeapAny(cs[1..], h.left, h.collected, o.mem),
                         RunAny(cs[1..], l), TellAny(a, cs[1..], l, Discard(a, s, t)).1)
    ensures BranchChosen(a, cs, orig, h, c, x, s, 0, y)
  {
    var l := Deref(orig, h.left);
    var o, r, t := HeapMatch(cs[0], h.left, h.collected, h.mem), RunOf(cs[0], l), Tell(a, cs[0], l, s);
    HeapAnyUnfold(cs, h.left, h.collected, h.mem);
    EndTell(a, cs, l, s);
    LaterBranches(a, orig, h, c, x, s, o, r, y, t, HeapAny(cs[1..], h.left, h.collected, o.mem).1,
                  TellAny(a, cs[1..], l, Discard(a, s, t)).1);
  }

  /** The `k`-th branch that matches is the `k'`-th of those after the first. */
  lemma LaterIs(a: Element, cs: seq<Tree>, orig: seq<Element>, h: HeapOutcome, s: Told, k: nat, k': nat)
    requires AllMatchable(cs) && cs != [] && Within(h.left, orig) && Within(h.left, h.mem) && Within(h.collected, h.mem)
    requires var l := Deref(orig, h.left);
             var o, r, t := HeapMatch(cs[0], h.left, h.collected, h.mem), RunOf(cs[0], l), Tell(a, cs[0], l, s);
             && k == (if r.matched then k' + 1 else k') && o.matched == r.matched
             && k' < |RunAny(cs[1..], l)| && k' < |HeapAny(cs[1..], h.left, h.collected, o.mem).0|
    ensures var l := Deref(orig, h.left);
            var o, t := HeapMatch(cs[0], h.left, h.collected, h.mem), Tell(a, cs[0], l, s);
            var x, x' := HeapAny(cs, h.left, h.collected, h.mem), HeapAny(cs[1..], h.left, h.collected, o.mem);
            var y, y' := TellAny(a, cs, l, s), TellAny(a, cs[1..], l, Discard(a, s, t));
            && k < |x.0| && x.0[k] == x'.0[k'] && x.1 == x'.1
            && k < |y.0| && y.0[k] == y'.0[k'] && y.1 == y'.1
            && k < |RunAny(cs, l)| && RunAny(cs, l)[k] == RunAny(cs[1..], l)[k']
  {
    var l := Deref(orig, h.left);
    var o, r, t := HeapMatch(cs[0], h.left, h.collected, h.mem), RunOf(cs[0], l), Tell(a, cs[0], l, s);
    HeapAnyUnfold(cs, h.left, h.collected, h.mem);
    TellAnyUnfold(a, cs, l, s);
    AfterFirst(o.matched, o, HeapAny(cs[1..], h.left, h.collected, o.mem).0, k, k');
    AfterFirst(r.matched, t, TellAny(a, cs[1..], l, Discard(a, s, t)).0, k, k');
    AfterFirst(r.matched, r, RunAny(cs[1..], l), k, k');
  }

  lemma TellAnyUnfold(a: Element, cs: seq<Tree>, l: seq<Element>, s: Told)
    requires AllMatchable(cs) && cs != []
    ensures var t := Tell(a, cs[0], l, s);
            var rest := TellAny(a, cs[1..], l, Discard(a, s, t));
            TellAny(a, cs, l, s) == ((if RunOf(cs[0], l).matched then [t] else []) + rest.0, rest.1)
    ensures RunAny(cs, l) == (if RunOf(cs[0], l).matched then [RunOf(cs[0], l)] else []) + RunAny(cs[1..], l)
  {
    RunAnyUnfold(cs, l);
  }

  lemma LaterChosen(a: Element, cs: seq<Tree>, orig: seq<Element>, h: HeapOutcome, c: seq<Element>, x: Addr, s: Told,
                    k: nat, k': nat, y: Addr)
    requires AllMatchable(cs) && cs != [] && Standing(orig, h, c)
    requires var l := Deref(orig, h.left);
             var o, r, t := HeapMatch(cs[0], h.left, h.collected, h.mem), RunOf(cs[0], l), Tell(a, cs[0], l, s);
             && k == (if r.matched then k' + 1 else k') && o.matched == r.matched
             && KeepsSkeletons(h.mem, o.mem) && Untouched(h.left, h.collected, h.mem, o.mem)
             && Within(h.left, o.mem) && Within(h.collected, o.mem)
             && BranchChosen(a, cs[1..], orig, h.(mem := o.mem), c, x, Discard(a, s, t), k', y)
    ensures BranchChosen(a, cs, orig, h, c, x, s, k, y)
  {
    var l := Deref(orig, h.left);
    var o, t := HeapMatch(cs[0], h.left, h.collected, h.mem), Tell(a, cs[0], l, s);
    LaterIs(a, cs, orig, h, s, k, k');
    var (os, mem) := HeapAny(cs[1..], h.left, h.collected, o.mem);
    var (ts, end) := TellAny(a, cs[1..], l, Discard(a, s, t));
    ChosenEarlier(a, orig, h, c, x, s, t, o.mem, HeapOutcome(true, os[k'].left, os[k'].collected, mem),
                  RunAny(cs[1..], l)[k'], y, Survivor(a, Discard(a, s, t), ts[k'], end));
  }
}
