/** Options that count: what their reports forget (docopt.py:125-126).

An option matches as the argv element itself.  When nothing is collected under its name yet,
line 126 sets that element back to one, whatever was counted in it before, in a branch that
lost or in one that will win.  `Tape` lists all matches of an option in the order they are
tried; the count reported is the number of those since the last such beginning.
 */
module Counting {
  import opened Basics
  import opened Elements
  import opened Patterns
  import opened Matcher
  import opened Language
  import opened Repeats
  import opened Capture
  import opened HeapMatcher
  import opened Telling
  import opened Straying

  predicate CountsOption(a: Element) {
    a.Opt? && a.value.Count?
  }

  /** A match of the option: whether it begins a count anew, nothing being collected, and
      whether it is kept. */
  datatype Mark = Mark(anew: bool, kept: bool)

  function Dropped(ms: seq<Mark>): (r: seq<Mark>)
    ensures |r| == |ms| && forall i :: 0 <= i < |ms| ==> r[i] == ms[i].(kept := false)
  {
    seq(|ms|, i requires 0 <= i < |ms| => ms[i].(kept := false))
  }

  /** All matches of `a` when `p` is tried on `l`, those that are discarded included. */
  function Tape(a: Element, p: Tree, l: seq<Element>, has: bool): seq<Mark>
    requires Matchable(p)
    decreases p, 0
  {
    match p
    case Leaf(self) => if SingleMatch(self, l) < |l| && Name(self) == Name(a) then [Mark(!has, true)] else []
    case Required(cs) => if RunAll(cs, l).matched then TapeAll(a, cs, l, has) else Dropped(TapeAll(a, cs, l, has))
    case Optional(cs) => TapeEach(a, cs, l, has)
    case OptionsShortcut(cs) => TapeEach(a, cs, l, has)
    case OneOrMore(cs) => TapeLoop(a, cs[0], l, true, has)
    case Either(cs) =>
      var rs := RunAny(cs, l);
      if rs == [] then TapeAny(a, cs, l, has) else TapeBut(a, cs, l, has, Shortest(RunLefts(rs)))
  }

  function TapeAll(a: Element, cs: seq<Tree>, l: seq<Element>, has: bool): seq<Mark>
    requires AllMatchable(cs)
    decreases cs, 0
  {
    if cs == [] then [] else
      var r, ms := RunOf(cs[0], l), Tape(a, cs[0], l, has);
      if r.matched then ms + TapeAll(a, cs[1..], r.left, has || Used(a, r.events) > 0) else ms
  }

  function TapeEach(a: Element, cs: seq<Tree>, l: seq<Element>, has: bool): seq<Mark>
    requires AllMatchable(cs)
    decreases cs, 0
  {
    if cs == [] then [] else
      var r := RunOf(cs[0], l);
      Tape(a, cs[0], l, has) + TapeEach(a, cs[1..], r.left, has || Used(a, r.events) > 0)
  }

  function TapeLoop(a: Element, p: Tree, l: seq<Element>, first: bool, has: bool): seq<Mark>
    requires Matchable(p)
    decreases p, 1, if first then 1 else 0, |l|
  {
    var r, ms := RunOf(p, l), Tape(a, p, l, has);
    if !r.matched || (!first && r.left == l) then ms
    else ms + TapeLoop(a, p, r.left, false, has || Used(a, r.events) > 0)
  }

  /** All branches of an Either, discarded. */
  function TapeAny(a: Element, cs: seq<Tree>, l: seq<Element>, has: bool): seq<Mark>
    requires AllMatchable(cs)
    decreases cs, 0
  {
    if cs == [] then [] else Dropped(Tape(a, cs[0], l, has)) + TapeAny(a, cs[1..], l, has)
  }

  /** All branches, the `k`-th that matches being kept. */
  function TapeBut(a: Element, cs: seq<Tree>, l: seq<Element>, has: bool, k: nat): seq<Mark>
    requires AllMatchable(cs)
    decreases cs, 0
  {
    if cs == [] then [] else
      var r, ms := RunOf(cs[0], l), Tape(a, cs[0], l, has);
      if r.matched && k == 0 then ms + TapeAny(a, cs[1..], l, has)
      else Dropped(ms) + TapeBut(a, cs[1..], l, has, if r.matched then k - 1 else k)
  }

  // ---------- numbers of matches ----------

  function KeptIn(ms: seq<Mark>): nat {
    if ms == [] then 0 else KeptIn(ms[..|ms| - 1]) + One(ms[|ms| - 1].kept)
  }

  /** The matches since the last beginning, that one included. */
  function Since(ms: seq<Mark>): (n: nat)
    ensures n <= |ms|
  {
    if ms == [] then 0 else if ms[|ms| - 1].anew then 1 else 1 + Since(ms[..|ms| - 1])
  }

  /** The matches before the last beginning. */
  function Forgotten(ms: seq<Mark>): nat {
    |ms| - Since(ms)
  }

  /** What the object of the option holds after these matches. */
  function Tally(v: Value, ms: seq<Mark>): Value {
    if ms == [] then v
    else if ms[|ms| - 1].anew then Count(1)
    else Plus(Tally(v, ms[..|ms| - 1]), Count(1))
  }

  lemma {:induction false} KeptConcat(ms: seq<Mark>, ns: seq<Mark>)
    ensures KeptIn(ms + ns) == KeptIn(ms) + KeptIn(ns)
  {
    if ns == [] {
      assert ms + ns == ms;
    } else {
      var last := |ns| - 1;
      assert (ms + ns)[..|ms + ns| - 1] == ms + ns[..last];
      KeptConcat(ms, ns[..last]);
    }
  }

  lemma {:induction false} KeptDropped(ms: seq<Mark>)
    ensures KeptIn(Dropped(ms)) == 0
  {
    if ms != [] {
      assert Dropped(ms)[..|ms| - 1] == Dropped(ms[..|ms| - 1]);
      KeptDropped(ms[..|ms| - 1]);
    }
  }

  lemma {:induction false} TallyConcat(v: Value, ms: seq<Mark>, ns: seq<Mark>)
    ensures Tally(v, ms + ns) == Tally(Tally(v, ms), ns)
  {
    if ns == [] {
      assert ms + ns == ms;
    } else {
      var last := |ns| - 1;
      assert (ms + ns)[..|ms + ns| - 1] == ms + ns[..last];
      TallyConcat(v, ms, ns[..last]);
    }
  }

  lemma {:induction false} TallyDropped(v: Value, ms: seq<Mark>)
    ensures Tally(v, Dropped(ms)) == Tally(v, ms)
  {
    if ms != [] {
      assert Dropped(ms)[..|ms| - 1] == Dropped(ms[..|ms| - 1]);
      TallyDropped(v, ms[..|ms| - 1]);
    }
  }

  /** A count that begins anew does not depend on what was there. */
  lemma {:induction false} TallyAnew(v: Value, w: Value, ms: seq<Mark>)
    requires ms != [] && ms[0].anew
    ensures Tally(v, ms) == Tally(w, ms)
  {
    if |ms| > 1 {
      TallyAnew(v, w, ms[..|ms| - 1]);
    }
  }

  lemma {:induction false} TallyIsSince(v: Value, ms: seq<Mark>)
    requires ms != [] && ms[0].anew
    ensures Tally(v, ms) == Count(Since(ms))
  {
    if |ms| > 1 && !ms[|ms| - 1].anew {
      TallyIsSince(v, ms[..|ms| - 1]);
    }
  }

  /** With something collected no match begins anew; with nothing collected the first does. */
  ghost predicate WellBegun(ms: seq<Mark>, has: bool) {
    && (has ==> forall i :: 0 <= i < |ms| ==> !ms[i].anew)
    && (!has && ms != [] ==> ms[0].anew)
  }

  /** The tape of an outcome with events `es` and `strays`. */
  ghost predicate Records(a: Element, ms: seq<Mark>, es: seq<Event>, strays: nat, has: bool) {
    KeptIn(ms) == Used(a, es) && |ms| == Used(a, es) + strays && WellBegun(ms, has)
  }

  lemma RecordsOn(a: Element, ms: seq<Mark>, es: seq<Event>, m: nat, ns: seq<Mark>, fs: seq<Event>, n: nat, has: bool)
    requires Records(a, ms, es, m, has) && Records(a, ns, fs, n, has || Used(a, es) > 0)
    ensures Records(a, ms + ns, es + fs, m + n, has)
  {
    KeptConcat(ms, ns);
    OnlyConcat(es, fs, Name(a));
    if !has && Used(a, es) > 0 {
      assert ms != [];
    }
  }

  /** A discarded outcome: all its matches stay. */
  lemma RecordsDropped(a: Element, ms: seq<Mark>, es: seq<Event>, m: nat, has: bool)
    requires CountsOption(a) && Records(a, ms, es, m, has)
    ensures Records(a, Dropped(ms), [], Spent(a, has, Used(a, es), m), has)
  {
    KeptDropped(ms);
  }

  lemma {:induction false} TapeCounts(a: Element, p: Tree, l: seq<Element>, has: bool)
    requires Matchable(p) && CountsOption(a)
    ensures Records(a, Tape(a, p, l, has), RunOf(p, l).events, Strays(a, p, l, has), has)
    decreases p, 0
  {
    match p
    case Leaf(self) => LeafCounts(a, self, l, has);
    case Required(cs) =>
      TapeAllCounts(a, cs, l, has);
      BracketCounts(a, cs, l, has);
    case Optional(cs) => TapeEachCounts(a, cs, l, has);
    case OptionsShortcut(cs) => TapeEachCounts(a, cs, l, has);
    case OneOrMore(cs) =>
      TapeLoopCounts(a, cs[0], l, true, has);
      NoRounds(cs, l);
    case Either(cs) =>
      if RunAny(cs, l) == [] {
        TapeAnyCounts(a, cs, l, has);
      } else {
        TapeButCounts(a, cs, l, has, Shortest(RunLefts(RunAny(cs, l))));
      }
  }

  lemma BracketCounts(a: Element, cs: seq<Tree>, l: seq<Element>, has: bool)
    requires AllMatchable(cs) && CountsOption(a)
    requires Records(a, TapeAll(a, cs, l, has), RunAll(cs, l).events, StraysAll(a, cs, l, has), has)
    ensures Records(a, Tape(a, Required(cs), l, has), RunOf(Required(cs), l).events, Strays(a, Required(cs), l, has), has)
  {
    if !RunAll(cs, l).matched {
      RecordsDropped(a, TapeAll(a, cs, l, has), RunAll(cs, l).events, StraysAll(a, cs, l, has), has);
    }
  }

  lemma NoRounds(cs: seq<Tree>, l: seq<Element>)
    requires |cs| == 1 && Matchable(cs[0])
    ensures RunOf(OneOrMore(cs), l).events == RunLoop(cs[0], l, true).1.events
  {
  }

  lemma OneUsed(a: Element, e: Event)
    ensures Used(a, [e]) == One(Name(e.leaf) == Name(a))
  {
    assert [e][..0] == [];
    assert Only([e], Name(a)) == Only([], Name(a)) + if Name(e.leaf) == Name(a) then [e] else [];
  }

  lemma LeafCounts(a: Element, self: Element, l: seq<Element>, has: bool)
    ensures Records(a, Tape(a, Leaf(self), l, has), RunOf(Leaf(self), l).events, 0, has)
  {
    var pos := SingleMatch(self, l);
    if pos < |l| {
      OneUsed(a, Event(self, l[pos]));
      assert [Mark(!has, true)][..0] == [];
    }
  }

  lemma {:induction false} TapeAllCounts(a: Element, cs: seq<Tree>, l: seq<Element>, has: bool)
    requires AllMatchable(cs) && CountsOption(a)
    ensures Records(a, TapeAll(a, cs, l, has), RunAll(cs, l).events, StraysAll(a, cs, l, has), has)
    decreases cs, 0
  {
    if cs != [] {
      var r := RunOf(cs[0], l);
      TapeCounts(a, cs[0], l, has);
      if r.matched {
        var has' := has || Used(a, r.events) > 0;
        TapeAllCounts(a, cs[1..], r.left, has');
        RecordsOn(a, Tape(a, cs[0], l, has), r.events, Strays(a, cs[0], l, has), TapeAll(a, cs[1..], r.left, has'),
                  RunAll(cs[1..], r.left).events, StraysAll(a, cs[1..], r.left, has'), has);
      }
    }
  }

  lemma {:induction false} TapeEachCounts(a: Element, cs: seq<Tree>, l: seq<Element>, has: bool)
    requires AllMatchable(cs) && CountsOption(a)
    ensures Records(a, TapeEach(a, cs, l, has), RunEach(cs, l).events, StraysEach(a, cs, l, has), has)
    decreases cs, 0
  {
    if cs != [] {
      var r := RunOf(cs[0], l);
      TapeCounts(a, cs[0], l, has);
      var has' := has || Used(a, r.events) > 0;
      TapeEachCounts(a, cs[1..], r.left, has');
      RecordsOn(a, Tape(a, cs[0], l, has), r.events, Strays(a, cs[0], l, has), TapeEach(a, cs[1..], r.left, has'),
                RunEach(cs[1..], r.left).events, StraysEach(a, cs[1..], r.left, has'), has);
    }
  }

  lemma {:induction false} TapeLoopCounts(a: Element, p: Tree, l: seq<Element>, first: bool, has: bool)
    requires Matchable(p) && CountsOption(a)
    ensures Records(a, TapeLoop(a, p, l, first, has), RunLoop(p, l, first).1.events, StraysLoop(a, p, l, first, has), has)
    decreases p, 1, if first then 1 else 0, |l|
  {
    var r := RunOf(p, l);
    TapeCounts(a, p, l, has);
    if r.matched && (first || r.left != l) {
      var has' := has || Used(a, r.events) > 0;
      RunGoesOn(p, l, first);
      TapeGoesOn(a, p, l, first, has);
      TapeLoopCounts(a, p, r.left, false, has');
      RecordsOn(a, Tape(a, p, l, has), r.events, Strays(a, p, l, has), TapeLoop(a, p, r.left, false, has'),
                RunLoop(p, r.left, false).1.events, StraysLoop(a, p, r.left, false, has'), has);
    }
  }

  /** One more round. */
  lemma TapeGoesOn(a: Element, p: Tree, l: seq<Element>, first: bool, has: bool)
    requires Matchable(p) && RunOf(p, l).matched && (first || RunOf(p, l).left != l)
    ensures var r := RunOf(p, l);
            var has' := has || Used(a, r.events) > 0;
            && TapeLoop(a, p, l, first, has) == Tape(a, p, l, has) + TapeLoop(a, p, r.left, false, has')
            && StraysLoop(a, p, l, first, has) == Strays(a, p, l, has) + StraysLoop(a, p, r.left, false, has')
  {
  }

  lemma {:induction false} TapeAnyCounts(a: Element, cs: seq<Tree>, l: seq<Element>, has: bool)
    requires AllMatchable(cs) && CountsOption(a)
    ensures Records(a, TapeAny(a, cs, l, has), [], StraysAny(a, cs, l, has), has)
    decreases cs, 0
  {
    if cs != [] {
      var r := RunOf(cs[0], l);
      var ms, m := Tape(a, cs[0], l, has), Strays(a, cs[0], l, has);
      TapeCounts(a, cs[0], l, has);
      RecordsDropped(a, ms, r.events, m, has);
      TapeAnyCounts(a, cs[1..], l, has);
      RecordsOn(a, Dropped(ms), [], Spent(a, has, Used(a, r.events), m), TapeAny(a, cs[1..], l, has), [],
                StraysAny(a, cs[1..], l, has), has);
    }
  }

  /** More discarded branches after a kept one. */
  lemma RecordsThenDropped(a: Element, ms: seq<Mark>, es: seq<Event>, m: nat, ns: seq<Mark>, n: nat, has: bool)
    requires Records(a, ms, es, m, has) && Records(a, ns, [], n, has)
    ensures KeptIn(ms + ns) == Used(a, es) && |ms + ns| == Used(a, es) + m + n && WellBegun(ms + ns, has)
  {
    KeptConcat(ms, ns);
  }

  /** Discarded matches in front. */
  lemma RecordsAfter(a: Element, ms: seq<Mark>, m: nat, ns: seq<Mark>, es: seq<Event>, n: nat, has: bool)
    requires Records(a, ms, [], m, has) && Records(a, ns, es, n, has)
    ensures Records(a, ms + ns, es, m + n, has)
  {
    RecordsOn(a, ms, [], m, ns, es, n, has);
    assert [] + es == es;
  }

  lemma {:induction false} TapeButCounts(a: Element, cs: seq<Tree>, l: seq<Element>, has: bool, k: nat)
    requires AllMatchable(cs) && CountsOption(a) && k < |RunAny(cs, l)|
    ensures Records(a, TapeBut(a, cs, l, has, k), RunAny(cs, l)[k].events, StraysBut(a, cs, l, has, k), has)
    decreases cs, 0
  {
    var r := RunOf(cs[0], l);
    var ms, m := Tape(a, cs[0], l, has), Strays(a, cs[0], l, has);
    TapeCounts(a, cs[0], l, has);
    if r.matched && k == 0 {
      TapeAnyCounts(a, cs[1..], l, has);
      RecordsThenDropped(a, ms, r.events, m, TapeAny(a, cs[1..], l, has), StraysAny(a, cs[1..], l, has), has);
    } else {
      var j := if r.matched then k - 1 else k;
      RunAnySkip(cs, l, k, j);
      TapeLater(a, cs, l, has, k, j);
      StraysLater(a, cs, l, has, k, j);
      RecordsDropped(a, ms, r.events, m, has);
      TapeButCounts(a, cs[1..], l, has, j);
      RecordsAfter(a, Dropped(ms), Spent(a, has, Used(a, r.events), m), TapeBut(a, cs[1..], l, has, j),
                   RunAny(cs, l)[k].events, StraysBut(a, cs[1..], l, has, j), has);
    }
  }

  // ---------- the tape tells the value ----------

  /** `t` is what the tape `ms` makes of `s`. */
  ghost predicate Makes(a: Element, s: Told, ms: seq<Mark>, t: Told, es: seq<Event>) {
    && t.value == Tally(s.value, ms)
    && (t.has <==> s.has || Used(a, es) > 0)
    && (t.has ==> t.value.Count?)
  }

  lemma MakesOn(a: Element, s: Told, ms: seq<Mark>, t: Told, es: seq<Event>, ns: seq<Mark>, u: Told, fs: seq<Event>)
    requires Makes(a, s, ms, t, es) && Makes(a, t, ns, u, fs)
    ensures Makes(a, s, ms + ns, u, es + fs)
  {
    TallyConcat(s.value, ms, ns);
    OnlyConcat(es, fs, Name(a));
  }

  lemma {:induction false} TallyStaysCount(v: Value, ms: seq<Mark>)
    requires v.Count?
    ensures Tally(v, ms).Count?
  {
    if ms != [] {
      TallyStaysCount(v, ms[..|ms| - 1]);
    }
  }

  lemma MakesDropped(a: Element, s: Told, ms: seq<Mark>, t: Told, es: seq<Event>)
    requires CountsOption(a) && Makes(a, s, ms, t, es) && (s.has ==> s.value.Count?)
    ensures Makes(a, s, Dropped(ms), Discard(a, s, t), [])
  {
    TallyDropped(s.value, ms);
    if s.has {
      TallyStaysCount(s.value, ms);
    }
  }

  lemma {:induction false} TapeTells(a: Element, p: Tree, l: seq<Element>, s: Told)
    requires Matchable(p) && CountsOption(a) && Sole(p, a) && (s.has ==> s.value.Count?)
    ensures Makes(a, s, Tape(a, p, l, s.has), Tell(a, p, l, s), RunOf(p, l).events)
    decreases p, 0
  {
    match p
    case Leaf(self) => LeafMakes(a, self, l, s);
    case Required(cs) =>
      TapeAllTells(a, cs, l, s);
      if !RunAll(cs, l).matched {
        MakesDropped(a, s, TapeAll(a, cs, l, s.has), TellAll(a, cs, l, s), RunAll(cs, l).events);
      }
    case Optional(cs) => TapeEachTells(a, cs, l, s);
    case OptionsShortcut(cs) => TapeEachTells(a, cs, l, s);
    case OneOrMore(cs) =>
      TapeLoopTells(a, cs[0], l, true, s);
      assert RunLoop(cs[0], l, true).0 == 0 ==> RunLoop(cs[0], l, true).1.events == [];
    case Either(cs) =>
      if RunAny(cs, l) == [] {
        TapeAnyTells(a, cs, l, s);
      } else {
        TapeButTells(a, cs, l, s, Shortest(RunLefts(RunAny(cs, l))));
      }
  }

  lemma LeafMakes(a: Element, self: Element, l: seq<Element>, s: Told)
    requires CountsOption(a) && (Name(self) == Name(a) ==> self == a) && (s.has ==> s.value.Count?)
    ensures Makes(a, s, Tape(a, Leaf(self), l, s.has), TellLeaf(a, self, l, s), RunOf(Leaf(self), l).events)
  {
    var pos := SingleMatch(self, l);
    if pos < |l| {
      OneUsed(a, Event(self, l[pos]));
      assert [Mark(!s.has, true)][..0] == [];
    }
  }

  lemma {:induction false} TapeAllTells(a: Element, cs: seq<Tree>, l: seq<Element>, s: Told)
    requires AllMatchable(cs) && CountsOption(a) && AllSole(cs, a) && (s.has ==> s.value.Count?)
    ensures Makes(a, s, TapeAll(a, cs, l, s.has), TellAll(a, cs, l, s), RunAll(cs, l).events)
    decreases cs, 0
  {
    if cs != [] {
      var r, t := RunOf(cs[0], l), Tell(a, cs[0], l, s);
      TapeTells(a, cs[0], l, s);
      if r.matched {
        TapeAllTells(a, cs[1..], r.left, t);
        MakesOn(a, s, Tape(a, cs[0], l, s.has), t, r.events, TapeAll(a, cs[1..], r.left, t.has),
                TellAll(a, cs[1..], r.left, t), RunAll(cs[1..], r.left).events);
      }
    }
  }

  lemma {:induction false} TapeEachTells(a: Element, cs: seq<Tree>, l: seq<Element>, s: Told)
    requires AllMatchable(cs) && CountsOption(a) && AllSole(cs, a) && (s.has ==> s.value.Count?)
    ensures Makes(a, s, TapeEach(a, cs, l, s.has), TellEach(a, cs, l, s), RunEach(cs, l).events)
    decreases cs, 0
  {
    if cs != [] {
      var r, t := RunOf(cs[0], l), Tell(a, cs[0], l, s);
      TapeTells(a, cs[0], l, s);
      TapeEachTells(a, cs[1..], r.left, t);
      MakesOn(a, s, Tape(a, cs[0], l, s.has), t, r.events, TapeEach(a, cs[1..], r.left, t.has),
              TellEach(a, cs[1..], r.left, t), RunEach(cs[1..], r.left).events);
    }
  }

  lemma {:induction false} TapeLoopTells(a: Element, p: Tree, l: seq<Element>, first: bool, s: Told)
    requires Matchable(p) && CountsOption(a) && Sole(p, a) && (s.has ==> s.value.Count?)
    ensures Makes(a, s, TapeLoop(a, p, l, first, s.has), TellLoop(a, p, l, first, s), RunLoop(p, l, first).1.events)
    decreases p, 1, if first then 1 else 0, |l|
  {
    var r, t := RunOf(p, l), Tell(a, p, l, s);
    TapeTells(a, p, l, s);
    if r.matched && (first || r.left != l) {
      RunGoesOn(p, l, first);
      TapeGoesOn(a, p, l, first, s.has);
      TellGoesOn(a, p, l, first, s);
      TapeLoopTells(a, p, r.left, false, t);
      MakesOn(a, s, Tape(a, p, l, s.has), t, r.events, TapeLoop(a, p, r.left, false, t.has),
              TellLoop(a, p, r.left, false, t), RunLoop(p, r.left, false).1.events);
    }
  }

  lemma {:induction false} TapeAnyTells(a: Element, cs: seq<Tree>, l: seq<Element>, s: Told)
    requires AllMatchable(cs) && CountsOption(a) && AllSole(cs, a) && (s.has ==> s.value.Count?)
    ensures Makes(a, s, TapeAny(a, cs, l, s.has), TellAny(a, cs, l, s).1, [])
    decreases cs, 0
  {
    if cs != [] {
      var r, t := RunOf(cs[0], l), Tell(a, cs[0], l, s);
      TapeTells(a, cs[0], l, s);
      MakesDropped(a, s, Tape(a, cs[0], l, s.has), t, r.events);
      var d := Discard(a, s, t);
      TapeAnyTells(a, cs[1..], l, d);
      MakesOn(a, s, Dropped(Tape(a, cs[0], l, s.has)), d, [], TapeAny(a, cs[1..], l, s.has),
              TellAny(a, cs[1..], l, d).1, []);
    }
  }

  /** The kept branch, when the later ones have been tried. */
  lemma MakesSurvivor(a: Element, s: Told, ms: seq<Mark>, t: Told, es: seq<Event>, ns: seq<Mark>, end: Told)
    requires CountsOption(a) && (s.has ==> s.value.Count?) && (t.has && ns != [] && !s.has ==> ns[0].anew)
    requires Makes(a, s, ms, t, es) && Makes(a, Discard(a, s, t), ns, end, [])
    ensures Makes(a, s, ms + ns, Survivor(a, s, t, end), es)
  {
    TallyConcat(s.value, ms, ns);
    if t.has {
      TallyStaysCount(t.value, ns);
    }
  }

  lemma FirstMakes(a: Element, cs: seq<Tree>, l: seq<Element>, s: Told)
    requires AllMatchable(cs) && CountsOption(a) && (s.has ==> s.value.Count?) && cs != [] && RunOf(cs[0], l).matched
    requires var t := Tell(a, cs[0], l, s);
             && Makes(a, s, Tape(a, cs[0], l, s.has), t, RunOf(cs[0], l).events)
             && Makes(a, Discard(a, s, t), TapeAny(a, cs[1..], l, s.has), TellAny(a, cs[1..], l, Discard(a, s, t)).1, [])
    ensures Makes(a, s, TapeBut(a, cs, l, s.has, 0), Picked(a, cs, l, s, 0), RunAny(cs, l)[0].events)
  {
    var t := Tell(a, cs[0], l, s);
    TapeAnyCounts(a, cs[1..], l, s.has);
    PickedFirst(a, cs, l, s);
    MakesSurvivor(a, s, Tape(a, cs[0], l, s.has), t, RunOf(cs[0], l).events, TapeAny(a, cs[1..], l, s.has),
                  TellAny(a, cs[1..], l, Discard(a, s, t)).1);
  }

  lemma TapeLater(a: Element, cs: seq<Tree>, l: seq<Element>, has: bool, k: nat, j: nat)
    requires AllMatchable(cs) && cs != [] && k == if RunOf(cs[0], l).matched then j + 1 else j
    ensures TapeBut(a, cs, l, has, k) == Dropped(Tape(a, cs[0], l, has)) + TapeBut(a, cs[1..], l, has, j)
  {
  }

  lemma StraysLater(a: Element, cs: seq<Tree>, l: seq<Element>, has: bool, k: nat, j: nat)
    requires AllMatchable(cs) && cs != [] && k == if RunOf(cs[0], l).matched then j + 1 else j
    ensures StraysBut(a, cs, l, has, k)
         == Spent(a, has, Used(a, RunOf(cs[0], l).events), Strays(a, cs[0], l, has)) + StraysBut(a, cs[1..], l, has, j)
  {
  }

  /** Discarded matches in front. */
  lemma MakesAfter(a: Element, s: Told, ms: seq<Mark>, d: Told, ns: seq<Mark>, u: Told, es: seq<Event>)
    requires Makes(a, s, ms, d, []) && Makes(a, d, ns, u, es)
    ensures Makes(a, s, ms + ns, u, es)
  {
    MakesOn(a, s, ms, d, [], ns, u, es);
    assert [] + es == es;
  }

  lemma {:induction false} TapeButTells(a: Element, cs: seq<Tree>, l: seq<Element>, s: Told, k: nat)
    requires AllMatchable(cs) && CountsOption(a) && AllSole(cs, a) && (s.has ==> s.value.Count?) && k < |RunAny(cs, l)|
    ensures Makes(a, s, TapeBut(a, cs, l, s.has, k), Picked(a, cs, l, s, k), RunAny(cs, l)[k].events)
    decreases cs, 0
  {
    var r, t := RunOf(cs[0], l), Tell(a, cs[0], l, s);
    var d := Discard(a, s, t);
    TapeTells(a, cs[0], l, s);
    MakesDropped(a, s, Tape(a, cs[0], l, s.has), t, r.events);
    if r.matched && k == 0 {
      TapeAnyTells(a, cs[1..], l, d);
      FirstMakes(a, cs, l, s);
    } else {
      var j := if r.matched then k - 1 else k;
      TapeButTells(a, cs[1..], l, d, j);
      PickedLater(a, cs, l, s, k, j);
      TapeLater(a, cs, l, s.has, k, j);
      MakesAfter(a, s, Dropped(Tape(a, cs[0], l, s.has)), d, TapeBut(a, cs[1..], l, s.has, j), Picked(a, cs[1..], l, d, j),
                 RunAny(cs, l)[k].events);
    }
  }

  // ---------- what is reported ----------

  /** The count of an option that was kept: what was taken and what strayed, less what a later
      beginning made it forget. */
  lemma CountIs(a: Element, p: Tree, l: seq<Element>, v: Value)
    requires Matchable(p) && CountsOption(a) && Sole(p, a) && Used(a, RunOf(p, l).events) > 0
    ensures Tell(a, p, l, Told(false, v)).value
         == Count(Used(a, RunOf(p, l).events) + Strays(a, p, l, false) - Forgotten(Tape(a, p, l, false)))
  {
    var ms := Tape(a, p, l, false);
    TapeCounts(a, p, l, false);
    TapeTells(a, p, l, Told(false, v));
    assert ms != [];
    TallyIsSince(v, ms);
  }

  // ---------- an Either reached with nothing collected ----------

  /** How often `p` took the option, until it matched or failed. */
  function Took(a: Element, p: Tree, l: seq<Element>): nat
    requires Matchable(p)
  {
    Used(a, if p.Required? then RunAll(p.children, l).events else RunOf(p, l).events)
  }

  /** Within `p` itself nothing strays, whether it matches in the end or fails. */
  predicate Neat(a: Element, p: Tree, l: seq<Element>)
    requires Matchable(p)
  {
    if p.Required? then StraysAll(a, p.children, l, false) == 0 else Strays(a, p, l, false) == 0
  }

  lemma {:induction false} KeepCounts(a: Element, s: Told, es: seq<Event>)
    requires CountsOption(a) && !s.has
    ensures Used(a, es) > 0 ==> Keep(a, s, es).value == Count(Used(a, es))
  {
    if es != [] {
      var last := |es| - 1;
      KeepCounts(a, s, es[..last]);
      KeepHas(a, s, es[..last]);
    }
  }

  lemma NeatTape(a: Element, p: Tree, l: seq<Element>)
    requires Matchable(p) && CountsOption(a) && Sole(p, a) && Neat(a, p, l)
    ensures |Tape(a, p, l, false)| == Took(a, p, l)
    ensures Took(a, p, l) > 0 ==> Since(Tape(a, p, l, false)) == Took(a, p, l)
  {
    var s := Told(false, Null);
    var ms := Tape(a, p, l, false);
    if p.Required? {
      var cs := p.children;
      TapeAllCounts(a, cs, l, false);
      TapeAllTells(a, cs, l, s);
      NoStraysAll(a, cs, l, s, s);
      KeepCounts(a, s, RunAll(cs, l).events);
      KeepHas(a, s, RunAll(cs, l).events);
      TallyDropped(Null, TapeAll(a, cs, l, false));
    } else {
      TapeCounts(a, p, l, false);
      TapeTells(a, p, l, s);
      NoStrays(a, p, l, s, s);
      KeepCounts(a, s, RunOf(p, l).events);
      KeepHas(a, s, RunOf(p, l).events);
    }
    TapeCounts(a, p, l, false);
    if ms != [] {
      TallyIsSince(Null, ms);
    }
  }

  lemma {:induction false} EmptyTapes(a: Element, cs: seq<Tree>, l: seq<Element>)
    requires AllMatchable(cs) && forall j :: 0 <= j < |cs| ==> Tape(a, cs[j], l, false) == []
    ensures TapeAny(a, cs, l, false) == []
  {
    if cs != [] {
      EmptyTapes(a, cs[1..], l);
    }
  }

  /** Branch `i` is the last one that takes the option, failing ones included. */
  ghost predicate LastTaker(a: Element, cs: seq<Tree>, l: seq<Element>, i: nat)
    requires AllMatchable(cs)
  {
    i < |cs| && Tape(a, cs[i], l, false) != [] && forall j :: i < j < |cs| ==> Tape(a, cs[j], l, false) == []
  }

  lemma {:induction false} LastTally(a: Element, cs: seq<Tree>, l: seq<Element>, v: Value, i: nat)
    requires AllMatchable(cs) && CountsOption(a) && LastTaker(a, cs, l, i)
    ensures Tally(v, TapeAny(a, cs, l, false)) == Count(Since(Tape(a, cs[i], l, false)))
  {
    var ms := Tape(a, cs[0], l, false);
    TallyConcat(v, Dropped(ms), TapeAny(a, cs[1..], l, false));
    TallyDropped(v, ms);
    TapeCounts(a, cs[0], l, false);
    if i == 0 {
      EmptyTapes(a, cs[1..], l);
      TallyIsSince(v, ms);
    } else {
      assert cs[1..][i - 1] == cs[i];
      LastTally(a, cs[1..], l, Tally(v, ms), i - 1);
    }
  }

  /** Which branch is kept does not matter to the value. */
  lemma {:induction false} KeptTally(a: Element, cs: seq<Tree>, l: seq<Element>, v: Value, k: nat)
    requires AllMatchable(cs)
    ensures Tally(v, TapeBut(a, cs, l, false, k)) == Tally(v, TapeAny(a, cs, l, false))
  {
    if cs != [] {
      var r, ms := RunOf(cs[0], l), Tape(a, cs[0], l, false);
      TallyDropped(v, ms);
      TallyConcat(v, Dropped(ms), TapeAny(a, cs[1..], l, false));
      if r.matched && k == 0 {
        TallyConcat(v, ms, TapeAny(a, cs[1..], l, false));
      } else {
        var j := if r.matched then k - 1 else k;
        TallyConcat(v, Dropped(ms), TapeBut(a, cs[1..], l, false, j));
        KeptTally(a, cs[1..], l, Tally(v, ms), j);
      }
    }
  }

  /** Where an Either is reached with nothing collected, the count is the one made in the last
      branch that took the option, whether that branch is kept, loses or fails. */
  lemma LastBranchCounts(a: Element, cs: seq<Tree>, l: seq<Element>, v: Value, i: nat)
    requires Matchable(Either(cs)) && AllMatchable(cs) && CountsOption(a) && Sole(Either(cs), a) && LastTaker(a, cs, l, i)
    ensures Tell(a, Either(cs), l, Told(false, v)).value == Count(Since(Tape(a, cs[i], l, false)))
  {
    var p: Tree := Either(cs);
    TapeTells(a, p, l, Told(false, v));
    LastTally(a, cs, l, v, i);
    if RunAny(cs, l) != [] {
      KeptTally(a, cs, l, v, Shortest(RunLefts(RunAny(cs, l))));
    }
  }

  lemma LastOfNeat(a: Element, cs: seq<Tree>, l: seq<Element>, i: nat)
    requires AllMatchable(cs) && CountsOption(a) && AllSole(cs, a)
    requires forall j :: 0 <= j < |cs| ==> Neat(a, cs[j], l)
    requires i < |cs| && Took(a, cs[i], l) > 0 && forall j :: i < j < |cs| ==> Took(a, cs[j], l) == 0
    ensures LastTaker(a, cs, l, i) && Since(Tape(a, cs[i], l, false)) == Took(a, cs[i], l)
  {
    NeatTape(a, cs[i], l);
    forall j | i < j < |cs|
      ensures Tape(a, cs[j], l, false) == []
    {
      NeatTape(a, cs[j], l);
    }
  }

  /** Branches that are neat: the count is how often the last branch that took the option took
      it, so it is right if and only if the branch that is kept took it as often. */
  lemma NeatBranchesCount(a: Element, cs: seq<Tree>, l: seq<Element>, v: Value, i: nat) returns (kept: nat)
    requires Matchable(Either(cs)) && AllMatchable(cs) && CountsOption(a) && Sole(Either(cs), a)
    requires RunOf(Either(cs), l).matched && forall j :: 0 <= j < |cs| ==> Neat(a, cs[j], l)
    requires i < |cs| && Took(a, cs[i], l) > 0 && forall j :: i < j < |cs| ==> Took(a, cs[j], l) == 0
    ensures kept < |cs| && RunOf(cs[kept], l).matched && RunOf(Either(cs), l).events == RunOf(cs[kept], l).events
    ensures Tell(a, Either(cs), l, Told(false, v)).value == Count(Took(a, cs[i], l))
    ensures Tell(a, Either(cs), l, Told(false, v)).value == Count(Used(a, RunOf(Either(cs), l).events))
       <==> Took(a, cs[i], l) == Took(a, cs[kept], l)
  {
    LastOfNeat(a, cs, l, i);
    LastBranchCounts(a, cs, l, v, i);
    kept := BranchOf(cs, l, Shortest(RunLefts(RunAny(cs, l))));
  }
}
