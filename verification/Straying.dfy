/** Which additions to shared objects are never taken back (docopt.py:126-128, 221-279).

`Strays` counts the additions of discarded matches that stay: those made to an entry that
was there before the discarded outcome began, and those made to an argv element.  Without
any, what `Tell` ends with is what the kept matches alone would have made of it.  For
leaves that take words, and for lists, each stray shows: it adds one to what is reported.
 */
module Straying {
  import opened Basics
  import opened Elements
  import opened Patterns
  import opened Matcher
  import opened Language
  import opened Repeats
  import opened Capture
  import opened HeapMatcher
  import opened Telling

  function Used(a: Element, es: seq<Event>): nat {
    |Only(es, Name(a))|
  }

  /** What stays of a discarded outcome in which the name took something `uses` times, besides
      `strays` additions that stayed anyway.  Making a list of an argv element twice is no harm. */
  function Spent(a: Element, has: bool, uses: nat, strays: nat): nat {
    if !has && !a.Opt? then 0
    else if !Accumulates(a) then strays
    else if !has && a.value.Texts? && uses > 0 then uses - 1 + strays
    else uses + strays
  }

  /** The additions under the name of `a` that stay though their match does not, when `p` is
      tried on `l`; `has` tells whether something is collected under the name already. */
  function Strays(a: Element, p: Tree, l: seq<Element>, has: bool): nat
    requires Matchable(p)
    decreases p, 0
  {
    match p
    case Leaf(_) => 0
    case Required(cs) =>
      var r, n := RunAll(cs, l), StraysAll(a, cs, l, has);
      if r.matched then n else Spent(a, has, Used(a, r.events), n)
    case Optional(cs) => StraysEach(a, cs, l, has)
    case OptionsShortcut(cs) => StraysEach(a, cs, l, has)
    case OneOrMore(cs) => StraysLoop(a, cs[0], l, true, has)
    case Either(cs) =>
      var rs := RunAny(cs, l);
      if rs == [] then StraysAny(a, cs, l, has) else StraysBut(a, cs, l, has, Shortest(RunLefts(rs)))
  }

  function StraysAll(a: Element, cs: seq<Tree>, l: seq<Element>, has: bool): nat
    requires AllMatchable(cs)
    decreases cs, 0
  {
    if cs == [] then 0 else
      var r, n := RunOf(cs[0], l), Strays(a, cs[0], l, has);
      if r.matched then n + StraysAll(a, cs[1..], r.left, has || Used(a, r.events) > 0) else n
  }

  function StraysEach(a: Element, cs: seq<Tree>, l: seq<Element>, has: bool): nat
    requires AllMatchable(cs)
    decreases cs, 0
  {
    if cs == [] then 0 else
      var r := RunOf(cs[0], l);
      Strays(a, cs[0], l, has) + StraysEach(a, cs[1..], r.left, has || Used(a, r.events) > 0)
  }

  function StraysLoop(a: Element, p: Tree, l: seq<Element>, first: bool, has: bool): nat
    requires Matchable(p)
    decreases p, 1, if first then 1 else 0, |l|
  {
    var r, n := RunOf(p, l), Strays(a, p, l, has);
    if !r.matched || (!first && r.left == l) then n
    else n + StraysLoop(a, p, r.left, false, has || Used(a, r.events) > 0)
  }

  /** All branches of an Either, discarded. */
  function StraysAny(a: Element, cs: seq<Tree>, l: seq<Element>, has: bool): nat
    requires AllMatchable(cs)
    decreases cs, 0
  {
    if cs == [] then 0 else
      Spent(a, has, Used(a, RunOf(cs[0], l).events), Strays(a, cs[0], l, has)) + StraysAny(a, cs[1..], l, has)
  }

  /** All branches but the `k`-th that matches, which is kept. */
  function StraysBut(a: Element, cs: seq<Tree>, l: seq<Element>, has: bool, k: nat): nat
    requires AllMatchable(cs)
    decreases cs, 0
  {
    if cs == [] then 0 else
      var r, n := RunOf(cs[0], l), Strays(a, cs[0], l, has);
      if r.matched && k == 0 then n + StraysAny(a, cs[1..], l, has)
      else Spent(a, has, Used(a, r.events), n) + StraysBut(a, cs[1..], l, has, if r.matched then k - 1 else k)
  }

  // ---------- what kept matches alone would make of it ----------

  function KeepOne(a: Element, s: Told, e: Event): Told {
    if Name(e.leaf) != Name(a) then s
    else if !s.has then Told(true, Begin(a, e.item, s.value))
    else if Accumulates(a) then Told(true, Plus(s.value, Increment(a, MatchOf(a, e.item))))
    else s
  }

  function Keep(a: Element, s: Told, es: seq<Event>): Told {
    if es == [] then s else KeepOne(a, Keep(a, s, es[..|es| - 1]), es[|es| - 1])
  }

  lemma {:induction false} KeepConcat(a: Element, s: Told, es: seq<Event>, fs: seq<Event>)
    ensures Keep(a, s, es + fs) == Keep(a, Keep(a, s, es), fs)
  {
    if fs == [] {
      assert es + fs == es;
    } else {
      var last := |fs| - 1;
      assert (es + fs)[..|es + fs| - 1] == es + fs[..last];
      KeepConcat(a, s, es, fs[..last]);
    }
  }

  lemma {:induction false} OnlyConcat(es: seq<Event>, fs: seq<Event>, n: Option<string>)
    ensures Only(es + fs, n) == Only(es, n) + Only(fs, n)
  {
    if fs == [] {
      assert es + fs == es;
    } else {
      var last := |fs| - 1;
      assert (es + fs)[..|es + fs| - 1] == es + fs[..last];
      OnlyConcat(es, fs[..last], n);
    }
  }

  lemma {:induction false} KeepHas(a: Element, s: Told, es: seq<Event>)
    ensures Keep(a, s, es).has <==> s.has || Used(a, es) > 0
    ensures Used(a, es) == 0 ==> Keep(a, s, es) == s
    ensures s.has && !Accumulates(a) ==> Keep(a, s, es) == s
  {
    if es != [] {
      KeepHas(a, s, es[..|es| - 1]);
    }
  }

  /** What an argv element of a list option holds once it has been taken. */
  function Listed(v: Value): Value {
    if v.Text? then Texts([v.text]) else v
  }

  lemma {:induction false} KeepOption(a: Element, s: Told, es: seq<Event>)
    requires a.Opt? && !s.has
    ensures !Accumulates(a) ==> Keep(a, s, es).value == s.value
    ensures a.value.Texts? && Used(a, es) == 1 ==> Keep(a, s, es).value == Listed(s.value)
    ensures a.value.Texts? && Used(a, es) > 0 ==> !Keep(a, s, es).value.Text?
  {
    if es != [] {
      KeepOption(a, s, es[..|es| - 1]);
      KeepHas(a, s, es[..|es| - 1]);
    }
  }

  /** `s` tells what `k` tells, but the argv element may have been made a list. */
  predicate Close(a: Element, s: Told, k: Told) {
    s.has == k.has && (s.value == k.value || (!s.has && a.Opt? && a.value.Texts? && s.value == Listed(k.value)))
  }

  lemma CloseOne(a: Element, s: Told, k: Told, e: Event)
    requires Close(a, s, k)
    ensures Close(a, KeepOne(a, s, e), KeepOne(a, k, e))
  {
  }

  /** If nothing stays of an outcome, discarding it undoes it. */
  lemma DiscardClose(a: Element, s: Told, k: Told, t: Told, es: seq<Event>, strays: nat)
    requires Close(a, s, k) && Spent(a, s.has, Used(a, es), strays) == 0
    requires strays == 0 ==> Close(a, t, Keep(a, k, es))
    ensures Close(a, Discard(a, s, t), k)
  {
    KeepHas(a, k, es);
    if a.Opt? && !s.has {
      KeepOption(a, k, es);
    }
  }

  // ---------- without strays ----------

  /** Without strays `Tell` tells what the kept matches make of it. */
  lemma {:induction false} NoStrays(a: Element, p: Tree, l: seq<Element>, s: Told, k: Told)
    requires Matchable(p) && Close(a, s, k) && Strays(a, p, l, s.has) == 0
    ensures Close(a, Tell(a, p, l, s), Keep(a, k, RunOf(p, l).events))
    decreases p, 0
  {
    match p
    case Leaf(self) => LeafNoStrays(a, self, l, s, k);
    case Required(cs) =>
      var r, n := RunAll(cs, l), StraysAll(a, cs, l, s.has);
      if n == 0 {
        NoStraysAll(a, cs, l, s, k);
      }
      if !r.matched {
        DiscardClose(a, s, k, TellAll(a, cs, l, s), r.events, n);
      }
    case Optional(cs) => NoStraysEach(a, cs, l, s, k);
    case OptionsShortcut(cs) => NoStraysEach(a, cs, l, s, k);
    case OneOrMore(cs) =>
      NoStraysLoop(a, cs[0], l, true, s, k);
      assert RunLoop(cs[0], l, true).0 == 0 ==> RunLoop(cs[0], l, true).1.events == [];
    case Either(cs) =>
      if RunAny(cs, l) == [] {
        NoStraysAny(a, cs, l, s, k);
      } else {
        NoStraysBut(a, cs, l, s, k, Shortest(RunLefts(RunAny(cs, l))));
      }
  }

  lemma LeafNoStrays(a: Element, self: Element, l: seq<Element>, s: Told, k: Told)
    requires Close(a, s, k)
    ensures Close(a, TellLeaf(a, self, l, s), Keep(a, k, RunOf(Leaf(self), l).events))
  {
    var pos := SingleMatch(self, l);
    if pos < |l| {
      var e := Event(self, l[pos]);
      assert [e][..0] == [];
      assert Keep(a, k, [e]) == KeepOne(a, k, e);
      CloseOne(a, s, k, e);
    }
  }

  lemma {:induction false} NoStraysAll(a: Element, cs: seq<Tree>, l: seq<Element>, s: Told, k: Told)
    requires AllMatchable(cs) && Close(a, s, k) && StraysAll(a, cs, l, s.has) == 0
    ensures Close(a, TellAll(a, cs, l, s), Keep(a, k, RunAll(cs, l).events))
    decreases cs, 0
  {
    if cs != [] {
      var r := RunOf(cs[0], l);
      NoStrays(a, cs[0], l, s, k);
      if r.matched {
        KeepHas(a, k, r.events);
        NoStraysAll(a, cs[1..], r.left, Tell(a, cs[0], l, s), Keep(a, k, r.events));
        KeepConcat(a, k, r.events, RunAll(cs[1..], r.left).events);
      }
    }
  }

  lemma {:induction false} NoStraysEach(a: Element, cs: seq<Tree>, l: seq<Element>, s: Told, k: Told)
    requires AllMatchable(cs) && Close(a, s, k) && StraysEach(a, cs, l, s.has) == 0
    ensures Close(a, TellEach(a, cs, l, s), Keep(a, k, RunEach(cs, l).events))
    decreases cs, 0
  {
    if cs != [] {
      var r := RunOf(cs[0], l);
      NoStrays(a, cs[0], l, s, k);
      KeepHas(a, k, r.events);
      NoStraysEach(a, cs[1..], r.left, Tell(a, cs[0], l, s), Keep(a, k, r.events));
      KeepConcat(a, k, r.events, RunEach(cs[1..], r.left).events);
    }
  }

  lemma {:induction false} NoStraysLoop(a: Element, p: Tree, l: seq<Element>, first: bool, s: Told, k: Told)
    requires Matchable(p) && Close(a, s, k) && StraysLoop(a, p, l, first, s.has) == 0
    ensures Close(a, TellLoop(a, p, l, first, s), Keep(a, k, RunLoop(p, l, first).1.events))
    decreases p, 1, if first then 1 else 0, |l|
  {
    var r := RunOf(p, l);
    NoStrays(a, p, l, s, k);
    if r.matched && (first || r.left != l) {
      RunGoesOn(p, l, first);
      TellGoesOn(a, p, l, first, s);
      KeepHas(a, k, r.events);
      NoStraysLoop(a, p, r.left, false, Tell(a, p, l, s), Keep(a, k, r.events));
      KeepConcat(a, k, r.events, RunLoop(p, r.left, false).1.events);
    }
  }

  /** One more round. */
  lemma TellGoesOn(a: Element, p: Tree, l: seq<Element>, first: bool, s: Told)
    requires Matchable(p) && RunOf(p, l).matched && (first || RunOf(p, l).left != l)
    ensures var r, t := RunOf(p, l), Tell(a, p, l, s);
            && TellLoop(a, p, l, first, s) == TellLoop(a, p, r.left, false, t)
            && StraysLoop(a, p, l, first, s.has)
               == Strays(a, p, l, s.has) + StraysLoop(a, p, r.left, false, s.has || Used(a, r.events) > 0)
  {
  }

  /** A discarded branch of which nothing stays. */
  lemma BranchUndone(a: Element, p: Tree, l: seq<Element>, s: Told, k: Told)
    requires Matchable(p) && Close(a, s, k)
    requires Spent(a, s.has, Used(a, RunOf(p, l).events), Strays(a, p, l, s.has)) == 0
    ensures Close(a, Discard(a, s, Tell(a, p, l, s)), k)
    decreases p, 1
  {
    if Strays(a, p, l, s.has) == 0 {
      NoStrays(a, p, l, s, k);
    }
    DiscardClose(a, s, k, Tell(a, p, l, s), RunOf(p, l).events, Strays(a, p, l, s.has));
  }

  lemma {:induction false} NoStraysAny(a: Element, cs: seq<Tree>, l: seq<Element>, s: Told, k: Told)
    requires AllMatchable(cs) && Close(a, s, k) && StraysAny(a, cs, l, s.has) == 0
    ensures Close(a, TellAny(a, cs, l, s).1, k)
    decreases cs, 0
  {
    if cs != [] {
      BranchUndone(a, cs[0], l, s, k);
      NoStraysAny(a, cs[1..], l, Discard(a, s, Tell(a, cs[0], l, s)), k);
    }
  }

  /** The chosen outcome `t` of an Either, none of the later branches leaving anything. */
  lemma SurvivorClose(a: Element, s: Told, t: Told, end: Told, k: Told, es: seq<Event>)
    requires Close(a, s, k) && Close(a, t, Keep(a, k, es)) && Close(a, end, Discard(a, s, t))
    ensures Close(a, Survivor(a, s, t, end), Keep(a, k, es))
  {
    KeepHas(a, k, es);
    if a.Opt? && !s.has {
      KeepOption(a, k, es);
    }
  }

  /** The outcome `i` of an Either, when all its branches have been tried. */
  function Picked(a: Element, cs: seq<Tree>, l: seq<Element>, s: Told, i: nat): Told
    requires AllMatchable(cs) && i < |RunAny(cs, l)|
  {
    var (ts, end) := TellAny(a, cs, l, s);
    Survivor(a, s, ts[i], end)
  }

  lemma PickedFirst(a: Element, cs: seq<Tree>, l: seq<Element>, s: Told)
    requires AllMatchable(cs) && cs != [] && RunOf(cs[0], l).matched
    ensures var t := Tell(a, cs[0], l, s);
            Picked(a, cs, l, s, 0) == Survivor(a, s, t, TellAny(a, cs[1..], l, Discard(a, s, t)).1)
    ensures RunAny(cs, l)[0] == RunOf(cs[0], l)
  {
  }

  lemma PickedLater(a: Element, cs: seq<Tree>, l: seq<Element>, s: Told, i: nat, j: nat)
    requires AllMatchable(cs) && cs != [] && i < |RunAny(cs, l)|
    requires i == if RunOf(cs[0], l).matched then j + 1 else j
    ensures j < |RunAny(cs[1..], l)| && RunAny(cs, l)[i] == RunAny(cs[1..], l)[j]
    ensures Picked(a, cs, l, s, i) == Picked(a, cs[1..], l, Discard(a, s, Tell(a, cs[0], l, s)), j)
  {
    TellAnyUnfold(a, cs, l, s);
    RunAnySkip(cs, l, i, j);
  }

  lemma {:induction false} NoStraysBut(a: Element, cs: seq<Tree>, l: seq<Element>, s: Told, k: Told, i: nat)
    requires AllMatchable(cs) && Close(a, s, k) && i < |RunAny(cs, l)|
    requires StraysBut(a, cs, l, s.has, i) == 0
    ensures Close(a, Picked(a, cs, l, s, i), Keep(a, k, RunAny(cs, l)[i].events))
    decreases cs, 0
  {
    var r, t := RunOf(cs[0], l), Tell(a, cs[0], l, s);
    var d := Discard(a, s, t);
    if r.matched && i == 0 {
      NoStrays(a, cs[0], l, s, k);
      NoStraysAny(a, cs[1..], l, d, d);
      SurvivorClose(a, s, t, TellAny(a, cs[1..], l, d).1, k, r.events);
      PickedFirst(a, cs, l, s);
    } else {
      var j := if r.matched then i - 1 else i;
      BranchUndone(a, cs[0], l, s, k);
      PickedLater(a, cs, l, s, i, j);
      NoStraysBut(a, cs[1..], l, d, k, j);
    }
  }

  // ---------- each stray shows ----------

  /** Words and lists: making a first entry of an argv element again takes nothing back. */
  predicate Grows(a: Element) {
    Accumulates(a) && (a.value.Texts? || !a.Opt?)
  }

  /** How much has been added under the name. */
  function Size(a: Element, s: Told): int {
    if s.has then Weight(s.value) else if a.Opt? then Weight(s.value) - 1 else 0
  }

  /** The values are of the kind that `a` makes of an argv whose elements are `argv`. */
  ghost predicate Kinds(a: Element, argv: seq<Element>, s: Told) {
    && (s.has ==> (a.value.Count? ==> s.value.Count?) && (a.value.Texts? ==> s.value.Texts?))
    && (!s.has && a.Opt? && a.value.Texts? && Find(argv, Name(a)) < |argv| ==> s.value.Text? || s.value.Texts?)
  }

  /** Part of an argv that has strings where `a` takes them. */
  ghost predicate Part(a: Element, argv: seq<Element>, l: seq<Element>) {
    && TypedArgv([a], argv) && (a.value.Texts? ==> TakesText(a))
    && forall x :: x in l ==> x in argv
  }

  lemma PartRest(a: Element, p: Tree, argv: seq<Element>, l: seq<Element>)
    requires Matchable(p) && Part(a, argv, l)
    ensures Part(a, argv, RunOf(p, l).left)
  {
    var r := RunOf(p, l);
    RunIsSound(p, l);
    if r.matched {
      OrderTakes(l, r.events, r.left);
      TakesExactly(l, Items(r.events), r.left);
      forall x | x in r.left
        ensures x in argv
      {
        assert x in multiset(r.left);
        assert x in multiset(l);
      }
    }
  }

  /** A list stays one. */
  predicate StaysList(a: Element, s: Told, t: Told) {
    a.value.Texts? && s.value.Texts? ==> t.value.Texts?
  }

  /** `t` tells of the outcome with events `es` and `strays`, tried in `s`. */
  ghost predicate Adds(a: Element, argv: seq<Element>, s: Told, t: Told, es: seq<Event>, strays: nat) {
    && Kinds(a, argv, t)
    && (t.has <==> s.has || Used(a, es) > 0) && StaysList(a, s, t)
    && Size(a, t) == Size(a, s) + Used(a, es) + strays
  }

  lemma AddsOn(a: Element, argv: seq<Element>, s: Told, t: Told, es: seq<Event>, m: nat, u: Told, fs: seq<Event>, n: nat)
    requires Adds(a, argv, s, t, es, m) && Adds(a, argv, t, u, fs, n)
    ensures Adds(a, argv, s, u, es + fs, m + n)
  {
    OnlyConcat(es, fs, Name(a));
  }

  /** Discarded, an outcome adds what is spent on it. */
  lemma DiscardAdds(a: Element, argv: seq<Element>, s: Told, t: Told, es: seq<Event>, m: nat)
    requires Grows(a) && Kinds(a, argv, s) && Adds(a, argv, s, t, es, m)
    ensures var d := Discard(a, s, t);
            Kinds(a, argv, d) && StaysList(a, s, d) && Size(a, d) == Size(a, s) + Spent(a, s.has, Used(a, es), m)
  {
  }

  lemma LeafAdds(a: Element, self: Element, argv: seq<Element>, l: seq<Element>, s: Told)
    requires Grows(a) && Part(a, argv, l) && Kinds(a, argv, s) && (Name(self) == Name(a) ==> self == a) && Name(a).Some?
    ensures Adds(a, argv, s, TellLeaf(a, self, l, s), RunOf(Leaf(self), l).events, 0)
  {
    var pos := SingleMatch(self, l);
    if pos < |l| {
      var e := Event(self, l[pos]);
      assert [e][..0] == [] && Only([e][..0], Name(a)) == [];
      if self == a {
        SingleMatchFits(a, l);
        assert l[pos] in argv && a in [a];
        if a.Opt? {
          var i :| 0 <= i < |argv| && argv[i] == l[pos];
          assert Find(argv, Name(a)) < |argv|;
        }
      }
    }
  }

  /** For words and lists, what is reported is what was taken and all that strayed. */
  lemma {:induction false} EveryStrayShows(a: Element, p: Tree, argv: seq<Element>, l: seq<Element>, s: Told)
    requires Matchable(p) && Sole(p, a) && Name(a).Some? && Grows(a) && Part(a, argv, l) && Kinds(a, argv, s)
    ensures Adds(a, argv, s, Tell(a, p, l, s), RunOf(p, l).events, Strays(a, p, l, s.has))
    decreases p, 0
  {
    match p
    case Leaf(self) => LeafAdds(a, self, argv, l, s);
    case Required(cs) =>
      AllShow(a, cs, argv, l, s);
      if !RunAll(cs, l).matched {
        DiscardAdds(a, argv, s, TellAll(a, cs, l, s), RunAll(cs, l).events, StraysAll(a, cs, l, s.has));
      }
    case Optional(cs) => EachShows(a, cs, argv, l, s);
    case OptionsShortcut(cs) => EachShows(a, cs, argv, l, s);
    case OneOrMore(cs) =>
      LoopShows(a, cs[0], argv, l, true, s);
      assert RunLoop(cs[0], l, true).0 == 0 ==> RunLoop(cs[0], l, true).1.events == [];
    case Either(cs) =>
      if RunAny(cs, l) == [] {
        AnyShows(a, cs, argv, l, s);
      } else {
        ButShows(a, cs, argv, l, s, Shortest(RunLefts(RunAny(cs, l))));
      }
  }

  lemma {:induction false} AllShow(a: Element, cs: seq<Tree>, argv: seq<Element>, l: seq<Element>, s: Told)
    requires AllMatchable(cs) && AllSole(cs, a) && Name(a).Some? && Grows(a) && Part(a, argv, l) && Kinds(a, argv, s)
    ensures Adds(a, argv, s, TellAll(a, cs, l, s), RunAll(cs, l).events, StraysAll(a, cs, l, s.has))
    decreases cs, 0
  {
    if cs != [] {
      var r, t := RunOf(cs[0], l), Tell(a, cs[0], l, s);
      EveryStrayShows(a, cs[0], argv, l, s);
      PartRest(a, cs[0], argv, l);
      if r.matched {
        AllShow(a, cs[1..], argv, r.left, t);
        AddsOn(a, argv, s, t, r.events, Strays(a, cs[0], l, s.has), TellAll(a, cs[1..], r.left, t),
               RunAll(cs[1..], r.left).events, StraysAll(a, cs[1..], r.left, t.has));
      }
    }
  }

  lemma {:induction false} EachShows(a: Element, cs: seq<Tree>, argv: seq<Element>, l: seq<Element>, s: Told)
    requires AllMatchable(cs) && AllSole(cs, a) && Name(a).Some? && Grows(a) && Part(a, argv, l) && Kinds(a, argv, s)
    ensures Adds(a, argv, s, TellEach(a, cs, l, s), RunEach(cs, l).events, StraysEach(a, cs, l, s.has))
    decreases cs, 0
  {
    if cs != [] {
      var r, t := RunOf(cs[0], l), Tell(a, cs[0], l, s);
      EveryStrayShows(a, cs[0], argv, l, s);
      PartRest(a, cs[0], argv, l);
      EachShows(a, cs[1..], argv, r.left, t);
      AddsOn(a, argv, s, t, r.events, Strays(a, cs[0], l, s.has), TellEach(a, cs[1..], r.left, t),
             RunEach(cs[1..], r.left).events, StraysEach(a, cs[1..], r.left, t.has));
    }
  }

  lemma {:induction false} LoopShows(a: Element, p: Tree, argv: seq<Element>, l: seq<Element>, first: bool, s: Told)
    requires Matchable(p) && Sole(p, a) && Name(a).Some? && Grows(a) && Part(a, argv, l) && Kinds(a, argv, s)
    ensures Adds(a, argv, s, TellLoop(a, p, l, first, s), RunLoop(p, l, first).1.events, StraysLoop(a, p, l, first, s.has))
    decreases p, 1, if first then 1 else 0, |l|
  {
    var r, t := RunOf(p, l), Tell(a, p, l, s);
    EveryStrayShows(a, p, argv, l, s);
    PartRest(a, p, argv, l);
    if r.matched && (first || r.left != l) {
      RunGoesOn(p, l, first);
      TellGoesOn(a, p, l, first, s);
      LoopShows(a, p, argv, r.left, false, t);
      AddsOn(a, argv, s, t, r.events, Strays(a, p, l, s.has), TellLoop(a, p, r.left, false, t),
             RunLoop(p, r.left, false).1.events, StraysLoop(a, p, r.left, false, t.has));
    }
  }

  /** The branches of an Either, none being kept. */
  lemma {:induction false} AnyShows(a: Element, cs: seq<Tree>, argv: seq<Element>, l: seq<Element>, s: Told)
    requires AllMatchable(cs) && AllSole(cs, a) && Name(a).Some? && Grows(a) && Part(a, argv, l) && Kinds(a, argv, s)
    ensures var end := TellAny(a, cs, l, s).1;
            Kinds(a, argv, end) && end.has == s.has && StaysList(a, s, end) && Size(a, end) == Size(a, s) + StraysAny(a, cs, l, s.has)
    decreases cs, 0
  {
    if cs != [] {
      var r, t := RunOf(cs[0], l), Tell(a, cs[0], l, s);
      EveryStrayShows(a, cs[0], argv, l, s);
      DiscardAdds(a, argv, s, t, r.events, Strays(a, cs[0], l, s.has));
      AnyShows(a, cs[1..], argv, l, Discard(a, s, t));
    }
  }

  lemma SurvivorAdds(a: Element, argv: seq<Element>, s: Told, t: Told, es: seq<Event>, m: nat, end: Told, n: nat)
    requires Grows(a) && Adds(a, argv, s, t, es, m)
    requires var d := Discard(a, s, t);
             Kinds(a, argv, end) && end.has == d.has && StaysList(a, d, end) && Size(a, end) == Size(a, d) + n
    requires !s.has && !a.Opt? ==> n == 0
    ensures Adds(a, argv, s, Survivor(a, s, t, end), es, m + n)
  {
  }

  /** Words without an entry leave nothing behind. */
  lemma {:induction false} WordsLeaveNothing(a: Element, cs: seq<Tree>, l: seq<Element>)
    requires AllMatchable(cs) && !a.Opt?
    ensures StraysAny(a, cs, l, false) == 0
  {
    if cs != [] {
      WordsLeaveNothing(a, cs[1..], l);
    }
  }

  lemma FirstShows(a: Element, cs: seq<Tree>, argv: seq<Element>, l: seq<Element>, s: Told)
    requires AllMatchable(cs) && AllSole(cs, a) && Name(a).Some? && Grows(a) && Part(a, argv, l) && Kinds(a, argv, s)
    requires cs != [] && RunOf(cs[0], l).matched
    requires Adds(a, argv, s, Tell(a, cs[0], l, s), RunOf(cs[0], l).events, Strays(a, cs[0], l, s.has))
    requires var d := Discard(a, s, Tell(a, cs[0], l, s));
             var end := TellAny(a, cs[1..], l, d).1;
             && Kinds(a, argv, end) && end.has == d.has && StaysList(a, d, end)
             && Size(a, end) == Size(a, d) + StraysAny(a, cs[1..], l, d.has)
    ensures Adds(a, argv, s, Picked(a, cs, l, s, 0), RunAny(cs, l)[0].events, StraysBut(a, cs, l, s.has, 0))
  {
    var t := Tell(a, cs[0], l, s);
    PickedFirst(a, cs, l, s);
    if !a.Opt? && !s.has {
      WordsLeaveNothing(a, cs[1..], l);
    }
    SurvivorAdds(a, argv, s, t, RunOf(cs[0], l).events, Strays(a, cs[0], l, s.has),
                 TellAny(a, cs[1..], l, Discard(a, s, t)).1, StraysAny(a, cs[1..], l, s.has));
  }

  lemma LaterShows(a: Element, argv: seq<Element>, s: Told, d: Told, spent: nat, t: Told, es: seq<Event>, n: nat)
    requires Grows(a) && d.has == s.has && StaysList(a, s, d) && Size(a, d) == Size(a, s) + spent
    requires Adds(a, argv, d, t, es, n)
    ensures Adds(a, argv, s, t, es, spent + n)
  {
  }

  lemma {:induction false} ButShows(a: Element, cs: seq<Tree>, argv: seq<Element>, l: seq<Element>, s: Told, i: nat)
    requires AllMatchable(cs) && AllSole(cs, a) && Name(a).Some? && Grows(a) && Part(a, argv, l) && Kinds(a, argv, s)
    requires i < |RunAny(cs, l)|
    ensures Adds(a, argv, s, Picked(a, cs, l, s, i), RunAny(cs, l)[i].events, StraysBut(a, cs, l, s.has, i))
    decreases cs, 0
  {
    var r, t := RunOf(cs[0], l), Tell(a, cs[0], l, s);
    var d, m := Discard(a, s, t), Strays(a, cs[0], l, s.has);
    EveryStrayShows(a, cs[0], argv, l, s);
    DiscardAdds(a, argv, s, t, r.events, m);
    if r.matched && i == 0 {
      AnyShows(a, cs[1..], argv, l, d);
      FirstShows(a, cs, argv, l, s);
    } else {
      var j := if r.matched then i - 1 else i;
      PickedLater(a, cs, l, s, i, j);
      ButShows(a, cs[1..], argv, l, d, j);
      LaterShows(a, argv, s, d, Spent(a, s.has, Used(a, r.events), m), Picked(a, cs[1..], l, d, j),
                 RunAny(cs[1..], l)[j].events, StraysBut(a, cs[1..], l, s.has, j));
    }
  }
}
