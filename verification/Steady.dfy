/** Patterns in which nothing strays under a name, whatever argv is, so that the mutations of
HeapMatcher.dfy do no harm.

A word that has not been collected yet may stand in several branches of an Either and may be
followed by what fails: its entry is discarded as a whole.  Once it may have been collected,
and for options always, it must not stand in an Either, and inside a bracket nothing that can
fail may come after it.  Brackets that must match for there to be a result are exempt.
Lines.dfy goes on from here to options in several usage lines.
 */
module Steady {
  import opened Basics
  import opened Elements
  import opened Patterns
  import opened Matcher
  import opened Language
  import opened Repeats
  import opened Capture
  import opened Telling
  import opened Straying

  /** `a` accumulates and its name occurs. */
  predicate Mentions(a: Element, p: Tree)
    decreases p
  {
    if p.Leaf? then Accumulates(a) && Name(p.leaf) == Name(a)
    else exists i :: 0 <= i < |p.children| && Mentions(a, p.children[i])
  }

  predicate MentionsAny(a: Element, cs: seq<Tree>) {
    exists i :: 0 <= i < |cs| && Mentions(a, cs[i])
  }

  /** Patterns that always match. */
  predicate CannotFail(p: Tree)
    decreases p
  {
    match p
    case Optional(_) => true
    case OptionsShortcut(_) => true
    case OneOrMore(cs) => |cs| == 1 && CannotFail(cs[0])
    case Required(cs) => forall i :: 0 <= i < |cs| ==> CannotFail(cs[i])
    case _ => false
  }

  predicate NoneFails(cs: seq<Tree>) {
    forall i :: 0 <= i < |cs| ==> CannotFail(cs[i])
  }

  /** Nothing strays in `p`, matching or not; `risky` if something may be collected already or
      the leaf is an option. */
  predicate Tame(a: Element, p: Tree, risky: bool)
    decreases p, 0
  {
    match p
    case Leaf(_) => true
    case Required(cs) => TameAll(a, cs, risky, risky)
    case Optional(cs) => TameEach(a, cs, risky)
    case OptionsShortcut(cs) => TameEach(a, cs, risky)
    case OneOrMore(cs) => |cs| == 1 && Tame(a, cs[0], risky || Mentions(a, cs[0]))
    case Either(cs) =>
      if risky then !MentionsAny(a, cs) else forall i :: 0 <= i < |cs| ==> Tame(a, cs[i], false)
  }

  /** `outer` is the risk on entry to the bracket: then nothing may fail after the name. */
  predicate TameAll(a: Element, cs: seq<Tree>, outer: bool, risky: bool)
    decreases cs, 0
  {
    cs == [] || (
      && Tame(a, cs[0], risky) && TameAll(a, cs[1..], outer, risky || Mentions(a, cs[0]))
      && (outer && Mentions(a, cs[0]) ==> NoneFails(cs[1..])))
  }

  predicate TameEach(a: Element, cs: seq<Tree>, risky: bool)
    decreases cs, 0
  {
    cs == [] || (Tame(a, cs[0], risky) && TameEach(a, cs[1..], risky || Mentions(a, cs[0])))
  }

  /** Nothing strays in `p` if it matches. */
  predicate Firm(a: Element, p: Tree, risky: bool)
    decreases p, 1
  {
    || Tame(a, p, risky)
    || (p.Required? && FirmAll(a, p.children, risky))
    || (p.Either? && !risky && forall i :: 0 <= i < |p.children| ==> Firm(a, p.children[i], false))
  }

  predicate FirmAll(a: Element, cs: seq<Tree>, risky: bool)
    decreases cs, 0
  {
    cs == [] || (Firm(a, cs[0], risky) && FirmAll(a, cs[1..], risky || Mentions(a, cs[0])))
  }

  // ---------- names ----------

  lemma {:induction false} LeafMentioned(a: Element, p: Tree, l: Element)
    requires Accumulates(a) && l in Leaves(p) && Name(l) == Name(a)
    ensures Mentions(a, p)
    decreases p, 1
  {
    if !p.Leaf? {
      LeafMentionedIn(a, p.children, l);
    }
  }

  lemma {:induction false} LeafMentionedIn(a: Element, cs: seq<Tree>, l: Element)
    requires Accumulates(a) && l in LeavesOf(cs) && Name(l) == Name(a)
    ensures MentionsAny(a, cs)
    decreases cs, 0
  {
    if l in Leaves(cs[0]) {
      LeafMentioned(a, cs[0], l);
    } else {
      LeafMentionedIn(a, cs[1..], l);
      var i :| 0 <= i < |cs[1..]| && Mentions(a, cs[1..][i]);
      assert Mentions(a, cs[i + 1]);
    }
  }

  /** What is not mentioned takes nothing. */
  lemma UsedIsMentioned(a: Element, p: Tree, l: seq<Element>)
    requires Matchable(p) && Accumulates(a) && Used(a, RunOf(p, l).events) > 0
    ensures Mentions(a, p)
  {
    var es := RunOf(p, l).events;
    RunIsSound(p, l);
    var e := Only(es, Name(a))[0];
    assert e in Only(es, Name(a));
    WordLeaves(p, es, e);
    LeafMentioned(a, p, e.leaf);
  }

  lemma {:induction false} UnmentionedIsTame(a: Element, p: Tree, risky: bool)
    requires Matchable(p) && !Mentions(a, p)
    ensures Tame(a, p, risky)
    decreases p, 0
  {
    match p
    case Leaf(_) =>
    case Required(cs) => UnmentionedAreTame(a, cs, risky, risky);
    case Optional(cs) => UnmentionedAreTame(a, cs, risky, risky);
    case OptionsShortcut(cs) => UnmentionedAreTame(a, cs, risky, risky);
    case OneOrMore(cs) => UnmentionedIsTame(a, cs[0], risky);
    case Either(cs) =>
      if !risky {
        forall i | 0 <= i < |cs|
          ensures Tame(a, cs[i], false)
        {
          UnmentionedIsTame(a, cs[i], false);
        }
      }
  }

  lemma {:induction false} UnmentionedAreTame(a: Element, cs: seq<Tree>, outer: bool, risky: bool)
    requires AllMatchable(cs) && !MentionsAny(a, cs)
    ensures TameAll(a, cs, outer, risky) && TameEach(a, cs, risky)
    decreases cs, 0
  {
    if cs != [] {
      UnmentionedIsTame(a, cs[0], risky);
      forall i | 0 <= i < |cs[1..]|
        ensures !Mentions(a, cs[1..][i])
      {
        assert cs[1..][i] == cs[i + 1];
      }
      UnmentionedAreTame(a, cs[1..], outer, risky);
    }
  }

  // ---------- nothing strays ----------

  lemma {:induction false} Succeeds(p: Tree, l: seq<Element>)
    requires Matchable(p) && CannotFail(p)
    ensures RunOf(p, l).matched
    decreases p, 0
  {
    match p
    case Optional(_) =>
    case OptionsShortcut(_) =>
    case OneOrMore(cs) => Succeeds(cs[0], l);
    case Required(cs) => AllSucceed(cs, l);
  }

  lemma {:induction false} AllSucceed(cs: seq<Tree>, l: seq<Element>)
    requires AllMatchable(cs) && NoneFails(cs)
    ensures RunAll(cs, l).matched
    decreases cs, 0
  {
    if cs != [] {
      Succeeds(cs[0], l);
      AllSucceed(cs[1..], RunOf(cs[0], l).left);
    }
  }

  /** At risk, a bracket that fails has taken nothing under the name. */
  lemma {:induction false} FailsClean(a: Element, cs: seq<Tree>, l: seq<Element>, risky: bool)
    requires AllMatchable(cs) && TameAll(a, cs, true, risky) && Accumulates(a) && !RunAll(cs, l).matched
    ensures Used(a, RunAll(cs, l).events) == 0
    decreases cs
  {
    var r := RunOf(cs[0], l);
    if r.matched {
      if Mentions(a, cs[0]) {
        AllSucceed(cs[1..], r.left);
      } else {
        if Used(a, r.events) > 0 {
          UsedIsMentioned(a, cs[0], l);
        }
        FailsClean(a, cs[1..], r.left, risky || Mentions(a, cs[0]));
        OnlyConcat(r.events, RunAll(cs[1..], r.left).events, Name(a));
      }
    }
  }

  /** What may have been collected so far. */
  ghost predicate Risk(a: Element, has: bool, risky: bool) {
    (Accumulates(a) && has ==> risky) && (a.Opt? ==> risky)
  }

  lemma RiskAfter(a: Element, p: Tree, l: seq<Element>, has: bool, risky: bool)
    requires Matchable(p) && Risk(a, has, risky)
    ensures Risk(a, has || Used(a, RunOf(p, l).events) > 0, risky || Mentions(a, p))
  {
    if Accumulates(a) && Used(a, RunOf(p, l).events) > 0 {
      UsedIsMentioned(a, p, l);
    }
  }

  lemma {:induction false} TameStrays(a: Element, p: Tree, l: seq<Element>, has: bool, risky: bool)
    requires Matchable(p) && Tame(a, p, risky) && Risk(a, has, risky)
    ensures Strays(a, p, l, has) == 0
    decreases p, 0
  {
    match p
    case Leaf(_) =>
    case Required(cs) =>
      TameAllStrays(a, cs, l, has, risky, risky);
      if !RunAll(cs, l).matched && risky && Accumulates(a) {
        FailsClean(a, cs, l, risky);
      }
    case Optional(cs) => TameEachStrays(a, cs, l, has, risky);
    case OptionsShortcut(cs) => TameEachStrays(a, cs, l, has, risky);
    case OneOrMore(cs) => TameLoopStrays(a, cs[0], l, true, has, risky || Mentions(a, cs[0]));
    case Either(cs) =>
      if risky {
        forall i | 0 <= i < |cs|
          ensures Tame(a, cs[i], true)
        {
          UnmentionedIsTame(a, cs[i], true);
        }
      }
      TameAnyStrays(a, cs, l, has, risky);
  }

  lemma {:induction false} TameAllStrays(a: Element, cs: seq<Tree>, l: seq<Element>, has: bool, outer: bool, risky: bool)
    requires AllMatchable(cs) && TameAll(a, cs, outer, risky) && Risk(a, has, risky)
    ensures StraysAll(a, cs, l, has) == 0
    decreases cs, 0
  {
    if cs != [] {
      TameStrays(a, cs[0], l, has, risky);
      RiskAfter(a, cs[0], l, has, risky);
      var r := RunOf(cs[0], l);
      TameAllStrays(a, cs[1..], r.left, has || Used(a, r.events) > 0, outer, risky || Mentions(a, cs[0]));
    }
  }

  lemma {:induction false} TameEachStrays(a: Element, cs: seq<Tree>, l: seq<Element>, has: bool, risky: bool)
    requires AllMatchable(cs) && TameEach(a, cs, risky) && Risk(a, has, risky)
    ensures StraysEach(a, cs, l, has) == 0
    decreases cs, 0
  {
    if cs != [] {
      TameStrays(a, cs[0], l, has, risky);
      RiskAfter(a, cs[0], l, has, risky);
      var r := RunOf(cs[0], l);
      TameEachStrays(a, cs[1..], r.left, has || Used(a, r.events) > 0, risky || Mentions(a, cs[0]));
    }
  }

  lemma {:induction false} TameLoopStrays(a: Element, p: Tree, l: seq<Element>, first: bool, has: bool, risky: bool)
    requires Matchable(p) && Tame(a, p, risky) && Risk(a, has, risky) && (Mentions(a, p) ==> risky)
    ensures StraysLoop(a, p, l, first, has) == 0
    decreases p, 1, if first then 1 else 0, |l|
  {
    TameStrays(a, p, l, has, risky);
    RiskAfter(a, p, l, has, risky);
    var r := RunOf(p, l);
    if r.matched && (first || r.left != l) {
      TameLoopStrays(a, p, r.left, false, has || Used(a, r.events) > 0, risky);
    }
  }

  /** The branches of an Either: at risk none mentions the name, otherwise all are tame. */
  lemma {:induction false} TameAnyStrays(a: Element, cs: seq<Tree>, l: seq<Element>, has: bool, risky: bool)
    requires AllMatchable(cs) && Risk(a, has, risky)
    requires forall i :: 0 <= i < |cs| ==> Tame(a, cs[i], risky) && (risky ==> !Mentions(a, cs[i]))
    ensures StraysAny(a, cs, l, has) == 0
    ensures forall k: nat :: StraysBut(a, cs, l, has, k) == 0
    decreases cs, 0
  {
    if cs != [] {
      TameStrays(a, cs[0], l, has, risky);
      if Accumulates(a) && Used(a, RunOf(cs[0], l).events) > 0 {
        UsedIsMentioned(a, cs[0], l);
      }
      TameAnyStrays(a, cs[1..], l, has, risky);
    }
  }

  /** Nothing strays in a firm pattern that matches, whatever argv is. */
  lemma {:induction false} FirmStrays(a: Element, p: Tree, l: seq<Element>, has: bool, risky: bool)
    requires Matchable(p) && Firm(a, p, risky) && Risk(a, has, risky) && RunOf(p, l).matched
    ensures Strays(a, p, l, has) == 0
    decreases p, 0
  {
    if Tame(a, p, risky) {
      TameStrays(a, p, l, has, risky);
    } else if p.Required? {
      FirmAllStrays(a, p.children, l, has, risky);
    } else if !Accumulates(a) {
      PlainUnmentioned(a, p);
      UnmentionedIsTame(a, p, risky);
      assert false;
    } else {
      FirmButStrays(a, p.children, l, Shortest(RunLefts(RunAny(p.children, l))));
    }
  }

  lemma {:induction false} PlainUnmentioned(a: Element, p: Tree)
    requires !Accumulates(a)
    ensures !Mentions(a, p)
    decreases p
  {
    if !p.Leaf? {
      forall i | 0 <= i < |p.children|
        ensures !Mentions(a, p.children[i])
      {
        PlainUnmentioned(a, p.children[i]);
      }
    }
  }

  lemma {:induction false} FirmAllStrays(a: Element, cs: seq<Tree>, l: seq<Element>, has: bool, risky: bool)
    requires AllMatchable(cs) && FirmAll(a, cs, risky) && Risk(a, has, risky) && RunAll(cs, l).matched
    ensures StraysAll(a, cs, l, has) == 0
    decreases cs, 0
  {
    if cs != [] {
      FirmStrays(a, cs[0], l, has, risky);
      RiskAfter(a, cs[0], l, has, risky);
      var r := RunOf(cs[0], l);
      FirmAllStrays(a, cs[1..], r.left, has || Used(a, r.events) > 0, risky || Mentions(a, cs[0]));
    }
  }

  /** A word with nothing collected: only the branch that is kept matters. */
  lemma {:induction false} FirmButStrays(a: Element, cs: seq<Tree>, l: seq<Element>, k: nat)
    requires AllMatchable(cs) && !a.Opt? && k < |RunAny(cs, l)|
    requires forall i :: 0 <= i < |cs| ==> Firm(a, cs[i], false)
    ensures StraysBut(a, cs, l, false, k) == 0
    decreases cs, 0
  {
    var r := RunOf(cs[0], l);
    if r.matched && k == 0 {
      FirmStrays(a, cs[0], l, false, false);
      WordsLeaveNothing(a, cs[1..], l);
    } else {
      FirmButStrays(a, cs[1..], l, if r.matched then k - 1 else k);
    }
  }
}
