/** Usage lines: when an option may stand in an Either, as the lines of a usage do.

The branches of an Either all run, but as long as nothing is collected under the option's name
no harm is done if only the branch that is kept takes it.  That is so if only one branch
mentions it, or if those that do begin with different commands: then all but one of them fail
before they come to the option.
 */
module Lines {
  import opened Basics
  import opened Elements
  import opened Patterns
  import opened Matcher
  import opened Language
  import opened Repeats
  import opened HeapMatcher
  import opened Telling
  import opened Straying
  import opened Steady

  // ---------- the commands a line begins with ----------

  /** Only options. */
  predicate NoWords(p: Tree)
    decreases p
  {
    if p.Leaf? then p.leaf.Opt? && Name(p.leaf).Some? else forall i :: 0 <= i < |p.children| ==> NoWords(p.children[i])
  }

  /** The commands `p` takes first, before it comes to `a`. */
  function Leads(a: Element, p: Tree): seq<Option<string>>
    decreases p, 0
  {
    match p
    case Leaf(self) => if self.Command? then [self.name] else []
    case Required(cs) => LeadsAll(a, cs)
    case _ => []
  }

  function LeadsAll(a: Element, cs: seq<Tree>): seq<Option<string>>
    decreases cs, 0
  {
    if cs == [] then []
    else if cs[0].Leaf? && cs[0].leaf.Command? && !Mentions(a, cs[0]) then [cs[0].leaf.name] + LeadsAll(a, cs[1..])
    else if NoWords(cs[0]) && !Mentions(a, cs[0]) then LeadsAll(a, cs[1..])
    else Leads(a, cs[0])
  }

  /** They begin with different commands. */
  predicate Apart(a: Element, p: Tree, q: Tree) {
    exists k :: 0 <= k < |Leads(a, p)| && k < |Leads(a, q)| && Leads(a, p)[k] != Leads(a, q)[k]
  }

  /** Of branches that mention `a` at most one comes to it. */
  predicate Exclusive(a: Element, cs: seq<Tree>) {
    forall i, j :: 0 <= i < |cs| && 0 <= j < |cs| && i != j && Mentions(a, cs[i]) && Mentions(a, cs[j]) ==>
      Apart(a, cs[i], cs[j])
  }

  /** If `p` is tried with nothing collected under the name, matches and takes something under
      it, nothing strays. */
  predicate Settled(a: Element, p: Tree)
    decreases p, 1
  {
    Firm(a, p, a.Opt?) ||
    match p
    case Required(cs) => SettledAll(a, cs)
    case Optional(cs) => SettledEach(a, cs)
    case OptionsShortcut(cs) => SettledEach(a, cs)
    case Either(cs) => Exclusive(a, cs) && forall i :: 0 <= i < |cs| ==> Settled(a, cs[i])
    case _ => false
  }

  /** One member may be merely settled, if no other mentions the name. */
  predicate SettledAll(a: Element, cs: seq<Tree>)
    decreases cs, 0
  {
    || FirmAll(a, cs, a.Opt?)
    || (cs != [] && !Mentions(a, cs[0]) && SettledAll(a, cs[1..]))
    || (cs != [] && Settled(a, cs[0]) && !MentionsAny(a, cs[1..]))
  }

  predicate SettledEach(a: Element, cs: seq<Tree>)
    decreases cs, 0
  {
    || TameEach(a, cs, a.Opt?)
    || (cs != [] && !Mentions(a, cs[0]) && SettledEach(a, cs[1..]))
    || (cs != [] && Settled(a, cs[0]) && !MentionsAny(a, cs[1..]))
  }

  // ---------- a line whose commands are not there ----------

  function WordsOf(l: seq<Element>): seq<Element> {
    if l == [] then [] else (if l[0].Argument? then [l[0]] else []) + WordsOf(l[1..])
  }

  /** The words begin with these commands. */
  predicate Opens(ns: seq<Option<string>>, ws: seq<Element>) {
    |ns| <= |ws| && forall i :: 0 <= i < |ns| ==> SpelledBy(ns[i], ws[i].value)
  }

  lemma {:induction false} WordsDrop(l: seq<Element>, i: nat)
    requires i < |l| && (l[i].Argument? ==> i == FindArgument(l))
    ensures l[i].Argument? ==> WordsOf(l) != [] && WordsOf(l)[0] == l[i]
    ensures WordsOf(Drop(l, i)) == if l[i].Argument? then WordsOf(l)[1..] else WordsOf(l)
  {
    if i == 0 {
      assert Drop(l, 0) == l[1..];
    } else {
      WordsDrop(l[1..], i - 1);
      assert Drop(l, i) == [l[0]] + Drop(l[1..], i - 1);
      assert Drop(l, i)[1..] == Drop(l[1..], i - 1);
    }
  }

  lemma {:induction false} NoWordsLeaves(p: Tree, k: Element)
    requires NoWords(p) && k in Leaves(p)
    ensures k.Opt? && Name(k).Some?
    decreases p, 1
  {
    if !p.Leaf? {
      NoWordsLeavesOf(p.children, k);
    }
  }

  lemma {:induction false} NoWordsLeavesOf(cs: seq<Tree>, k: Element)
    requires (forall i :: 0 <= i < |cs| ==> NoWords(cs[i])) && k in LeavesOf(cs)
    ensures k.Opt? && Name(k).Some?
    decreases cs, 0
  {
    if k in Leaves(cs[0]) {
      NoWordsLeaves(cs[0], k);
    } else {
      NoWordsLeavesOf(cs[1..], k);
    }
  }

  /** Options take no words. */
  lemma {:induction false} WordsStay(l: seq<Element>, es: seq<Event>, rest: seq<Element>)
    requires FromArgv(l) && TakesInOrder(l, es, rest)
    requires forall e :: e in es ==> e.leaf.Opt? && Name(e.leaf).Some?
    ensures WordsOf(rest) == WordsOf(l) && FromArgv(rest)
    decreases |es|
  {
    if es != [] {
      assert es[0] in es;
      var pos := SingleMatch(es[0].leaf, l);
      OrderHead(l, es, rest);
      WordsDrop(l, pos);
      WordsStay(Drop(l, pos), es[1..], rest);
    }
  }

  lemma NoWordsRun(p: Tree, l: seq<Element>)
    requires Matchable(p) && NoWords(p) && FromArgv(l)
    ensures WordsOf(RunOf(p, l).left) == WordsOf(l) && FromArgv(RunOf(p, l).left)
  {
    var r := RunOf(p, l);
    RunIsSound(p, l);
    if r.matched {
      forall e | e in r.events
        ensures e.leaf.Opt? && Name(e.leaf).Some?
      {
        WordLeaves(p, r.events, e);
        NoWordsLeaves(p, e.leaf);
      }
      WordsStay(l, r.events, r.left);
    }
  }

  lemma UnmentionedRun(a: Element, p: Tree, l: seq<Element>, has: bool)
    requires Matchable(p) && Accumulates(a) && !Mentions(a, p)
    ensures Used(a, RunOf(p, l).events) == 0 && Strays(a, p, l, has) == 0
  {
    UnmentionedIsTame(a, p, true);
    TameStrays(a, p, l, has, true);
    if Used(a, RunOf(p, l).events) > 0 {
      UsedIsMentioned(a, p, l);
    }
  }

  /** A command takes the first word, or there is none it is spelled by. */
  lemma CommandRun(name: Option<string>, v: Value, l: seq<Element>)
    ensures var r, ws := RunOf(Leaf(Command(name, v)), l), WordsOf(l);
            && (r.matched <==> ws != [] && SpelledBy(name, ws[0].value))
            && (r.matched ==> WordsOf(r.left) == ws[1..] && (FromArgv(l) ==> FromArgv(r.left)))
  {
    var i := FindArgument(l);
    if i < |l| {
      WordsDrop(l, i);
    } else {
      NoWordsLeft(l);
    }
  }

  lemma {:induction false} NoWordsLeft(l: seq<Element>)
    requires FindArgument(l) == |l|
    ensures WordsOf(l) == []
  {
    if l != [] {
      NoWordsLeft(l[1..]);
    }
  }

  /** A line whose commands are not there fails before it comes to the option. */
  lemma {:induction false} FailsEarly(a: Element, p: Tree, l: seq<Element>, has: bool)
    requires Matchable(p) && Accumulates(a) && FromArgv(l) && !Opens(Leads(a, p), WordsOf(l))
    ensures !RunOf(p, l).matched && Strays(a, p, l, has) == 0
    decreases p, 0
  {
    match p
    case Leaf(self) => CommandRun(self.name, self.value, l);
    case Required(cs) => FailsEarlyAll(a, cs, l, has);
  }

  lemma {:induction false} FailsEarlyAll(a: Element, cs: seq<Tree>, l: seq<Element>, has: bool)
    requires AllMatchable(cs) && Accumulates(a) && FromArgv(l) && !Opens(LeadsAll(a, cs), WordsOf(l))
    ensures var r := RunAll(cs, l);
            !r.matched && Used(a, r.events) == 0 && StraysAll(a, cs, l, has) == 0
    decreases cs, 0
  {
    var r, ws := RunOf(cs[0], l), WordsOf(l);
    if cs[0].Leaf? && cs[0].leaf.Command? && !Mentions(a, cs[0]) {
      CommandRun(cs[0].leaf.name, cs[0].leaf.value, l);
      UnmentionedRun(a, cs[0], l, has);
      if r.matched {
        OpensMore(cs[0].leaf.name, LeadsAll(a, cs[1..]), ws);
        FailsEarlyAll(a, cs[1..], r.left, has);
        OnlyConcat(r.events, RunAll(cs[1..], r.left).events, Name(a));
      }
    } else if NoWords(cs[0]) && !Mentions(a, cs[0]) {
      NoWordsRun(cs[0], l);
      UnmentionedRun(a, cs[0], l, has);
      if r.matched {
        FailsEarlyAll(a, cs[1..], r.left, has);
        OnlyConcat(r.events, RunAll(cs[1..], r.left).events, Name(a));
      }
    } else {
      FailsEarly(a, cs[0], l, has);
    }
  }

  lemma OpensMore(n: Option<string>, ns: seq<Option<string>>, ws: seq<Element>)
    requires ws != [] && SpelledBy(n, ws[0].value) && !Opens([n] + ns, ws)
    ensures !Opens(ns, ws[1..])
  {
    if Opens(ns, ws[1..]) {
      forall i | 0 <= i < |[n] + ns|
        ensures SpelledBy(([n] + ns)[i], ws[i].value)
      {
        if i > 0 {
          assert ([n] + ns)[i] == ns[i - 1] && ws[1..][i - 1] == ws[i];
        }
      }
    }
  }

  /** Where one of two lines matches the other fails early. */
  lemma ApartFails(a: Element, p: Tree, q: Tree, l: seq<Element>)
    requires Matchable(p) && Matchable(q) && Accumulates(a) && FromArgv(l) && Apart(a, p, q) && RunOf(p, l).matched
    ensures !RunOf(q, l).matched && Used(a, RunOf(q, l).events) == 0 && Strays(a, q, l, false) == 0
  {
    var ws := WordsOf(l);
    if !Opens(Leads(a, p), ws) {
      FailsEarly(a, p, l, false);
    }
    var k :| 0 <= k < |Leads(a, p)| && k < |Leads(a, q)| && Leads(a, p)[k] != Leads(a, q)[k];
    OpensOnce(Leads(a, p), Leads(a, q), ws, k);
    FailsEarly(a, q, l, false);
  }

  lemma OpensOnce(ns: seq<Option<string>>, ms: seq<Option<string>>, ws: seq<Element>, k: nat)
    requires Opens(ns, ws) && k < |ns| && k < |ms| && ns[k] != ms[k]
    ensures !Opens(ms, ws)
  {
    assert SpelledBy(ns[k], ws[k].value);
  }

  // ---------- nothing strays ----------

  /** All branches but one leave nothing behind. */
  ghost predicate Silent(a: Element, p: Tree, l: seq<Element>)
    requires Matchable(p)
  {
    Used(a, RunOf(p, l).events) == 0 && Strays(a, p, l, false) == 0
  }

  lemma {:induction false} SilentBranches(a: Element, cs: seq<Tree>, l: seq<Element>)
    requires AllMatchable(cs) && forall i :: 0 <= i < |cs| ==> Silent(a, cs[i], l)
    ensures StraysAny(a, cs, l, false) == 0
  {
    if cs != [] {
      SilentBranches(a, cs[1..], l);
    }
  }

  /** Branch `i`, the `k`-th that matches, is kept, and the others are silent. */
  lemma {:induction false} SilentButOne(a: Element, cs: seq<Tree>, l: seq<Element>, k: nat, i: nat)
    requires AllMatchable(cs) && i < |cs| && k < |RunAny(cs, l)|
    requires BranchOf(cs, l, k) == i
    requires forall j :: 0 <= j < |cs| && j != i ==> Silent(a, cs[j], l)
    requires Strays(a, cs[i], l, false) == 0
    ensures StraysBut(a, cs, l, false, k) == 0
  {
    var r := RunOf(cs[0], l);
    if r.matched && k == 0 {
      SilentBranches(a, cs[1..], l);
    } else {
      assert Silent(a, cs[0], l);
      SilentButOne(a, cs[1..], l, if r.matched then k - 1 else k, i - 1);
    }
  }

  /** A settled pattern that matches and takes something under the name lets nothing stray. */
  lemma {:induction false} SettledStrays(a: Element, p: Tree, l: seq<Element>)
    requires Matchable(p) && Accumulates(a) && FromArgv(l) && Settled(a, p)
    requires RunOf(p, l).matched && Used(a, RunOf(p, l).events) > 0
    ensures Strays(a, p, l, false) == 0
    decreases p, 0
  {
    if Firm(a, p, a.Opt?) {
      FirmStrays(a, p, l, false, a.Opt?);
    } else {
      match p
      case Required(cs) => SettledAllStrays(a, cs, l);
      case Optional(cs) => SettledEachStrays(a, cs, l);
      case OptionsShortcut(cs) => SettledEachStrays(a, cs, l);
      case Either(cs) =>
        var k := Shortest(RunLefts(RunAny(cs, l)));
        var i := BranchOf(cs, l, k);
        SettledStrays(a, cs[i], l);
        UsedIsMentioned(a, cs[i], l);
        forall j | 0 <= j < |cs| && j != i
          ensures Silent(a, cs[j], l)
        {
          if Mentions(a, cs[j]) {
            ApartFails(a, cs[i], cs[j], l);
          } else {
            UnmentionedRun(a, cs[j], l, false);
          }
        }
        SilentButOne(a, cs, l, k, i);
    }
  }

  /** Members that do not mention the name. */
  lemma {:induction false} UnmentionedAll(a: Element, cs: seq<Tree>, l: seq<Element>, has: bool)
    requires AllMatchable(cs) && Accumulates(a) && !MentionsAny(a, cs)
    ensures Used(a, RunAll(cs, l).events) == 0 && StraysAll(a, cs, l, has) == 0
    ensures Used(a, RunEach(cs, l).events) == 0 && StraysEach(a, cs, l, has) == 0
  {
    if cs != [] {
      var r := RunOf(cs[0], l);
      UnmentionedRun(a, cs[0], l, has);
      forall i | 0 <= i < |cs[1..]|
        ensures !Mentions(a, cs[1..][i])
      {
        assert cs[1..][i] == cs[i + 1];
      }
      UnmentionedAll(a, cs[1..], r.left, has);
      OnlyConcat(r.events, RunAll(cs[1..], r.left).events, Name(a));
      OnlyConcat(r.events, RunEach(cs[1..], r.left).events, Name(a));
    }
  }

  lemma {:induction false} SettledAllStrays(a: Element, cs: seq<Tree>, l: seq<Element>)
    requires AllMatchable(cs) && Accumulates(a) && FromArgv(l) && SettledAll(a, cs)
    requires RunAll(cs, l).matched && Used(a, RunAll(cs, l).events) > 0
    ensures StraysAll(a, cs, l, false) == 0
    decreases cs, 0
  {
    if FirmAll(a, cs, a.Opt?) {
      FirmAllStrays(a, cs, l, false, a.Opt?);
    } else {
      var r := RunOf(cs[0], l);
      OnlyConcat(r.events, RunAll(cs[1..], r.left).events, Name(a));
      if !Mentions(a, cs[0]) && SettledAll(a, cs[1..]) {
        UnmentionedRun(a, cs[0], l, false);
        StillFromArgv(cs[0], l);
        SettledAllStrays(a, cs[1..], r.left);
      } else {
        UnmentionedAll(a, cs[1..], r.left, true);
        SettledStrays(a, cs[0], l);
      }
    }
  }

  lemma {:induction false} SettledEachStrays(a: Element, cs: seq<Tree>, l: seq<Element>)
    requires AllMatchable(cs) && Accumulates(a) && FromArgv(l) && SettledEach(a, cs)
    requires Used(a, RunEach(cs, l).events) > 0
    ensures StraysEach(a, cs, l, false) == 0
    decreases cs, 0
  {
    if TameEach(a, cs, a.Opt?) {
      TameEachStrays(a, cs, l, false, a.Opt?);
    } else {
      var r := RunOf(cs[0], l);
      OnlyConcat(r.events, RunEach(cs[1..], r.left).events, Name(a));
      if !Mentions(a, cs[0]) && SettledEach(a, cs[1..]) {
        UnmentionedRun(a, cs[0], l, false);
        StillFromArgv(cs[0], l);
        SettledEachStrays(a, cs[1..], r.left);
      } else {
        UnmentionedAll(a, cs[1..], r.left, true);
        SettledStrays(a, cs[0], l);
      }
    }
  }

  lemma StillFromArgv(p: Tree, l: seq<Element>)
    requires Matchable(p) && FromArgv(l)
    ensures FromArgv(RunOf(p, l).left)
  {
    AlikeSelf(l);
    RunAlike(p, l, l);
  }

  // ---------- usage lines ----------

  /** Lines settled one by one are settled together, if they begin with different commands or
      only one mentions the name; for a word that is not even needed. */
  lemma LinesSettle(a: Element, lines: seq<Tree>)
    requires if a.Opt? then Exclusive(a, lines) && forall i :: 0 <= i < |lines| ==> Settled(a, lines[i])
             else forall i :: 0 <= i < |lines| ==> Firm(a, lines[i], false)
    ensures Settled(a, Required([Either(lines)]))
  {
    var cs: seq<Tree> := [Either(lines)];
    assert cs[1..] == [];
    if a.Opt? {
      assert Settled(a, cs[0]) && !MentionsAny(a, cs[1..]);
    } else {
      assert FirmAll(a, cs[1..], Mentions(a, cs[0]));
      assert FirmAll(a, cs, false);
    }
  }

  /** A command and then what repeats. */
  function CommandLine(command: Element, a: Element): Tree {
    Required([Leaf(command), OneOrMore([Leaf(a)])])
  }

  lemma CommandLineSettles(a: Element, command: Element)
    requires command.Command? && Name(command) != Name(a)
    ensures Firm(a, CommandLine(command, a), a.Opt?)
    ensures Leads(a, CommandLine(command, a)) == [command.name]
  {
    var cs: seq<Tree> := [Leaf(command), OneOrMore([Leaf(a)])];
    assert !Mentions(a, cs[0]);
    assert cs[1..] == [OneOrMore([Leaf(a)])] && cs[1..][1..] == [];
    assert TameAll(a, cs[1..][1..], a.Opt?, true);
    assert Tame(a, cs[1], a.Opt?);
    assert TameAll(a, cs[1..], a.Opt?, a.Opt?);
    assert TameAll(a, cs, a.Opt?, a.Opt?);
    assert LeadsAll(a, cs[1..]) == [];
  }

  /** `c a...` and `d a...`, for a word or an option, and `c a...` and `d`. */
  lemma TwoLinesSettle(a: Element, c: Element, d: Element)
    requires c.Command? && d.Command? && c.name != d.name && Name(c) != Name(a) && Name(d) != Name(a)
    ensures Settled(a, Required([Either([CommandLine(c, a), CommandLine(d, a)])]))
    ensures Settled(a, Required([Either([CommandLine(c, a), Required([Leaf(d)])])]))
  {
    CommandLineSettles(a, c);
    CommandLineSettles(a, d);
    var both, one := [CommandLine(c, a), CommandLine(d, a)], [CommandLine(c, a), Required([Leaf(d)])];
    assert Leads(a, both[0])[0] != Leads(a, both[1])[0];
    LinesSettle(a, both);
    assert !Mentions(a, one[1]);
    UnmentionedIsFirm(a, one[1]);
    LinesSettle(a, one);
  }

  lemma UnmentionedIsFirm(a: Element, p: Tree)
    requires Matchable(p) && !Mentions(a, p)
    ensures Firm(a, p, a.Opt?)
  {
    UnmentionedIsTame(a, p, a.Opt?);
  }
}
