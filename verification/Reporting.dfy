/** The dictionary docopt returns, as read from the shared objects (docopt.py:578-580), and when
it is the one the value reading of Capture.dfy promises.
 */
module Reporting {
  import opened Basics
  import opened Elements
  import opened Patterns
  import opened Matcher
  import opened Language
  import opened Repeats
  import opened Capture
  import opened HeapMatcher
  import opened Telling
  import opened Straying
  import opened Counting
  import opened Steady
  import opened Lines

  function Addrs(n: nat): (xs: seq<Addr>)
    ensures |xs| == n && forall i :: 0 <= i < n ==> xs[i] == i
  {
    seq(n, i => i)
  }

  /** Matching starts with the argv elements in memory and nothing collected. */
  function AtStart(argv: seq<Element>): HeapOutcome {
    HeapOutcome(true, Addrs(|argv|), [], argv)
  }

  /** docopt.py:578-580 on a pattern after `fix` and argv, on shared objects. */
  function Answer(q: Tree, argv: seq<Element>): Option<map<Option<string>, Value>>
    requires Matchable(q)
  {
    var o := HeapMatch(q, Addrs(|argv|), [], argv);
    if o.matched && o.left == [] then Some(DictOf(Leaves(q) + Deref(o.mem, o.collected))) else None
  }

  /** The same on a parsed pattern. */
  ghost function HeapDocopt(p: Tree, argv: seq<Element>): Option<map<Option<string>, Value>>
    requires Matchable(p)
  {
    MatchableMap(p, l => FixedLeaf(p, l));
    Answer(Fixed(p), argv)
  }

  lemma FixedAnswer(p: Tree, argv: seq<Element>)
    requires Matchable(p)
    ensures Matchable(Fixed(p)) && HeapDocopt(p, argv) == Answer(Fixed(p), argv)
  {
    MatchableMap(p, l => FixedLeaf(p, l));
  }

  /** What is told of a leaf before anything is tried: its first argv element, if any. */
  function Untold(a: Element, argv: seq<Element>): Told {
    var i := Find(argv, Name(a));
    Told(false, if i < |argv| then argv[i].value else Null)
  }

  /** What is told of a leaf of the pattern in the end. */
  ghost function ToldOf(p: Tree, argv: seq<Element>, l: Element): Told
    requires Matchable(p)
  {
    MatchableMap(p, l => FixedLeaf(p, l));
    Tell(FixedLeaf(p, l), Fixed(p), argv, Untold(FixedLeaf(p, l), argv))
  }

  // ---------- the start ----------

  lemma DerefStart(argv: seq<Element>)
    ensures Within(Addrs(|argv|), argv) && Deref(argv, Addrs(|argv|)) == argv
  {
  }

  lemma StartTracked(a: Element, argv: seq<Element>) returns (x: Addr)
    requires FromArgv(argv) && Name(a).Some?
    ensures Tracked(a, argv, AtStart(argv), x, Untold(a, argv)) && Standing(argv, AtStart(argv), [])
  {
    DerefStart(argv);
    x := Find(argv, Name(a));
    var none: seq<Addr> := [];
    assert Deref(argv, none) == [];
  }

  lemma {:induction false} SoleMap(q: Tree, f: Element -> Element, a: Element)
    requires forall k :: k in Leaves(q) ==> Name(f(k)).Some? && (Name(f(k)) == Name(a) ==> f(k) == a)
    ensures Sole(MapLeaves(q, f), a)
    decreases q
  {
    if !q.Leaf? {
      forall i | 0 <= i < |q.children|
        ensures Sole(MapLeaves(q.children[i], f), a)
      {
        forall k | k in Leaves(q.children[i])
          ensures k in Leaves(q)
        {
          LeavesOfCovers(q.children, i, k);
        }
        SoleMap(q.children[i], f, a);
      }
    }
  }

  lemma SoleFixed(p: Tree, l: Element)
    requires WellFormed(p) && l in Leaves(p)
    ensures Sole(Fixed(p), FixedLeaf(p, l)) && Name(FixedLeaf(p, l)) == Name(l) && Name(l).Some?
  {
    SoleMap(p, k => FixedLeaf(p, k), FixedLeaf(p, l));
  }

  // ---------- the end ----------

  /** The entries have the names of the value reading; the one of `a` has the value told. */
  lemma EntriesTold(q: Tree, a: Element, argv: seq<Element>) returns (y: Addr)
    requires Matchable(q) && Sole(q, a) && Name(a).Some? && FromArgv(argv)
    ensures var o, r := HeapMatch(q, Addrs(|argv|), [], argv), RunOf(q, argv);
            && Within(o.left, argv) && o.matched == r.matched && Deref(argv, o.left) == r.left
            && SameNames(CollectAll([], r.events), Deref(o.mem, o.collected))
            && EntryIs(a, o.collected, o.mem, y, Tell(a, q, argv, Untold(a, argv)))
  {
    DerefStart(argv);
    var x := StartTracked(a, argv);
    y := Tracks(a, q, argv, AtStart(argv), [], x, Untold(a, argv));
  }

  lemma SameNamesDistinct(c: seq<Element>, d: seq<Element>)
    requires SameNames(c, d) && DistinctNames(c)
    ensures DistinctNames(d)
  {
  }

  /** What the dictionary holds for a leaf, `d` being what was collected. */
  lemma EntryReported(p: Tree, c: seq<Element>, d: seq<Element>, es: seq<Event>, l: Element, told: Value)
    requires WellFormed(p) && l in Leaves(p) && Gathers(c, es) && SameNames(c, d)
    requires Find(d, Name(l)) < |d| ==> d[Find(d, Name(l))].value == told
    ensures var result := DictOf(Leaves(Fixed(p)) + d);
            && Name(l) in result
            && result[Name(l)] == if Only(es, Name(l)) == [] then FixedLeaf(p, l).value else told
  {
    var j := Find(d, Name(l));
    SameNamesDistinct(c, d);
    EntryIffCaptured(c, es, Name(l));
    FindNames(c, d, Name(l));
    if j < |d| {
      EntryWins(Leaves(Fixed(p)), d, j);
    } else {
      LeavesMap(p, l => FixedLeaf(p, l));
      var i :| 0 <= i < |Leaves(p)| && Leaves(p)[i] == l;
      DefaultStays(p, d, i);
    }
  }

  /** What docopt reports, exactly: it accepts what the value reading accepts, and a leaf that
      took something is reported with the value `Tell` follows through all that was tried. */
  ghost predicate HeapReports(p: Tree, argv: seq<Element>, es: seq<Event>, l: Element)
    requires Matchable(p) && HeapDocopt(p, argv).Some?
  {
    && Name(l) in HeapDocopt(p, argv).value
    && HeapDocopt(p, argv).value[Name(l)]
       == if Only(es, Name(l)) == [] then FixedLeaf(p, l).value else ToldOf(p, argv, l).value
  }

  lemma SameAcceptance(p: Tree, argv: seq<Element>)
    requires WellFormed(p) && FromArgv(argv) && Matchable(Fixed(p))
    requires forall l :: l in Leaves(p) ==> Name(l).Some?
    ensures HeapDocopt(p, argv).Some? <==> Docopt(p, argv).Some?
  {
    DerefStart(argv);
    NamedMap(p, l => FixedLeaf(p, l));
    HeapControl(Fixed(p), Addrs(|argv|), [], argv);
    MatchIsRun(Fixed(p), argv, []);
  }

  lemma {:induction false} NamedMap(q: Tree, f: Element -> Element)
    requires forall k :: k in Leaves(q) ==> Name(f(k)).Some?
    ensures NamedTree(MapLeaves(q, f))
    decreases q
  {
    if !q.Leaf? {
      forall i | 0 <= i < |q.children|
        ensures NamedTree(MapLeaves(q.children[i], f))
      {
        forall k | k in Leaves(q.children[i])
          ensures k in Leaves(q)
        {
          LeavesOfCovers(q.children, i, k);
        }
        NamedMap(q.children[i], f);
      }
    }
  }

  /** `es` are the matches that are kept; they use up argv in order. */
  ghost predicate Kept(p: Tree, argv: seq<Element>, es: seq<Event>)
    requires Matchable(p)
  {
    MatchableMap(p, l => FixedLeaf(p, l));
    var r := RunOf(Fixed(p), argv);
    r.matched && es == r.events && InLang(Fixed(p), es) && TakesInOrder(argv, es, [])
  }

  /** When docopt accepts, the argv elements are split among the leaves with none left over;
      the value reading reports for each leaf all it took, the shared objects what is told. */
  lemma BothReported(p: Tree, argv: seq<Element>) returns (es: seq<Event>)
    requires WellFormed(p) && TypedArgv(Leaves(p), argv) && FromArgv(argv)
    requires HeapDocopt(p, argv).Some?
    ensures Docopt(p, argv).Some?
    ensures Kept(p, argv, es) && multiset(Items(es)) == multiset(argv)
    ensures forall l :: l in Leaves(p) ==> Reports(Docopt(p, argv).value, p, es, l) && HeapReports(p, argv, es, l)
  {
    MatchableMap(p, l => FixedLeaf(p, l));
    SameAcceptance(p, argv);
    es := NothingOverwritten(p, argv);
    TakesExactly(argv, Items(es), []);
    MatchIsRun(Fixed(p), argv, []);
    forall l | l in Leaves(p)
      ensures Reports(Docopt(p, argv).value, p, es, l) && HeapReports(p, argv, es, l)
    {
      LeafReported(p, Match(Fixed(p), argv, []).collected, es, l);
      HeapLeafReported(p, argv, es, l);
    }
  }

  lemma HeapLeafReported(p: Tree, argv: seq<Element>, es: seq<Event>, l: Element)
    requires WellFormed(p) && FromArgv(argv) && l in Leaves(p)
    requires Matchable(Fixed(p)) && HeapDocopt(p, argv).Some?
    requires es == RunOf(Fixed(p), argv).events && Gathers(CollectAll([], es), es)
    ensures HeapReports(p, argv, es, l)
  {
    var o := HeapMatch(Fixed(p), Addrs(|argv|), [], argv);
    SoleFixed(p, l);
    var y := EntriesTold(Fixed(p), FixedLeaf(p, l), argv);
    EntryReported(p, CollectAll([], es), Deref(o.mem, o.collected), es, l, ToldOf(p, argv, l).value);
  }

  // ---------- exactness ----------

  /** Only names of leaves are reported. */
  lemma {:induction false} DictKeys(es: seq<Element>, n: Option<string>)
    ensures n in DictOf(es) <==> exists i :: 0 <= i < |es| && Name(es[i]) == n
  {
    if es != [] {
      var last := |es| - 1;
      DictKeys(es[..last], n);
      if i :| 0 <= i < |es[..last]| && Name(es[..last][i]) == n {
        assert Name(es[i]) == n;
      }
      if i :| 0 <= i < |es| && Name(es[i]) == n && i < last {
        assert Name(es[..last][i]) == n;
      }
    }
  }

  ghost predicate IsLeafName(p: Tree, n: Option<string>) {
    exists l :: l in Leaves(p) && Name(l) == n
  }

  lemma FixedNames(p: Tree, i: nat)
    requires i < |Leaves(Fixed(p))|
    ensures IsLeafName(p, Name(Leaves(Fixed(p))[i]))
  {
    LeavesMap(p, l => FixedLeaf(p, l));
    var l := Leaves(p)[i];
    assert l in Leaves(p) && Leaves(Fixed(p))[i] == FixedLeaf(p, l);
  }

  predicate HasName(es: seq<Element>, i: nat, n: Option<string>) {
    i < |es| && Name(es[i]) == n
  }

  lemma KeyOrigin(ls: seq<Element>, d: seq<Element>, n: Option<string>) returns (fromLeaf: bool, i: nat)
    requires n in DictOf(ls + d)
    ensures if fromLeaf then HasName(ls, i, n) else HasName(d, i, n)
  {
    DictKeys(ls + d, n);
    i :| 0 <= i < |ls + d| && Name((ls + d)[i]) == n;
    fromLeaf := i < |ls|;
    if !fromLeaf {
      i := i - |ls|;
    }
  }

  lemma KeysAreLeaves(p: Tree, d: seq<Element>, n: Option<string>)
    requires n in DictOf(Leaves(Fixed(p)) + d)
    requires forall i :: 0 <= i < |d| ==> IsLeafName(p, Name(d[i]))
    ensures IsLeafName(p, n)
  {
    var fromLeaf, i := KeyOrigin(Leaves(Fixed(p)), d, n);
    if fromLeaf {
      FixedNames(p, i);
    }
  }

  /** Entries are named after leaves. */
  lemma NamesAreLeaves(p: Tree, c: seq<Element>, es: seq<Event>, i: nat)
    requires WellFormed(p) && Gathers(c, es) && InLang(Fixed(p), es) && i < |c|
    ensures IsLeafName(p, Name(c[i]))
  {
    assert HoldsAll(c[i], es);
    var e := Only(es, Name(c[i]))[0];
    assert e in Only(es, Name(c[i]));
    WordLeaves(Fixed(p), es, e);
    LeavesMap(p, l => FixedLeaf(p, l));
    var k :| 0 <= k < |Leaves(Fixed(p))| && Leaves(Fixed(p))[k] == e.leaf;
    assert Leaves(p)[k] in Leaves(p);
  }

  /** The value told of every leaf that took something is all of what it took. */
  ghost predicate AllTold(p: Tree, argv: seq<Element>, es: seq<Event>)
    requires Matchable(p)
  {
    forall l :: l in Leaves(p) && Only(es, Name(l)) != [] ==> ToldOf(p, argv, l).value == Gathered(Only(es, Name(l)))
  }

  ghost predicate Dictionaries(p: Tree, argv: seq<Element>, es: seq<Event>)
    requires Matchable(p)
  {
    && HeapDocopt(p, argv).Some? && Docopt(p, argv).Some?
    && forall l :: l in Leaves(p) ==> Reports(Docopt(p, argv).value, p, es, l) && HeapReports(p, argv, es, l)
  }

  lemma RightIsTold(p: Tree, argv: seq<Element>, es: seq<Event>)
    requires Matchable(p) && Dictionaries(p, argv, es)
    requires HeapDocopt(p, argv) == Docopt(p, argv)
    ensures AllTold(p, argv, es)
  {
    forall l | l in Leaves(p) && Only(es, Name(l)) != []
      ensures ToldOf(p, argv, l).value == Gathered(Only(es, Name(l)))
    {
      assert Reports(Docopt(p, argv).value, p, es, l) && HeapReports(p, argv, es, l);
    }
  }

  lemma ToldIsRight(p: Tree, argv: seq<Element>, es: seq<Event>)
    requires WellFormed(p) && TypedArgv(Leaves(p), argv) && FromArgv(argv)
    requires Dictionaries(p, argv, es) && AllTold(p, argv, es)
    ensures HeapDocopt(p, argv) == Docopt(p, argv)
    ensures forall l :: l in Leaves(p) ==> Reports(HeapDocopt(p, argv).value, p, es, l)
  {
    var v, w := Docopt(p, argv).value, HeapDocopt(p, argv).value;
    ValueKeys(p, argv);
    HeapKeys(p, argv);
    forall l | l in Leaves(p)
      ensures Reports(w, p, es, l) && Name(l) in v && Name(l) in w && v[Name(l)] == w[Name(l)]
    {
      assert Reports(v, p, es, l) && HeapReports(p, argv, es, l);
    }
    SameMap(p, v, w);
  }

  /** Every name in the result is one of a leaf. */
  ghost predicate OnlyLeaves(p: Tree, v: map<Option<string>, Value>) {
    forall n :: n in v ==> IsLeafName(p, n)
  }

  lemma SameMap(p: Tree, v: map<Option<string>, Value>, w: map<Option<string>, Value>)
    requires OnlyLeaves(p, v) && OnlyLeaves(p, w)
    requires forall l :: l in Leaves(p) ==> Name(l) in v && Name(l) in w && v[Name(l)] == w[Name(l)]
    ensures v == w
  {
  }

  lemma ValueKeys(p: Tree, argv: seq<Element>)
    requires WellFormed(p) && TypedArgv(Leaves(p), argv)
    requires Docopt(p, argv).Some?
    ensures OnlyLeaves(p, Docopt(p, argv).value)
  {
    MatchableMap(p, l => FixedLeaf(p, l));
    var c := Match(Fixed(p), argv, []).collected;
    var es := NothingOverwritten(p, argv);
    EntriesAreLeaves(p, c, es, c);
  }

  lemma EntriesAreLeaves(p: Tree, c: seq<Element>, es: seq<Event>, d: seq<Element>)
    requires WellFormed(p) && Gathers(c, es) && InLang(Fixed(p), es) && SameNames(c, d)
    ensures OnlyLeaves(p, DictOf(Leaves(Fixed(p)) + d))
  {
    forall i | 0 <= i < |d|
      ensures IsLeafName(p, Name(d[i]))
    {
      NamesAreLeaves(p, c, es, i);
    }
    forall n | n in DictOf(Leaves(Fixed(p)) + d)
      ensures IsLeafName(p, n)
    {
      KeysAreLeaves(p, d, n);
    }
  }

  lemma HeapKeys(p: Tree, argv: seq<Element>)
    requires WellFormed(p) && TypedArgv(Leaves(p), argv) && FromArgv(argv)
    requires HeapDocopt(p, argv).Some? && Docopt(p, argv).Some?
    ensures OnlyLeaves(p, HeapDocopt(p, argv).value)
  {
    MatchableMap(p, l => FixedLeaf(p, l));
    var es := NothingOverwritten(p, argv);
    MatchIsRun(Fixed(p), argv, []);
    var o, c := HeapMatch(Fixed(p), Addrs(|argv|), [], argv), Match(Fixed(p), argv, []).collected;
    NamesAlike(p, argv);
    EntriesAreLeaves(p, c, es, Deref(o.mem, o.collected));
  }

  lemma NamesAlike(p: Tree, argv: seq<Element>)
    requires WellFormed(p) && FromArgv(argv) && Matchable(Fixed(p))
    ensures var o := HeapMatch(Fixed(p), Addrs(|argv|), [], argv);
            SameNames(Match(Fixed(p), argv, []).collected, Deref(o.mem, o.collected))
  {
    MatchIsRun(Fixed(p), argv, []);
    var a := SomeSole(p);
    var y := EntriesTold(Fixed(p), a, argv);
  }

  lemma SomeSole(p: Tree) returns (a: Element)
    requires WellFormed(p)
    ensures Sole(Fixed(p), a) && Name(a).Some?
  {
    if l :| l in Leaves(p) {
      SoleFixed(p, l);
      a := FixedLeaf(p, l);
    } else {
      a := Command(Some(""), Null);
      SoleMap(p, l => FixedLeaf(p, l), a);
    }
  }

  // ---------- strays decide ----------

  /** The additions under the name of a leaf that stay though their match does not. */
  ghost function StraysOf(p: Tree, argv: seq<Element>, l: Element): nat
    requires Matchable(p)
  {
    MatchableMap(p, l => FixedLeaf(p, l));
    Strays(FixedLeaf(p, l), Fixed(p), argv, false)
  }

  /** Taking an element of another name leaves the first of the name the same. */
  lemma DropKeepsFirst(l: seq<Element>, pos: nat, n: Option<string>)
    requires pos < |l| && Name(l[pos]) != n && FromArgv(l)
    ensures var m := Drop(l, pos);
            && FromArgv(m)
            && (Find(m, n) < |m| ==> Find(l, n) < |l| && l[Find(l, n)] == m[Find(m, n)])
  {
    FindDropOther(l, pos, n);
  }

  /** What a leaf of another name takes is not an option of the name. */
  lemma TakesOther(self: Element, l: seq<Element>, n: Option<string>)
    requires FromArgv(l) && n.Some? && Name(self) != n && SingleMatch(self, l) < |l|
    ensures Name(l[SingleMatch(self, l)]) != n
  {
    SingleMatchFits(self, l);
  }

  lemma OnlyHead(es: seq<Event>, n: Option<string>)
    requires es != []
    ensures Only(es, n) == (if Name(es[0].leaf) == n then [es[0]] else []) + Only(es[1..], n)
  {
    assert es == [es[0]] + es[1..];
    OnlyConcat([es[0]], es[1..], n);
    assert [es[0]][..0] == [];
  }

  /** The matches of an option that counts which a later beginning makes it forget. */
  ghost function ForgottenOf(p: Tree, argv: seq<Element>, l: Element): nat
    requires Matchable(p)
  {
    MatchableMap(p, l => FixedLeaf(p, l));
    var a := FixedLeaf(p, l);
    if CountsOption(a) then Forgotten(Tape(a, Fixed(p), argv, false)) else 0
  }

  /** As many matches that are discarded stay as are forgotten: for words and lists, none. */
  ghost predicate Balanced(p: Tree, argv: seq<Element>, l: Element)
    requires Matchable(p)
  {
    StraysOf(p, argv, l) == ForgottenOf(p, argv, l)
  }

  /** The first event of an option's name takes its first argv element. */
  lemma {:induction false} FirstTaken(argv: seq<Element>, es: seq<Event>, e: Event, rest: seq<Element>)
    requires TakesInOrder(argv, es + [e], rest) && FromArgv(argv) && Only(es, Name(e.leaf)) == []
    requires e.leaf.Opt? && Name(e.leaf).Some?
    ensures var i := Find(argv, Name(e.leaf)); i < |argv| && argv[i] == e.item
    decreases |es|
  {
    if es == [] {
      assert es + [e] == [e];
      OrderHead(argv, [e], rest);
    } else {
      var n, self := Name(e.leaf), es[0].leaf;
      var pos := SingleMatch(self, argv);
      assert (es + [e])[0] == es[0] && (es + [e])[1..] == es[1..] + [e];
      OrderHead(argv, es + [e], rest);
      OnlyHead(es, n);
      TakesOther(self, argv, n);
      DropKeepsFirst(argv, pos, n);
      FirstTaken(Drop(argv, pos), es[1..], e, rest);
    }
  }

  lemma {:induction false} OrderPrefix(argv: seq<Element>, es: seq<Event>, fs: seq<Event>, rest: seq<Element>) returns (m: seq<Element>)
    requires TakesInOrder(argv, es + fs, rest)
    ensures TakesInOrder(argv, es, m)
    decreases |es|
  {
    if es == [] {
      m := argv;
    } else {
      assert (es + fs)[0] == es[0] && (es + fs)[1..] == es[1..] + fs;
      OrderHead(argv, es + fs, rest);
      m := OrderPrefix(Drop(argv, SingleMatch(es[0].leaf, argv)), es[1..], fs, rest);
      OrderHead(argv, es, m);
    }
  }

  ghost predicate KeptRight(a: Element, argv: seq<Element>, ds: seq<Event>) {
    Used(a, ds) > 0 ==> Keep(a, Untold(a, argv), ds).value == Gathered(Only(ds, Name(a)))
  }

  /** The kept matches alone make of it all that was taken. */
  lemma KeptIsGathered(a: Element, argv: seq<Element>, es: seq<Event>, rest: seq<Element>)
    requires Orderly(es) && FromArgv(argv) && TakesInOrder(argv, es, rest)
    requires forall e :: e in es && Name(e.leaf) == Name(a) ==> e.leaf == a
    ensures Used(a, es) > 0 ==> Keep(a, Untold(a, argv), es).value == Gathered(Only(es, Name(a)))
  {
    KeptUpTo(a, argv, es, rest, |es|);
    assert es[..|es|] == es;
  }

  lemma {:induction false} KeptUpTo(a: Element, argv: seq<Element>, es: seq<Event>, rest: seq<Element>, k: nat)
    requires Orderly(es) && FromArgv(argv) && TakesInOrder(argv, es, rest) && k <= |es|
    requires forall e :: e in es && Name(e.leaf) == Name(a) ==> e.leaf == a
    ensures KeptRight(a, argv, es[..k])
  {
    if k > 0 {
      KeptUpTo(a, argv, es, rest, k - 1);
      KeptStep(a, argv, es, rest, k - 1);
    }
  }

  lemma KeptStep(a: Element, argv: seq<Element>, es: seq<Event>, rest: seq<Element>, k: nat)
    requires Orderly(es) && FromArgv(argv) && TakesInOrder(argv, es, rest) && k < |es| && KeptRight(a, argv, es[..k])
    requires Name(es[k].leaf) == Name(a) ==> es[k].leaf == a
    ensures KeptRight(a, argv, es[..k + 1])
  {
    var m := FrontTaken(argv, es, rest, k);
    OrderlyFront(es, k);
    KeptOneMore(a, argv, es[..k], es[k], m);
    assert es[..k + 1] == es[..k] + [es[k]];
  }

  lemma FrontTaken(argv: seq<Element>, es: seq<Event>, rest: seq<Element>, k: nat) returns (m: seq<Element>)
    requires TakesInOrder(argv, es, rest) && k < |es|
    ensures TakesInOrder(argv, es[..k] + [es[k]], m)
  {
    assert es[..k] + [es[k]] + es[k + 1..] == es;
    m := OrderPrefix(argv, es[..k] + [es[k]], es[k + 1..], rest);
  }

  lemma OrderlyFront(es: seq<Event>, k: nat)
    requires Orderly(es) && k < |es|
    ensures Orderly(es[..k] + [es[k]]) && OrderlyEvent(es[k])
  {
    assert es[..k] + [es[k]] == es[..k + 1];
    assert es[k] in es;
    assert forall e :: e in es[..k + 1] ==> e in es;
  }

  lemma KeptOneMore(a: Element, argv: seq<Element>, ds: seq<Event>, e: Event, rest: seq<Element>)
    requires Orderly(ds + [e]) && OrderlyEvent(e) && FromArgv(argv) && TakesInOrder(argv, ds + [e], rest)
    requires Name(e.leaf) == Name(a) ==> e.leaf == a
    requires KeptRight(a, argv, ds)
    ensures KeptRight(a, argv, ds + [e])
  {
    if e.leaf == a {
      if Only(ds, Name(a)) == [] {
        FirstKept(a, argv, ds, e, rest);
      } else {
        NextKept(a, ds, e);
      }
    }
    KeptMore(a, Untold(a, argv), ds, e);
  }

  lemma KeptMore(a: Element, u: Told, ds: seq<Event>, e: Event)
    requires !u.has && (Name(e.leaf) == Name(a) ==> e.leaf == a)
    requires e.leaf == a && Only(ds, Name(a)) == [] ==> Begin(a, e.item, u.value) == Gathered([e])
    requires e.leaf == a && Only(ds, Name(a)) != [] ==>
               && Accumulates(a)
               && Plus(Gathered(Only(ds, Name(a))), Increment(a, MatchOf(a, e.item))) == Gathered(Only(ds, Name(a)) + [e])
    requires Used(a, ds) > 0 ==> Keep(a, u, ds).value == Gathered(Only(ds, Name(a)))
    ensures Used(a, ds + [e]) > 0 ==> Keep(a, u, ds + [e]).value == Gathered(Only(ds + [e], Name(a)))
  {
    KeepHas(a, u, ds);
    KeepSnoc(a, u, ds, e);
    OnlySnoc(ds, e, Name(a));
    if Name(e.leaf) == Name(a) && Only(ds, Name(a)) == [] {
      assert Only(ds + [e], Name(a)) == [e];
    }
  }

  lemma KeepSnoc(a: Element, s: Told, ds: seq<Event>, e: Event)
    ensures Keep(a, s, ds + [e]) == KeepOne(a, Keep(a, s, ds), e)
  {
    assert (ds + [e])[..|ds|] == ds;
  }

  lemma FirstKept(a: Element, argv: seq<Element>, ds: seq<Event>, e: Event, rest: seq<Element>)
    requires OrderlyEvent(e) && FromArgv(argv) && TakesInOrder(argv, ds + [e], rest)
    requires e.leaf == a && Only(ds, Name(a)) == []
    ensures Begin(a, e.item, Untold(a, argv).value) == Gathered([e])
  {
    if a.Opt? {
      FirstTaken(argv, ds, e, rest);
    }
    FirstValue(e);
  }

  lemma NextKept(a: Element, ds: seq<Event>, e: Event)
    requires Orderly(ds + [e]) && OrderlyEvent(e) && e.leaf == a && Only(ds, Name(a)) != []
    ensures Accumulates(a)
    ensures Plus(Gathered(Only(ds, Name(a))), Increment(a, MatchOf(a, e.item))) == Gathered(Only(ds, Name(a)) + [e])
  {
    var f := Only(ds, Name(a))[0];
    assert f in Only(ds, Name(a));
    OrderlyPair(ds, e, f);
    OneMore(Only(ds, Name(a)), e);
  }

  lemma FixedPart(p: Tree, argv: seq<Element>, l: Element)
    requires WellFormed(p) && TypedArgv(Leaves(p), argv) && l in Leaves(p)
    ensures var a := FixedLeaf(p, l); Part(a, argv, argv) && Kinds(a, argv, Untold(a, argv))
  {
    var a := FixedLeaf(p, l);
    assert Fresh(l);
    forall item | item in argv && Fits(a, item) && TakesText(a)
      ensures item.value.Text?
    {
      assert Fits(l, item);
    }
    var i := Find(argv, Name(a));
    if i < |argv| {
      assert argv[i] in argv;
    }
  }

  lemma GatheredWeighs(fs: seq<Event>)
    requires fs != [] && Accumulates(fs[0].leaf)
    ensures Weight(Gathered(fs)) == |fs|
  {
  }

  /** The leaf of the kept matches of a name. */
  lemma KeptLeaf(p: Tree, argv: seq<Element>, es: seq<Event>, l: Element)
    requires WellFormed(p) && Kept(p, argv, es) && l in Leaves(p)
    ensures forall e :: e in es && Name(e.leaf) == Name(FixedLeaf(p, l)) ==> e.leaf == FixedLeaf(p, l)
  {
    forall e | e in es && Name(e.leaf) == Name(FixedLeaf(p, l))
      ensures e.leaf == FixedLeaf(p, l)
    {
      WordLeaves(Fixed(p), es, e);
      var k := FixedLeafOrigin(p, e.leaf);
      assert Name(k) == Name(l);
    }
  }

  lemma UntoldSize(p: Tree, argv: seq<Element>, l: Element)
    requires WellFormed(p) && TypedArgv(Leaves(p), argv) && l in Leaves(p)
    ensures var a := FixedLeaf(p, l); Size(a, Untold(a, argv)) == 0
  {
    FixedPart(p, argv, l);
    var a := FixedLeaf(p, l);
    var i := Find(argv, Name(a));
    if i < |argv| {
      assert argv[i] in argv;
    }
  }

  lemma GatheredSize(p: Tree, argv: seq<Element>, es: seq<Event>, l: Element)
    requires WellFormed(p) && Kept(p, argv, es)
    requires l in Leaves(p) && Used(l, es) > 0 && Accumulates(FixedLeaf(p, l))
    ensures Weight(Gathered(Only(es, Name(l)))) == Used(l, es)
    ensures CountsOption(FixedLeaf(p, l)) ==> Gathered(Only(es, Name(l))) == Count(Used(l, es))
  {
    KeptLeaf(p, argv, es, l);
    var e := Only(es, Name(l))[0];
    assert e in Only(es, Name(l));
    GatheredWeighs(Only(es, Name(l)));
  }

  /** What is told of a leaf that accumulates is all it took and all that strayed, less what it
      was made to forget. */
  lemma ToldAndStrays(p: Tree, argv: seq<Element>, es: seq<Event>, l: Element)
    requires WellFormed(p) && TypedArgv(Leaves(p), argv) && Kept(p, argv, es)
    requires l in Leaves(p) && Used(l, es) > 0 && Accumulates(FixedLeaf(p, l))
    ensures Weight(ToldOf(p, argv, l).value) == Used(l, es) + StraysOf(p, argv, l) - ForgottenOf(p, argv, l)
    ensures CountsOption(FixedLeaf(p, l)) ==> ToldOf(p, argv, l).value.Count?
  {
    var a := FixedLeaf(p, l);
    MatchableMap(p, l => FixedLeaf(p, l));
    SoleFixed(p, l);
    if CountsOption(a) {
      CountIs(a, Fixed(p), argv, Untold(a, argv).value);
    } else {
      FixedPart(p, argv, l);
      UntoldSize(p, argv, l);
      EveryStrayShows(a, Fixed(p), argv, argv, Untold(a, argv));
    }
  }

  lemma ToldIsKept(a: Element, q: Tree, argv: seq<Element>)
    requires Matchable(q) && Strays(a, q, argv, false) == 0 && Used(a, RunOf(q, argv).events) > 0
    ensures Tell(a, q, argv, Untold(a, argv)).value == Keep(a, Untold(a, argv), RunOf(q, argv).events).value
  {
    var u := Untold(a, argv);
    NoStrays(a, q, argv, u, u);
    KeepHas(a, u, RunOf(q, argv).events);
  }

  /** Without strays all that was taken is told. */
  lemma ToldWithoutStrays(p: Tree, argv: seq<Element>, es: seq<Event>, l: Element)
    requires WellFormed(p) && TypedArgv(Leaves(p), argv) && FromArgv(argv) && Kept(p, argv, es)
    requires l in Leaves(p) && Used(l, es) > 0 && StraysOf(p, argv, l) == 0
    ensures ToldOf(p, argv, l).value == Gathered(Only(es, Name(l)))
  {
    var a := FixedLeaf(p, l);
    MatchableMap(p, l => FixedLeaf(p, l));
    ToldIsKept(a, Fixed(p), argv);
    KeptLeaf(p, argv, es, l);
    KeptOrderly(p, argv, es);
    KeptIsGathered(a, argv, es, []);
  }

  lemma KeptOrderly(p: Tree, argv: seq<Element>, es: seq<Event>)
    requires WellFormed(p) && TypedArgv(Leaves(p), argv) && Kept(p, argv, es)
    ensures Orderly(es)
  {
    OrderTakes(argv, es, []);
    EventItems(es, argv, []);
    WordsOfFixedAreOrderly(p, argv, es);
  }

  lemma PlainNeverStrays(p: Tree, argv: seq<Element>, l: Element)
    requires Matchable(p) && !Accumulates(FixedLeaf(p, l))
    ensures StraysOf(p, argv, l) == 0
  {
    var a := FixedLeaf(p, l);
    MatchableMap(p, l => FixedLeaf(p, l));
    PlainUnmentioned(a, Fixed(p));
    UnmentionedIsTame(a, Fixed(p), true);
    TameStrays(a, Fixed(p), argv, false, true);
  }

  lemma ToldExactly(p: Tree, argv: seq<Element>, es: seq<Event>, l: Element)
    requires WellFormed(p) && TypedArgv(Leaves(p), argv) && FromArgv(argv) && Kept(p, argv, es)
    requires l in Leaves(p) && Used(l, es) > 0
    ensures ToldOf(p, argv, l).value == Gathered(Only(es, Name(l))) <==> Balanced(p, argv, l)
  {
    if StraysOf(p, argv, l) == 0 {
      ToldWithoutStrays(p, argv, es, l);
    }
    if Accumulates(FixedLeaf(p, l)) {
      ToldAndStrays(p, argv, es, l);
      GatheredSize(p, argv, es, l);
    } else {
      PlainNeverStrays(p, argv, l);
    }
  }

  /** docopt's dictionary is the one the value reading promises if and only if, under the name
      of every leaf that took something, as many discarded matches stay as are forgotten. */
  lemma RightExactly(p: Tree, argv: seq<Element>) returns (es: seq<Event>)
    requires WellFormed(p) && TypedArgv(Leaves(p), argv) && FromArgv(argv)
    requires HeapDocopt(p, argv).Some?
    ensures Kept(p, argv, es) && multiset(Items(es)) == multiset(argv)
    ensures HeapDocopt(p, argv) == Docopt(p, argv)
       <==> forall l :: l in Leaves(p) && Used(l, es) > 0 ==> Balanced(p, argv, l)
    ensures HeapDocopt(p, argv) == Docopt(p, argv) ==>
              forall l :: l in Leaves(p) ==> Reports(HeapDocopt(p, argv).value, p, es, l)
  {
    es := BothReported(p, argv);
    ToldIffBalanced(p, argv, es);
    if HeapDocopt(p, argv) == Docopt(p, argv) {
      RightIsTold(p, argv, es);
    }
    if AllTold(p, argv, es) {
      ToldIsRight(p, argv, es);
    }
  }

  lemma ToldIffBalanced(p: Tree, argv: seq<Element>, es: seq<Event>)
    requires WellFormed(p) && TypedArgv(Leaves(p), argv) && FromArgv(argv) && Kept(p, argv, es)
    ensures AllTold(p, argv, es) <==> forall l :: l in Leaves(p) && Used(l, es) > 0 ==> Balanced(p, argv, l)
  {
    forall l | l in Leaves(p) && Used(l, es) > 0
      ensures ToldOf(p, argv, l).value == Gathered(Only(es, Name(l))) <==> Balanced(p, argv, l)
    {
      ToldExactly(p, argv, es, l);
    }
  }

  /** The dictionary reports for each leaf everything it took under the same condition. */
  lemma ReportsExactly(p: Tree, argv: seq<Element>) returns (es: seq<Event>)
    requires WellFormed(p) && TypedArgv(Leaves(p), argv) && FromArgv(argv)
    requires HeapDocopt(p, argv).Some?
    ensures Kept(p, argv, es) && multiset(Items(es)) == multiset(argv)
    ensures (forall l :: l in Leaves(p) ==> Reports(HeapDocopt(p, argv).value, p, es, l))
       <==> forall l :: l in Leaves(p) && Used(l, es) > 0 ==> Balanced(p, argv, l)
  {
    es := BothReported(p, argv);
    forall l | l in Leaves(p) && Used(l, es) > 0
      ensures Reports(HeapDocopt(p, argv).value, p, es, l) <==> Balanced(p, argv, l)
    {
      assert HeapReports(p, argv, es, l);
      ToldExactly(p, argv, es, l);
    }
    forall l | l in Leaves(p) && Used(l, es) == 0
      ensures Reports(HeapDocopt(p, argv).value, p, es, l)
    {
      assert HeapReports(p, argv, es, l);
    }
  }

  /** How far the two dictionaries are apart. */
  lemma ReportedExactly(p: Tree, argv: seq<Element>) returns (es: seq<Event>)
    requires WellFormed(p) && TypedArgv(Leaves(p), argv) && FromArgv(argv)
    requires HeapDocopt(p, argv).Some?
    ensures Kept(p, argv, es) && Docopt(p, argv).Some?
    ensures forall l :: l in Leaves(p) && Used(l, es) > 0 && Accumulates(FixedLeaf(p, l)) ==>
              && Name(l) in HeapDocopt(p, argv).value && Name(l) in Docopt(p, argv).value
              && Weight(Docopt(p, argv).value[Name(l)]) == Used(l, es)
              && Weight(HeapDocopt(p, argv).value[Name(l)])
                 == Used(l, es) + StraysOf(p, argv, l) - ForgottenOf(p, argv, l)
  {
    es := BothReported(p, argv);
    forall l | l in Leaves(p) && Used(l, es) > 0 && Accumulates(FixedLeaf(p, l))
      ensures Name(l) in HeapDocopt(p, argv).value && Name(l) in Docopt(p, argv).value
      ensures Weight(Docopt(p, argv).value[Name(l)]) == Used(l, es)
      ensures Weight(HeapDocopt(p, argv).value[Name(l)]) == Used(l, es) + StraysOf(p, argv, l) - ForgottenOf(p, argv, l)
    {
      assert Reports(Docopt(p, argv).value, p, es, l) && HeapReports(p, argv, es, l);
      ToldAndStrays(p, argv, es, l);
      GatheredSize(p, argv, es, l);
    }
  }

  /** Words and lists are never reported short: what strays is reported on top. */
  lemma NeverShort(p: Tree, argv: seq<Element>) returns (es: seq<Event>)
    requires WellFormed(p) && TypedArgv(Leaves(p), argv) && FromArgv(argv)
    requires HeapDocopt(p, argv).Some?
    ensures Kept(p, argv, es) && Docopt(p, argv).Some?
    ensures forall l :: l in Leaves(p) && Used(l, es) > 0 && Grows(FixedLeaf(p, l)) ==>
              && Name(l) in HeapDocopt(p, argv).value && Name(l) in Docopt(p, argv).value
              && Weight(HeapDocopt(p, argv).value[Name(l)])
                 == Weight(Docopt(p, argv).value[Name(l)]) + StraysOf(p, argv, l)
  {
    es := ReportedExactly(p, argv);
  }

  /** Without strays a leaf of any kind is reported right, an option that counts included. */
  lemma WithoutStrays(p: Tree, argv: seq<Element>) returns (es: seq<Event>)
    requires WellFormed(p) && TypedArgv(Leaves(p), argv) && FromArgv(argv)
    requires HeapDocopt(p, argv).Some?
    ensures Kept(p, argv, es)
    ensures forall l :: l in Leaves(p) && StraysOf(p, argv, l) == 0 ==> Reports(HeapDocopt(p, argv).value, p, es, l)
  {
    es := BothReported(p, argv);
    forall l | l in Leaves(p) && StraysOf(p, argv, l) == 0
      ensures Reports(HeapDocopt(p, argv).value, p, es, l)
    {
      assert HeapReports(p, argv, es, l);
      if Used(l, es) > 0 {
        ToldWithoutStrays(p, argv, es, l);
      }
    }
  }

  // ---------- usage lines ----------

  /** A usage of several lines that are neat for an option that counts: the dictionary has the
      count of the last line that took it, failing lines included, and reports it right if and
      only if the line that is kept took it as often. */
  lemma LinesReport(p: Tree, argv: seq<Element>, lines: seq<Tree>, l: Element, i: nat) returns (es: seq<Event>, kept: nat)
    requires WellFormed(p) && TypedArgv(Leaves(p), argv) && FromArgv(argv)
    requires HeapDocopt(p, argv).Some? && Fixed(p) == Required([Either(lines)]) && AllMatchable(lines)
    requires l in Leaves(p) && CountsOption(FixedLeaf(p, l))
    requires forall j :: 0 <= j < |lines| ==> Neat(FixedLeaf(p, l), lines[j], argv)
    requires i < |lines| && Took(FixedLeaf(p, l), lines[i], argv) > 0
    requires forall j :: i < j < |lines| ==> Took(FixedLeaf(p, l), lines[j], argv) == 0
    ensures Kept(p, argv, es) && kept < |lines| && RunOf(lines[kept], argv).matched && es == RunOf(lines[kept], argv).events
    ensures Used(l, es) > 0 ==>
              var a, result := FixedLeaf(p, l), HeapDocopt(p, argv).value;
              && Name(l) in result && result[Name(l)] == Count(Took(a, lines[i], argv))
              && (Reports(result, p, es, l) <==> Took(a, lines[i], argv) == Took(a, lines[kept], argv))
  {
    var a, either := FixedLeaf(p, l), Either(lines);
    es := BothReported(p, argv);
    MatchableMap(p, l => FixedLeaf(p, l));
    SoleFixed(p, l);
    assert Fixed(p).children[0] == either;
    OneMember(a, either, argv, Untold(a, argv));
    kept := NeatBranchesCount(a, lines, argv, Untold(a, argv).value, i);
    if Used(l, es) > 0 {
      assert HeapReports(p, argv, es, l);
      GatheredSize(p, argv, es, l);
    }
  }

  lemma OneMember(a: Element, q: Tree, l: seq<Element>, s: Told)
    requires Matchable(q) && Matchable(Required([q]))
    ensures RunOf(Required([q]), l).matched == RunOf(q, l).matched
    ensures RunOf(q, l).matched ==> RunOf(Required([q]), l).events == RunOf(q, l).events
    ensures RunOf(q, l).matched ==> Tell(a, Required([q]), l, s) == Tell(a, q, l, s)
  {
    var cs, r, t := [q], RunOf(q, l), Tell(a, q, l, s);
    assert cs[0] == q && cs[1..] == [] && r.events + [] == r.events;
    assert RunAll(cs[1..], r.left) == Run(true, r.left, [], 0) && TellAll(a, cs[1..], r.left, t) == t;
    assert r.matched ==> RunAll(cs, l) == Run(true, r.left, r.events, r.tried) && TellAll(a, cs, l, s) == t;
    assert !r.matched ==> !RunAll(cs, l).matched;
  }

  lemma SettledLeaf(p: Tree, argv: seq<Element>, es: seq<Event>, l: Element)
    requires Matchable(p) && FromArgv(argv) && Kept(p, argv, es) && Used(l, es) > 0
    requires Accumulates(FixedLeaf(p, l)) ==> Settled(FixedLeaf(p, l), Fixed(p))
    ensures StraysOf(p, argv, l) == 0
  {
    MatchableMap(p, l => FixedLeaf(p, l));
    if Accumulates(FixedLeaf(p, l)) {
      SettledStrays(FixedLeaf(p, l), Fixed(p), argv);
    } else {
      PlainNeverStrays(p, argv, l);
    }
  }

  /** On a settled pattern the dictionary is that of the value reading, whatever argv is. */
  lemma SettledIsFaithful(p: Tree, argv: seq<Element>)
    requires WellFormed(p) && TypedArgv(Leaves(p), argv) && FromArgv(argv)
    requires forall l :: l in Leaves(p) && Accumulates(FixedLeaf(p, l)) ==> Settled(FixedLeaf(p, l), Fixed(p))
    ensures HeapDocopt(p, argv) == Docopt(p, argv)
  {
    MatchableMap(p, l => FixedLeaf(p, l));
    if HeapDocopt(p, argv).Some? {
      var es := BothReported(p, argv);
      forall l | l in Leaves(p) && Only(es, Name(l)) != []
        ensures ToldOf(p, argv, l).value == Gathered(Only(es, Name(l)))
      {
        SettledLeaf(p, argv, es, l);
        ToldWithoutStrays(p, argv, es, l);
      }
      ToldIsRight(p, argv, es);
    } else {
      SameAcceptance(p, argv);
    }
  }
}
