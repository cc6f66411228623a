/** The end of `docopt` as it runs (docopt.py:562-581): a pattern is built on the heap, `fix`
changes it in place, the matcher runs on shared objects, and the dictionary is read from them.
 */
module DocoptProcedures {
  import opened Basics
  import opened Elements
  import opened Patterns
  import opened Matcher
  import opened Repeats
  import opened Capture
  import opened HeapMatcher
  import opened HeapProcedures
  import opened FixPass
  import opened Reporting
  import opened Options
  import P = Procedures
  import E = EndToEnd
  import U = UsageParser

  /** The pattern the heap holds, with the values its leaves have now. */
  method Snapshot(self: Node, ghost t: Shape) returns (p: Tree)
    requires Holds(t) && t.node == self
    ensures p == old(Render(t))
  {
    var q := FixPass.Read(self, t);
    var ns := Members(Leaves(q));
    var data := map n | n in ns :: n.Data();
    var show := (n: Node) => if n in data then data[n] else Command(None, Null);
    p := MapLeaves(q, show);
    MapAgree(q, show, Printer(Snap(Tips(t))));
  }

  // ---------- building a pattern ----------

  function KindOf<L>(p: Pattern<L>): Kind {
    match p
    case Leaf(_) => LeafKind
    case Required(_) => RequiredKind
    case Optional(_) => OptionalKind
    case OptionsShortcut(_) => OptionsShortcutKind
    case Either(_) => EitherKind
    case OneOrMore(_) => OneOrMoreKind
  }

  lemma KindBranch<L>(p: Pattern<L>)
    requires !p.Leaf?
    ensures KindOf(p) != LeafKind && Branch(KindOf(p), p.children) == p
  {
  }

  /** The pattern prints as `p` when its leaves hold `data`. */
  ghost predicate Prints(q: Pattern<Node>, data: map<Node, Element>, p: Tree) {
    MapLeaves(q, Printer(data)) == p
  }

  ghost predicate PrintAll(qs: seq<Pattern<Node>>, data: map<Node, Element>, ps: seq<Tree>) {
    MapAll(qs, Printer(data)) == ps
  }

  lemma PrintMore(q: Pattern<Node>, qs: seq<Pattern<Node>>, p: Tree, ps: seq<Tree>,
                  d: map<Node, Element>, ds: map<Node, Element>, all: map<Node, Element>)
    requires Prints(q, d, p) && PrintAll(qs, ds, ps)
    requires forall n :: n in Leaves(q) ==> n in d && n in all && all[n] == d[n]
    requires forall n :: n in LeavesOf(qs) ==> n in ds && n in all && all[n] == ds[n]
    ensures PrintAll([q] + qs, all, [p] + ps)
  {
    MapAgree(q, Printer(all), Printer(d));
    MapAllAgree(qs, Printer(all), Printer(ds));
    assert ([q] + qs)[1..] == qs;
  }

  lemma PrintJoin(t: Shape, kids: seq<Shape>, ts: set<Node>, tips: set<Node>, p: Tree, ps: seq<Tree>)
    requires ts == Tips(t) && tips == Members(LeavesOf(ToPatterns(kids)))
    requires Prints(ToPattern(t), Snap(ts), p) && PrintAll(ToPatterns(kids), Snap(tips), ps)
    ensures PrintAll([ToPattern(t)] + ToPatterns(kids), Snap(ts + tips), [p] + ps)
  {
    PrintMore(ToPattern(t), ToPatterns(kids), p, ps, Snap(ts), Snap(tips), Snap(ts + tips));
  }

  lemma LinkedJoin(a: map<Node, seq<Node>>, b: map<Node, seq<Node>>)
    requires Linked(a) && Linked(b)
    ensures Linked(a + b)
  {
  }

  lemma JoinKids(t: Shape, kids: seq<Shape>)
    requires Proper(t) && ProperAll(kids) && Forks(t) !! ForksOf(kids)
    ensures ProperAll([t] + kids) && Roots([t] + kids) == [t.node] + Roots(kids)
    ensures LinksOf([t] + kids) == LinksOf(kids) + Links(t)
  {
    assert ([t] + kids)[1..] == kids;
  }

  lemma JoinLeaves(t: Shape, kids: seq<Shape>)
    ensures ToPatterns([t] + kids) == [ToPattern(t)] + ToPatterns(kids)
    ensures Members(LeavesOf(ToPatterns([t] + kids))) == Tips(t) + Members(LeavesOf(ToPatterns(kids)))
  {
    assert ([t] + kids)[1..] == kids;
    var p, ps := ToPattern(t), ToPatterns(kids);
    assert ([p] + ps)[1..] == ps;
    assert LeavesOf([p] + ps) == Leaves(p) + LeavesOf(ps);
  }

  /** The objects built for the children `ps`. */
  ghost predicate BuiltAll(ps: seq<Tree>, ns: seq<Node>, kids: seq<Shape>, links: map<Node, seq<Node>>, tips: set<Node>)
    reads links.Keys`children, tips`value
  {
    && ProperAll(kids) && ns == Roots(kids) && links == LinksOf(kids) && Linked(links)
    && tips == Members(LeavesOf(ToPatterns(kids))) && PrintAll(ToPatterns(kids), Snap(tips), ps)
  }

  lemma BuiltMore(ps: seq<Tree>, t: Shape, ls: map<Node, seq<Node>>, ts: set<Node>,
                  ns: seq<Node>, kids: seq<Shape>, links: map<Node, seq<Node>>, tips: set<Node>)
    requires ps != [] && BuiltAll(ps[1..], ns, kids, links, tips) && ls.Keys !! links.Keys
    requires Proper(t) && ls == Links(t) && Linked(ls) && ts == Tips(t) && Prints(ToPattern(t), Snap(ts), ps[0])
    ensures BuiltAll(ps, [t.node] + ns, [t] + kids, links + ls, ts + tips)
  {
    LinksKeys(t);
    LinksOfKeys(kids);
    JoinKids(t, kids);
    JoinLeaves(t, kids);
    LinkedJoin(links, ls);
    PrintJoin(t, kids, ts, tips, ps[0], ps[1..]);
    assert [ps[0]] + ps[1..] == ps;
  }

  /** New objects for every leaf and branch. */
  method Build(p: Tree) returns (self: Node, ghost t: Shape, ghost links: map<Node, seq<Node>>, ghost tips: set<Node>)
    ensures Proper(t) && t.node == self && (p.Leaf? <==> t.Tip?)
    ensures links == Links(t) && tips == Tips(t) && Linked(links)
    ensures fresh(links.Keys) && fresh(tips) && Prints(ToPattern(t), Snap(tips), p)
    decreases p, 1
  {
    if p.Leaf? {
      self := new Node(LeafKind, p.leaf, []);
      t, links, tips := Tip(self), map[], {self};
    } else {
      var ns, kids, ls, ts := BuildAll(p.children);
      self := new Node(KindOf(p), Command(None, Null), ns);
      t, links, tips := Fork(self, kids), ls[self := ns], ts;
      KindBranch(p);
      LinksOfKeys(kids);
    }
  }

  method BuildAll(ps: seq<Tree>) returns (ns: seq<Node>, ghost kids: seq<Shape>, ghost links: map<Node, seq<Node>>, ghost tips: set<Node>)
    ensures BuiltAll(ps, ns, kids, links, tips)
    ensures fresh(links.Keys) && fresh(tips)
    decreases ps, 0
  {
    if ps == [] {
      ns, kids, links, tips := [], [], map[], {};
    } else {
      var n, t, ls, ts := Build(ps[0]);
      ghost var d := Snap(ts);
      ns, kids, links, tips := BuildAll(ps[1..]);
      assert Linked(ls) && Snap(ts) == d && ls.Keys !! links.Keys;
      BuiltMore(ps, t, ls, ts, ns, kids, links, tips);
      ns, kids, links, tips := [n] + ns, [t] + kids, links + ls, ts + tips;
    }
  }

  // ---------- docopt ----------

  /** The matcher on a pattern after `fix`, and the dictionary if all of argv was taken. */
  method Dictionary(q: Tree, argv: seq<Element>) returns (result: Option<map<Option<string>, Value>>)
    requires Matchable(q)
    ensures result == Answer(q, argv)
  {
    var memory := new Memory(argv);
    var matched, left, collected := memory.Match(q, Addrs(|argv|), []);
    if matched && left == [] {
      return Some(DictOf(Leaves(q) + Deref(memory.cells, collected)));
    }
    return None;
  }

  /** `pattern.fix().match(argv)` on a pattern on the heap. */
  method Finish(self: Node, ghost t: Shape, argv: seq<Element>) returns (result: Option<map<Option<string>, Value>>)
    requires Holds(t) && t.node == self && t.Fork? && WellFormed(Render(t))
    modifies Forks(t)`children, Tips(t)`value
    ensures result == HeapDocopt(old(Render(t)), argv)
  {
    ghost var r := Render(t);
    ghost var t' := Fix(self, t);
    var q := Snapshot(self, t');
    FixedAnswer(r, argv);
    result := Dictionary(q, argv);
  }

  /** docopt on a parsed pattern and argv, all objects included. */
  method Docopt(p: Tree, argv: seq<Element>) returns (result: Option<map<Option<string>, Value>>)
    requires WellFormed(p) && !p.Leaf?
    ensures result == HeapDocopt(p, argv)
  {
    var self, t, links, tips := Build(p);
    LinksKeys(t);
    result := Finish(self, t, argv);
  }

  /** From tokens to the dictionary, with the loops of the parsers. */
  method Run(usage: Tokens, doc: Table, cs: seq<Tree>, argv: Tokens, optionsFirst: bool)
    returns (r: Result<Option<map<Option<string>, Value>>>)
    requires U.ParsePattern(usage, doc).Ok? ==> E.Usable(usage, doc, cs)
    ensures r == E.Program(usage, doc, cs, argv, optionsFirst)
  {
    var source := new P.Source(usage, doc, false);
    var pattern :- source.ParsePattern();
    var args := new P.Source(argv, source.table, true);
    var items :- args.ParseArgv(optionsFirst);
    E.ParsedIsWellFormed(usage, doc, cs);
    var dictionary := Docopt(E.Fill(pattern, cs), items);
    r := Ok(dictionary);
  }
}
