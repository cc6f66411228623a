/** The in-place pass `fix` (docopt.py:40-69) on a heap of nodes.

`fix_identities` redirects the children of every branch so that equal leaves become one
object; `fix_repeating_arguments` then writes the values of the leaves that repeat.  The
ghost `Shape` of a tree says which objects it is made of.
 */
module FixPass {
  import opened Basics
  import opened Elements
  import opened Patterns
  import opened Matcher
  import opened Repeats
  import T = Transform

  datatype Kind = LeafKind | RequiredKind | OptionalKind | OptionsShortcutKind | EitherKind | OneOrMoreKind

  class Node {
    const kind: Kind
    const leaf: Element  // a leaf's name and option fields
    var value: Value     // a leaf's value
    var children: seq<Node>

    constructor (kind: Kind, leaf: Element, children: seq<Node>)
      ensures this.kind == kind && this.leaf == leaf && this.children == children && value == leaf.value
    {
      this.kind, this.leaf, this.children := kind, leaf, children;
      value := leaf.value;
    }

    /** What a leaf prints as. */
    function Data(): Element
      reads this`value
    {
      leaf.(value := value)
    }
  }

  datatype Shape = Tip(node: Node) | Fork(node: Node, kids: seq<Shape>)

  ghost function Forks(t: Shape): set<Node>
    decreases t, 1
  {
    match t
    case Tip(_) => {}
    case Fork(n, kids) => {n} + ForksOf(kids)
  }

  ghost function ForksOf(kids: seq<Shape>): set<Node>
    decreases kids, 0
  {
    if kids == [] then {} else Forks(kids[0]) + ForksOf(kids[1..])
  }

  ghost function Roots(kids: seq<Shape>): (r: seq<Node>)
    ensures |r| == |kids|
    ensures forall i :: 0 <= i < |kids| ==> r[i] == kids[i].node
  {
    seq(|kids|, i requires 0 <= i < |kids| => kids[i].node)
  }

  /** No branch occurs twice; leaves may be shared. */
  ghost predicate Proper(t: Shape)
    decreases t, 1
  {
    match t
    case Tip(n) => n.kind == LeafKind
    case Fork(n, kids) => n.kind != LeafKind && n !in ForksOf(kids) && ProperAll(kids)
  }

  ghost predicate ProperAll(kids: seq<Shape>)
    decreases kids, 0
  {
    kids == [] || (Proper(kids[0]) && ProperAll(kids[1..]) && Forks(kids[0]) !! ForksOf(kids[1..]))
  }

  /** The `children` list each branch of `t` ought to have. */
  ghost function Links(t: Shape): map<Node, seq<Node>>
    decreases t, 1
  {
    match t
    case Tip(_) => map[]
    case Fork(n, kids) => LinksOf(kids)[n := Roots(kids)]
  }

  ghost function LinksOf(kids: seq<Shape>): map<Node, seq<Node>>
    decreases kids, 0
  {
    if kids == [] then map[] else LinksOf(kids[1..]) + Links(kids[0])
  }

  lemma {:induction false} LinksKeys(t: Shape)
    ensures Links(t).Keys == Forks(t)
    decreases t, 1
  {
    if t.Fork? {
      LinksOfKeys(t.kids);
    }
  }

  lemma {:induction false} LinksOfKeys(kids: seq<Shape>)
    ensures LinksOf(kids).Keys == ForksOf(kids)
    decreases kids, 0
  {
    if kids != [] {
      LinksKeys(kids[0]);
      LinksOfKeys(kids[1..]);
    }
  }

  lemma {:induction false} LinksOfKid(kids: seq<Shape>, i: nat)
    requires ProperAll(kids) && i < |kids|
    ensures Proper(kids[i]) && Forks(kids[i]) <= ForksOf(kids)
    ensures Links(kids[i]).Keys == Forks(kids[i]) && LinksOf(kids).Keys == ForksOf(kids)
    ensures forall n :: n in Forks(kids[i]) ==> LinksOf(kids)[n] == Links(kids[i])[n]
  {
    LinksKeys(kids[0]);
    LinksOfKeys(kids[1..]);
    if i > 0 {
      LinksOfKid(kids[1..], i - 1);
    }
  }

  /** The branches of the heap are linked as `links` says. */
  ghost predicate Linked(links: map<Node, seq<Node>>)
    reads links.Keys`children
  {
    forall n :: n in links ==> n.children == links[n]
  }

  /** The heap holds the tree `t`. */
  ghost predicate Holds(t: Shape)
    reads Links(t).Keys`children
  {
    Proper(t) && Linked(Links(t))
  }

  function Branch<L>(kind: Kind, ps: seq<Pattern<L>>): (p: Pattern<L>)
    ensures !p.Leaf? && p.children == ps
  {
    match kind
    case OptionalKind => Optional(ps)
    case OptionsShortcutKind => OptionsShortcut(ps)
    case EitherKind => Either(ps)
    case OneOrMoreKind => OneOrMore(ps)
    case _ => Required(ps)
  }

  /** The tree as a pattern whose leaves are objects. */
  ghost function ToPattern(t: Shape): Pattern<Node>
    decreases t, 1
  {
    match t
    case Tip(n) => Leaf(n)
    case Fork(n, kids) => Branch(n.kind, ToPatterns(kids))
  }

  ghost function ToPatterns(kids: seq<Shape>): (r: seq<Pattern<Node>>)
    ensures |r| == |kids|
    ensures forall i :: 0 <= i < |kids| ==> r[i] == ToPattern(kids[i])
    decreases kids, 0
  {
    if kids == [] then [] else [ToPattern(kids[0])] + ToPatterns(kids[1..])
  }

  ghost function Tips(t: Shape): set<Node> {
    set n | n in Leaves(ToPattern(t))
  }

  lemma TipsOfKid(t: Shape, i: nat)
    requires t.Fork? && i < |t.kids|
    ensures Tips(t.kids[i]) <= Tips(t)
  {
    var p := ToPattern(t);
    forall n | n in Tips(t.kids[i])
      ensures n in Tips(t)
    {
      LeavesOfCovers(ToPatterns(t.kids), i, n);
      assert p.children == ToPatterns(t.kids);
    }
  }

  // ---------- redirecting leaves ----------

  ghost function Redirected(t: Shape, rep: map<Node, Node>): Shape
    decreases t, 1
  {
    match t
    case Tip(n) => if n in rep then Tip(rep[n]) else t
    case Fork(n, kids) => Fork(n, RedirectedAll(kids, rep))
  }

  ghost function RedirectedAll(kids: seq<Shape>, rep: map<Node, Node>): (r: seq<Shape>)
    ensures |r| == |kids|
    ensures forall i :: 0 <= i < |kids| ==> r[i] == Redirected(kids[i], rep)
    decreases kids, 0
  {
    if kids == [] then [] else [Redirected(kids[0], rep)] + RedirectedAll(kids[1..], rep)
  }

  lemma {:induction false} RedirectedForks(t: Shape, rep: map<Node, Node>)
    ensures Forks(Redirected(t, rep)) == Forks(t)
    decreases t, 1
  {
    if t.Fork? {
      RedirectedForksOf(t.kids, rep);
    }
  }

  lemma {:induction false} RedirectedForksOf(kids: seq<Shape>, rep: map<Node, Node>)
    ensures ForksOf(RedirectedAll(kids, rep)) == ForksOf(kids)
    decreases kids, 0
  {
    if kids != [] {
      RedirectedForks(kids[0], rep);
      RedirectedForksOf(kids[1..], rep);
    }
  }

  lemma {:induction false} RedirectedProper(t: Shape, rep: map<Node, Node>)
    requires Proper(t) && forall n :: n in rep ==> rep[n].kind == LeafKind
    ensures Proper(Redirected(t, rep))
    decreases t, 1
  {
    if t.Fork? {
      RedirectedProperAll(t.kids, rep);
      RedirectedForksOf(t.kids, rep);
    }
  }

  lemma {:induction false} RedirectedProperAll(kids: seq<Shape>, rep: map<Node, Node>)
    requires ProperAll(kids) && forall n :: n in rep ==> rep[n].kind == LeafKind
    ensures ProperAll(RedirectedAll(kids, rep))
    decreases kids, 0
  {
    if kids != [] {
      RedirectedProper(kids[0], rep);
      RedirectedProperAll(kids[1..], rep);
      RedirectedForks(kids[0], rep);
      RedirectedForksOf(kids[1..], rep);
    }
  }

  ghost function Lookup(rep: map<Node, Node>): Node -> Node {
    n => if n in rep then rep[n] else n
  }

  lemma {:induction false} RedirectedPattern(t: Shape, rep: map<Node, Node>)
    ensures ToPattern(Redirected(t, rep)) == MapLeaves(ToPattern(t), Lookup(rep))
    decreases t
  {
    if t.Fork? {
      forall i | 0 <= i < |t.kids|
        ensures ToPattern(Redirected(t.kids[i], rep)) == MapLeaves(ToPattern(t.kids[i]), Lookup(rep))
      {
        RedirectedPattern(t.kids[i], rep);
      }
      assert ToPatterns(RedirectedAll(t.kids, rep)) == MapAll(ToPatterns(t.kids), Lookup(rep));
    }
  }

  /** `rep` sends each leaf to the member of `uniq` that prints alike. */
  ghost predicate Represents(rep: map<Node, Node>, uniq: seq<Node>, tips: set<Node>)
    reads tips`value, uniq`value
  {
    && tips <= rep.Keys
    && forall n :: n in tips ==> rep[n] in uniq && rep[n].Data() == n.Data()
  }

  ghost predicate AllLeaves(ns: seq<Node>) {
    forall n :: n in ns ==> n.kind == LeafKind
  }

  ghost predicate PrintApart(ns: seq<Node>)
    reads ns`value
  {
    forall i, j :: 0 <= i < j < |ns| ==> ns[i].Data() != ns[j].Data()
  }

  /** `child in uniq`, equality being equality of printed forms. */
  predicate Among(uniq: seq<Node>, child: Node)
    reads Members(uniq)`value, child`value
  {
    uniq != [] && (uniq[0].Data() == child.Data() || Among(uniq[1..], child))
  }

  /** `uniq.index(child)`. */
  function Index(uniq: seq<Node>, child: Node): (i: nat)
    requires Among(uniq, child)
    reads Members(uniq)`value, child`value
    ensures i < |uniq| && uniq[i].Data() == child.Data()
  {
    if uniq[0].Data() == child.Data() then 0 else 1 + Index(uniq[1..], child)
  }

  lemma {:induction false} AmongIff(uniq: seq<Node>, child: Node)
    ensures Among(uniq, child) <==> exists u :: u in uniq && u.Data() == child.Data()
  {
    if uniq != [] {
      AmongIff(uniq[1..], child);
      assert uniq == [uniq[0]] + uniq[1..];
    }
  }

  lemma MergeDisjoint(a: map<Node, seq<Node>>, b: map<Node, seq<Node>>, c: map<Node, seq<Node>>)
    requires b.Keys !! c.Keys
    ensures (a + b) + c == (a + c) + b
  {
  }

  lemma {:induction false} LinksUpdate(kids: seq<Shape>, i: nat, kid: Shape)
    requires ProperAll(kids) && i < |kids|
    requires Proper(kid) && Forks(kid) == Forks(kids[i])
    ensures ProperAll(kids[i := kid]) && ForksOf(kids[i := kid]) == ForksOf(kids)
    ensures LinksOf(kids[i := kid]) == LinksOf(kids) + Links(kid)
  {
    LinksKeys(kid);
    LinksKeys(kids[0]);
    LinksOfKeys(kids[1..]);
    if i == 0 {
      assert kids[0 := kid][1..] == kids[1..];
    } else {
      var rest := kids[1..][i - 1 := kid];
      assert kids[i := kid] == [kids[0]] + rest;
      LinksUpdate(kids[1..], i - 1, kid);
      LinksOfKid(kids[1..], i - 1);
      MergeDisjoint(LinksOf(kids[1..]), Links(kid), Links(kids[0]));
    }
  }

  lemma MixStep(kids: seq<Shape>, kids': seq<Shape>, i: nat)
    requires |kids| == |kids'| && i < |kids|
    ensures (kids'[..i] + kids[i..])[i := kids'[i]] == kids'[..i + 1] + kids[i + 1..]
    ensures (kids'[..i] + kids[i..])[i] == kids[i]
  {
  }

  /** The subtrees while the first `i` of them have been redirected. */
  ghost predicate Mixed(mix: seq<Shape>, kids: seq<Shape>, rep: map<Node, Node>, i: nat) {
    && i <= |kids| == |mix|
    && mix == RedirectedAll(kids, rep)[..i] + kids[i..]
    && ProperAll(mix) && ForksOf(mix) == ForksOf(kids)
  }

  lemma MixedStep(mix: seq<Shape>, kids: seq<Shape>, rep: map<Node, Node>, i: nat)
    requires Mixed(mix, kids, rep, i) && i < |kids|
    requires forall n :: n in rep ==> rep[n].kind == LeafKind
    ensures mix[i] == kids[i] && Proper(kids[i])
    ensures Forks(kids[i]) <= ForksOf(kids)
    ensures Forks(kids[i]) == Links(kids[i]).Keys == Links(Redirected(kids[i], rep)).Keys
    ensures LinksOf(mix).Keys == ForksOf(kids)
    ensures forall n :: n in Links(kids[i]) ==> LinksOf(mix)[n] == Links(kids[i])[n]
    ensures var mix' := mix[i := Redirected(kids[i], rep)];
            Mixed(mix', kids, rep, i + 1) && LinksOf(mix') == LinksOf(mix) + Links(Redirected(kids[i], rep))
  {
    var kid := Redirected(kids[i], rep);
    MixStep(kids, RedirectedAll(kids, rep), i);
    LinksOfKid(mix, i);
    RedirectedForks(kids[i], rep);
    RedirectedProper(kids[i], rep);
    LinksKeys(kid);
    LinksUpdate(mix, i, kid);
  }

  lemma RootsUpdate(kids: seq<Shape>, i: nat, kid: Shape)
    requires i < |kids|
    ensures Roots(kids[i := kid]) == Roots(kids)[i := kid.node]
  {
  }

  lemma KidForks(t: Shape, i: nat)
    requires Proper(t) && t.Fork? && i < |t.kids|
    ensures Forks(t.kids[i]) <= Forks(t) && t.node in Forks(t)
  {
    LinksOfKid(t.kids, i);
  }

  lemma KidsLinked(t: Shape, rep: map<Node, Node>)
    requires Holds(t) && t.Fork?
    ensures t.node.children == Roots(t.kids) && Linked(LinksOf(t.kids))
    ensures Mixed(t.kids, t.kids, rep, 0)
  {
    LinksOfKeys(t.kids);
    assert forall n :: n in LinksOf(t.kids) ==> Links(t)[n] == LinksOf(t.kids)[n];
  }

  lemma TreeLinked(t: Shape, mix: seq<Shape>, rep: map<Node, Node>)
    requires t.Fork? && Mixed(mix, t.kids, rep, |t.kids|)
    requires t.node.children == Roots(mix) && Linked(LinksOf(mix))
    ensures Linked(Links(Redirected(t, rep)))
  {
    assert mix == RedirectedAll(t.kids, rep);
  }

  /** Lines 50-55: only the `children` lists of the branches change. */
  method Redirect(self: Node, uniq: seq<Node>, ghost t: Shape, ghost rep: map<Node, Node>)
    requires Holds(t) && t.Fork? && t.node == self
    requires AllLeaves(uniq) && PrintApart(uniq)
    requires Represents(rep, uniq, Tips(t)) && forall n :: n in rep ==> rep[n].kind == LeafKind
    modifies Forks(t)`children
    ensures Linked(Links(Redirected(t, rep)))
    decreases t
  {
    ghost var kids := t.kids;
    ghost var mix := kids;
    KidsLinked(t, rep);
    var i := 0;
    while i < |self.children|
      invariant Mixed(mix, kids, rep, i)
      invariant self.children == Roots(mix)
      invariant Linked(LinksOf(mix))
      decreases |kids| - i
    {
      KidForks(t, i);
      RedirectChild(self, i, uniq, mix, t, rep);
      mix := mix[i := Redirected(kids[i], rep)];
      i := i + 1;
    }
    TreeLinked(t, mix, rep);
  }

  /** One round of the loop. */
  method RedirectChild(self: Node, i: nat, uniq: seq<Node>, ghost mix: seq<Shape>, ghost t: Shape, ghost rep: map<Node, Node>)
    requires Proper(t) && t.Fork? && t.node == self
    requires AllLeaves(uniq) && PrintApart(uniq)
    requires Represents(rep, uniq, Tips(t)) && forall n :: n in rep ==> rep[n].kind == LeafKind
    requires i < |t.kids| && Mixed(mix, t.kids, rep, i)
    requires self.children == Roots(mix) && Linked(LinksOf(mix))
    modifies {self}`children, Forks(t.kids[i])`children
    ensures var mix' := mix[i := Redirected(t.kids[i], rep)];
            self.children == Roots(mix') && Linked(LinksOf(mix')) && Mixed(mix', t.kids, rep, i + 1)
    decreases t, 0
  {
    ghost var kid := t.kids[i];
    ghost var kid' := Redirected(kid, rep);
    MixedStep(mix, t.kids, rep, i);
    TipsOfKid(t, i);
    RootsUpdate(mix, i, kid');
    var child := self.children[i];
    assert Linked(Links(kid)) by {
      assert forall n :: n in Links(kid) ==> n.children == LinksOf(mix)[n];
    }
    if child.kind == LeafKind {
      assert kid == Tip(child);
      assert child in Tips(kid) by { assert Leaves(ToPattern(kid)) == [child]; }
      assert rep[child] in uniq && rep[child].Data() == child.Data();
      AmongIff(uniq, child);
      var k := Index(uniq, child);
      assert uniq[k] == rep[child];
      ghost var links := LinksOf(mix);
      assert self !in links;
      assert forall n :: n in links ==> n != self && n.children == links[n];
      self.children := self.children[i := uniq[k]];
      assert Linked(links);
    } else {
      ghost var others := LinksOf(mix) - Forks(kid);
      assert Linked(others);
      assert self !in Forks(kid);
      Redirect(child, uniq, kid, rep);
      assert Linked(others);
      assert Linked(LinksOf(mix) + Links(kid'));
    }
  }

  // ---------- fix_identities ----------

  lemma FirstKid(kids: seq<Shape>)
    requires ProperAll(kids) && kids != []
    ensures Links(kids[0]).Keys + LinksOf(kids[1..]).Keys == LinksOf(kids).Keys
    ensures Proper(kids[0]) && ProperAll(kids[1..])
    ensures Linked(LinksOf(kids)) ==> Linked(Links(kids[0])) && Linked(LinksOf(kids[1..]))
  {
    LinksKeys(kids[0]);
    LinksOfKeys(kids[1..]);
    assert forall n :: n in Links(kids[0]) ==> LinksOf(kids)[n] == Links(kids[0])[n];
    assert forall n :: n in LinksOf(kids[1..]) ==> LinksOf(kids)[n] == LinksOf(kids[1..])[n];
  }

  /** `self.flat()`: the leaves from left to right. */
  function Flat(self: Node, ghost t: Shape): (ns: seq<Node>)
    requires Holds(t) && t.node == self
    reads Links(t).Keys`children
    ensures ns == Leaves(ToPattern(t))
    decreases t, 1
  {
    if self.kind == LeafKind then [self] else
      KidsLinked(t, map[]);
      assert ToPattern(t).children == ToPatterns(t.kids);
      assert LinksOf(t.kids).Keys <= Links(t).Keys;
      FlatOf(self.children, t.kids)
  }

  function FlatOf(ns: seq<Node>, ghost kids: seq<Shape>): (r: seq<Node>)
    requires ProperAll(kids) && Linked(LinksOf(kids)) && ns == Roots(kids)
    reads LinksOf(kids).Keys`children
    ensures r == LeavesOf(ToPatterns(kids))
    decreases kids, 0
  {
    if ns == [] then [] else
      FirstKid(kids);
      assert ns[1..] == Roots(kids[1..]);
      assert ToPatterns(kids)[1..] == ToPatterns(kids[1..]);
      Flat(ns[0], kids[0]) + FlatOf(ns[1..], kids[1..])
  }

  /** `list(set(ns))`: one node for each printed form.  The order is Python's affair; what
      follows uses only the postconditions. */
  function Unique(ns: seq<Node>): (uniq: seq<Node>)
    reads Members(ns)`value
    ensures PrintApart(uniq)
    ensures forall u :: u in uniq ==> u in ns
    ensures forall n :: n in ns ==> Among(uniq, n)
  {
    if ns == [] then [] else
      var last := ns[|ns| - 1];
      var uniq := Unique(ns[..|ns| - 1]);
      assert ns == ns[..|ns| - 1] + [last];
      assert last in ns && forall u :: u in uniq ==> u in ns;
      AmongAppend(uniq, last);
      if Among(uniq, last) then uniq else uniq + [last]
  }

  lemma AmongAppend(uniq: seq<Node>, last: Node)
    ensures Among(uniq + [last], last)
    ensures forall n :: Among(uniq, n) ==> Among(uniq + [last], n)
    ensures PrintApart(uniq) && !Among(uniq, last) ==> PrintApart(uniq + [last])
  {
    AmongIff(uniq, last);
    AmongIff(uniq + [last], last);
    assert last in uniq + [last];
    forall n | Among(uniq, n)
      ensures Among(uniq + [last], n)
    {
      AmongIff(uniq, n);
      AmongIff(uniq + [last], n);
      var u :| u in uniq && u.Data() == n.Data();
      assert u in uniq + [last];
    }
  }

  /** The printed form of the leaves, as a function. */
  ghost function Snap(ns: set<Node>): map<Node, Element>
    reads ns`value
  {
    map n | n in ns :: n.Data()
  }

  ghost function Printer(m: map<Node, Element>): Node -> Element {
    n => if n in m then m[n] else Command(None, Null)
  }

  /** What the tree prints as. */
  ghost function Render(t: Shape): Tree
    reads Tips(t)`value
  {
    MapLeaves(ToPattern(t), Printer(Snap(Tips(t))))
  }

  lemma {:induction false} MapAgree<L, M>(p: Pattern<L>, f: L -> M, g: L -> M)
    requires forall l :: l in Leaves(p) ==> f(l) == g(l)
    ensures MapLeaves(p, f) == MapLeaves(p, g)
    decreases p, 1
  {
    if p.Leaf? {
      assert p.leaf in Leaves(p);
    } else {
      MapAllAgree(p.children, f, g);
    }
  }

  lemma {:induction false} MapAllAgree<L, M>(ps: seq<Pattern<L>>, f: L -> M, g: L -> M)
    requires forall l :: l in LeavesOf(ps) ==> f(l) == g(l)
    ensures MapAll(ps, f) == MapAll(ps, g)
    decreases ps, 0
  {
    if ps != [] {
      MapAgree(ps[0], f, g);
      MapAllAgree(ps[1..], f, g);
    }
  }

  lemma {:induction false} MapTwice<L, M, N>(p: Pattern<L>, f: L -> M, g: M -> N, h: L -> N)
    requires forall l :: l in Leaves(p) ==> h(l) == g(f(l))
    ensures MapLeaves(MapLeaves(p, f), g) == MapLeaves(p, h)
    decreases p, 1
  {
    if p.Leaf? {
      assert p.leaf in Leaves(p);
    } else {
      MapAllTwice(p.children, f, g, h);
    }
  }

  lemma {:induction false} MapAllTwice<L, M, N>(ps: seq<Pattern<L>>, f: L -> M, g: M -> N, h: L -> N)
    requires forall l :: l in LeavesOf(ps) ==> h(l) == g(f(l))
    ensures MapAll(MapAll(ps, f), g) == MapAll(ps, h)
    decreases ps, 0
  {
    if ps != [] {
      MapTwice(ps[0], f, g, h);
      MapAllTwice(ps[1..], f, g, h);
      assert MapAll(ps, f)[1..] == MapAll(ps[1..], f);
    }
  }

  /** Leaves that print alike are one object. */
  ghost predicate Shared(t: Shape)
    reads Tips(t)`value
  {
    forall m, n :: m in Tips(t) && n in Tips(t) && m.Data() == n.Data() ==> m == n
  }

  lemma {:induction false} TipsAreLeaves(t: Shape)
    requires Proper(t)
    ensures AllLeaves(Leaves(ToPattern(t)))
    decreases t, 1
  {
    if t.Fork? {
      TipsOfAreLeaves(t.kids);
      assert ToPattern(t).children == ToPatterns(t.kids);
    }
  }

  lemma {:induction false} TipsOfAreLeaves(kids: seq<Shape>)
    requires ProperAll(kids)
    ensures AllLeaves(LeavesOf(ToPatterns(kids)))
    decreases kids, 0
  {
    if kids != [] {
      TipsAreLeaves(kids[0]);
      TipsOfAreLeaves(kids[1..]);
    }
  }

  /** The representative of each leaf. */
  lemma Representatives(t: Shape, uniq: seq<Node>) returns (rep: map<Node, Node>)
    requires forall n :: n in Tips(t) ==> Among(uniq, n)
    requires AllLeaves(uniq)
    ensures Represents(rep, uniq, Tips(t)) && rep.Keys == Tips(t)
    ensures forall n :: n in rep ==> rep[n].kind == LeafKind
  {
    rep := map n | n in Tips(t) :: uniq[Index(uniq, n)];
  }

  lemma RedirectedIsShared(t: Shape, uniq: seq<Node>, rep: map<Node, Node>)
    requires Represents(rep, uniq, Tips(t)) && rep.Keys == Tips(t) && PrintApart(uniq)
    ensures Shared(Redirected(t, rep)) && Render(Redirected(t, rep)) == Render(t)
    ensures Tips(Redirected(t, rep)) <= Tips(t) + (set u | u in uniq)
  {
    var t', p := Redirected(t, rep), ToPattern(t);
    RedirectedPattern(t, rep);
    LeavesMap(p, Lookup(rep));
    forall n | n in Tips(t')
      ensures n in uniq
    {
      var i :| 0 <= i < |Leaves(p)| && n == Lookup(rep)(Leaves(p)[i]);
      assert Leaves(p)[i] in Tips(t);
    }
    var data, data' := Printer(Snap(Tips(t))), Printer(Snap(Tips(t')));
    forall n | n in Leaves(p)
      ensures data(n) == data'(Lookup(rep)(n))
    {
      var i :| 0 <= i < |Leaves(p)| && n == Leaves(p)[i];
      assert n in Tips(t) && Leaves(ToPattern(t'))[i] == rep[n];
    }
    MapTwice(p, Lookup(rep), data', data);
  }

  /** Lines 45-55.  The tree keeps its shape and its printed form, and afterwards leaves that
      print alike are one object; only `children` lists change. */
  method FixIdentities(self: Node, ghost t: Shape) returns (ghost t': Shape)
    requires Holds(t) && t.node == self && t.Fork?
    modifies Forks(t)`children
    ensures Holds(t') && t'.node == self && Forks(t') == Forks(t)
    ensures Tips(t') <= Tips(t)
    ensures Render(t') == old(Render(t)) && Shared(t')
  {
    var leaves := Flat(self, t);
    var uniq := Unique(leaves);
    TipsAreLeaves(t);
    ghost var rep := Representatives(t, uniq);
    t' := Redirected(t, rep);
    RedirectedIsShared(t, uniq, rep);
    RedirectedForks(t, rep);
    RedirectedProper(t, rep);
    Redirect(self, uniq, t, rep);
  }

  // ---------- fix_repeating_arguments ----------

  /** Lines 62-68. */
  method Mark(e: Node)
    modifies e`value
    ensures e.value == Accumulated(old(e.Data()))
  {
    if e.leaf.Argument? || (e.leaf.Opt? && e.leaf.argcount != 0) {
      if e.value.Null? {
        e.value := Texts([]);
      } else if !e.value.Texts? {
        e.value := if e.value.Text? then Texts(Words(e.value.text, [])) else TypeError;
      }
    }
    if e.leaf.Command? || (e.leaf.Opt? && e.leaf.argcount == 0) {
      e.value := Count(0);
    }
  }

  /** The tree the heap holds, as a value for `transform`. */
  function Read(self: Node, ghost t: Shape): (p: Pattern<Node>)
    requires Holds(t) && t.node == self
    reads Links(t).Keys`children
    ensures p == ToPattern(t)
    decreases t, 1
  {
    if self.kind == LeafKind then Leaf(self) else
      KidsLinked(t, map[]);
      assert LinksOf(t.kids).Keys <= Links(t).Keys;
      Branch(self.kind, ReadOf(self.children, t.kids))
  }

  function ReadOf(ns: seq<Node>, ghost kids: seq<Shape>): (ps: seq<Pattern<Node>>)
    requires ProperAll(kids) && Linked(LinksOf(kids)) && ns == Roots(kids)
    reads LinksOf(kids).Keys`children
    ensures ps == ToPatterns(kids)
    decreases kids, 0
  {
    if ns == [] then [] else
      FirstKid(kids);
      assert ns[1..] == Roots(kids[1..]);
      [Read(ns[0], kids[0])] + ReadOf(ns[1..], kids[1..])
  }

  /** `case.count(e)`, equality being equality of printed forms. */
  function CountLike(g: seq<Pattern<Node>>, d: Element): nat
    requires T.Flat(g)
    reads set i | 0 <= i < |g| :: g[i].leaf`value
  {
    if g == [] then 0 else (if g[0].leaf.Data() == d then 1 else 0) + CountLike(g[1..], d)
  }

  /** No two objects among `ns` have the same name. */
  ghost predicate NamedApart(ns: set<Node>) {
    forall m, n :: m in ns && n in ns && Name(m.leaf) == Name(n.leaf) ==> m == n
  }

  /** Nodes with distinct names print apart whatever their values, so counting printed forms
      counts objects, also while values are being changed. */
  lemma {:induction false} CountLikeIsMultiplicity(g: seq<Pattern<Node>>, e: Node, tips: set<Node>)
    requires T.Flat(g) && NamedApart(tips) && e in tips
    requires forall i :: 0 <= i < |g| ==> g[i].leaf in tips
    ensures CountLike(g, e.Data()) == T.LeafBag(g)[e]
  {
    if g != [] {
      CountLikeIsMultiplicity(g[1..], e, tips);
      if g[0].leaf.Data() == e.Data() {
        assert Name(g[0].leaf.Data()) == Name(g[0].leaf.leaf) && Name(e.Data()) == Name(e.leaf);
      }
    }
  }

  /** `[child for child in case if case.count(child) > 1]` */
  function Duplicates(g: seq<Pattern<Node>>, all: seq<Pattern<Node>>): seq<Node>
    requires T.Flat(g) && T.Flat(all)
    reads (set i | 0 <= i < |g| :: g[i].leaf)`value, (set i | 0 <= i < |all| :: all[i].leaf)`value
  {
    if g == [] then [] else
      (if CountLike(all, g[0].leaf.Data()) > 1 then [g[0].leaf] else []) + Duplicates(g[1..], all)
  }

  lemma {:induction false} DuplicatesAre(g: seq<Pattern<Node>>, all: seq<Pattern<Node>>, tips: set<Node>, n: Node)
    requires T.Flat(g) && T.Flat(all) && NamedApart(tips)
    requires forall i :: 0 <= i < |all| ==> all[i].leaf in tips
    requires forall i :: 0 <= i < |g| ==> g[i] in all
    ensures n in Duplicates(g, all) <==> T.LeafBag(all)[n] > 1 && n in T.LeafBag(g)
  {
    if g != [] {
      DuplicatesAre(g[1..], all, tips, n);
      CountLikeIsMultiplicity(all, g[0].leaf, tips);
    }
  }

  lemma DuplicatesOfCase(g: seq<Pattern<Node>>, tips: set<Node>, es: seq<Node>)
    requires T.Flat(g) && NamedApart(tips)
    requires forall i :: 0 <= i < |g| ==> g[i].leaf in tips
    requires es == Duplicates(g, g)
    ensures forall n :: n in es <==> T.LeafBag(g)[n] > 1
    ensures forall n :: n in es ==> n in tips
  {
    forall n
      ensures n in es <==> T.LeafBag(g)[n] > 1
    {
      DuplicatesAre(g, g, tips, n);
    }
    forall n | n in es
      ensures n in tips
    {
      DuplicatesAre(g, g, tips, n);
      LeafBagIn(g, n);
    }
  }

  lemma {:induction false} LeafBagIn<L>(g: seq<Pattern<L>>, n: L)
    requires T.Flat(g) && n in T.LeafBag(g)
    ensures exists i :: 0 <= i < |g| && g[i].leaf == n
  {
    if g[0].leaf != n {
      LeafBagIn(g[1..], n);
      var i :| 0 <= i < |g[1..]| && g[1..][i].leaf == n;
      assert g[i + 1].leaf == n;
    }
  }

  lemma {:induction false} AltsLeaves<L>(p: Pattern<L>, m: multiset<L>, l: L)
    requires m in Alts(p) && l in m
    ensures l in Leaves(p)
    decreases p, 1
  {
    match p
    case Leaf(_) =>
    case Either(cs) => AltsAnyLeaves(cs, m, l);
    case OneOrMore(cs) =>
      var x, y := CrossSplit(AltsAll(cs), AltsAll(cs), m);
      AltsAllLeaves(cs, if l in x then x else y, l);
    case Required(cs) => AltsAllLeaves(cs, m, l);
    case Optional(cs) => AltsAllLeaves(cs, m, l);
    case OptionsShortcut(cs) => AltsAllLeaves(cs, m, l);
  }

  lemma {:induction false} AltsAllLeaves<L>(g: seq<Pattern<L>>, m: multiset<L>, l: L)
    requires m in AltsAll(g) && l in m
    ensures l in LeavesOf(g)
    decreases g, 0
  {
    if g != [] {
      var x, y := CrossSplit(Alts(g[0]), AltsAll(g[1..]), m);
      if l in x {
        AltsLeaves(g[0], x, l);
      } else {
        AltsAllLeaves(g[1..], y, l);
      }
    }
  }

  lemma {:induction false} AltsAnyLeaves<L>(g: seq<Pattern<L>>, m: multiset<L>, l: L)
    requires m in AltsAny(g) && l in m
    ensures l in LeavesOf(g)
    decreases g, 0
  {
    if m in Alts(g[0]) {
      AltsLeaves(g[0], m, l);
    } else {
      AltsAnyLeaves(g[1..], m, l);
    }
  }

  /** Exactly the leaves in `marked` have been turned into accumulators. */
  ghost predicate MarkedAre(tips: set<Node>, orig: map<Node, Element>, marked: set<Node>)
    reads tips`value
  {
    && tips <= orig.Keys
    && forall n :: n in tips ==>
         n.Data() == if n in marked then Accumulator(orig[n]) else orig[n]
  }

  lemma AccumulatedTwice(l: Element)
    ensures Accumulated(Accumulator(l)) == Accumulated(l)
  {
  }

  method MarkAll(es: seq<Node>, ghost tips: set<Node>, ghost orig: map<Node, Element>, ghost marked: set<Node>)
    requires MarkedAre(tips, orig, marked)
    requires forall e :: e in es ==> e in tips
    modifies tips`value
    ensures MarkedAre(tips, orig, marked + Members(es))
  {
    for k := 0 to |es|
      invariant MarkedAre(tips, orig, marked + Members(es[..k]))
    {
      var e := es[k];
      AccumulatedTwice(orig[e]);
      Mark(e);
      assert Members(es[..k + 1]) == Members(es[..k]) + {e};
    }
    assert es[..|es|] == es;
  }

  /** The leaves that occur twice in one of the cases. */
  ghost function Twice(tips: set<Node>, bags: seq<multiset<Node>>): set<Node> {
    set n | n in tips && exists m :: m in bags && m[n] > 1
  }

  /** A case found by `transform` has only leaves of the tree. */
  lemma CaseLeaves(p: Pattern<Node>, r: Pattern<Node>, a: nat, tips: set<Node>)
    requires T.IsCases(r) && multiset(T.Cases(r)) == multiset(Alts(p))
    requires a < |r.children| && tips == Members(Leaves(p))
    ensures forall i :: 0 <= i < |r.children[a].children| ==> r.children[a].children[i].leaf in tips
  {
    var bag := T.Cases(r)[a];
    assert bag in multiset(T.Cases(r));
    var g := r.children[a].children;
    forall i | 0 <= i < |g|
      ensures g[i].leaf in tips
    {
      InLeafBag(g, i);
      AltsLeaves(p, bag, g[i].leaf);
    }
  }

  lemma {:induction false} InLeafBag<L>(g: seq<Pattern<L>>, i: nat)
    requires T.Flat(g) && i < |g|
    ensures g[i].leaf in T.LeafBag(g)
  {
    if i > 0 {
      InLeafBag(g[1..], i - 1);
    }
  }

  lemma TwiceSnoc(tips: set<Node>, bags: seq<multiset<Node>>, a: nat, es: seq<Node>)
    requires a < |bags|
    requires forall n :: n in es <==> bags[a][n] > 1
    requires forall n :: n in es ==> n in tips
    ensures Twice(tips, bags[..a + 1]) == Twice(tips, bags[..a]) + Members(es)
  {
    assert bags[..a + 1] == bags[..a] + [bags[a]];
  }

  lemma SameMembers<T>(xs: seq<T>, ys: seq<T>, x: T)
    requires multiset(xs) == multiset(ys)
    ensures x in xs <==> x in ys
  {
    assert x in xs <==> x in multiset(xs);
    assert x in ys <==> x in multiset(ys);
  }

  lemma TwiceIsRepeated(p: Pattern<Node>, bags: seq<multiset<Node>>, tips: set<Node>, n: Node)
    requires multiset(bags) == multiset(Alts(p))
    ensures n in Twice(tips, bags) <==> n in tips && Repeated(p, n)
  {
    if m :| m in bags && m[n] > 1 {
      SameMembers(bags, Alts(p), m);
    }
    if m :| m in Alts(p) && m[n] > 1 {
      SameMembers(bags, Alts(p), m);
    }
  }

  /** Lines 57-69.  Afterwards a leaf is an accumulator exactly if it occurs more than once
      in some alternative; the values change while cases are still being counted. */
  method FixRepeating(self: Node, ghost t: Shape, ghost tips: set<Node>)
    requires Holds(t) && t.node == self && tips == Tips(t)
    requires NamedApart(tips)
    modifies tips`value
    ensures forall n :: n in tips ==>
              n.Data() == if Repeated(ToPattern(t), n) then Accumulator(old(n.Data())) else old(n.Data())
  {
    ghost var orig := Snap(tips);
    var p := Read(self, t);
    var either, _ := T.Transform(p);
    ghost var bags := T.Cases(either);
    ghost var marked := {};
    for a := 0 to |either.children|
      invariant MarkedAre(tips, orig, marked)
      invariant marked == Twice(tips, bags[..a])
    {
      var g := either.children[a].children;
      CaseLeaves(p, either, a, tips);
      var es := Duplicates(g, g);
      DuplicatesOfCase(g, tips, es);
      assert T.LeafBag(g) == bags[a];
      TwiceSnoc(tips, bags, a, es);
      MarkAll(es, tips, orig, marked);
      marked := marked + Members(es);
    }
    MarkedAreRepeated(p, bags, tips, marked);
  }

  lemma MarkedAreRepeated(p: Pattern<Node>, bags: seq<multiset<Node>>, tips: set<Node>, marked: set<Node>)
    requires multiset(bags) == multiset(Alts(p)) && marked == Twice(tips, bags[..|bags|])
    ensures forall n :: n in tips ==> (n in marked <==> Repeated(p, n))
  {
    assert bags[..|bags|] == bags;
    forall n | n in tips
      ensures n in marked <==> Repeated(p, n)
    {
      TwiceIsRepeated(p, bags, tips, n);
    }
  }

  // ---------- fix ----------

  /** The two passes together compute `Fixed` of what the tree prints as. */
  lemma RepeatedPrints(p: Pattern<Node>, data: Node -> Element, n: Node)
    requires NoEmptyEither(p)
    requires n in Leaves(p) && Separates(data, Leaves(p), n)
    ensures Repeated(p, n) <==> Repeated(MapLeaves(p, data), data(n))
  {
    RepeatedIsOcc(p, n);
    NoEmptyEitherMap(p, data);
    RepeatedIsOcc(MapLeaves(p, data), data(n));
    OccMap(p, data, n);
  }

  lemma RepeatedIsOcc<L>(p: Pattern<L>, l: L)
    requires NoEmptyEither(p)
    ensures Repeated(p, l) <==> Occ(p, l) > 1
  {
    OccIsPeak(p, l);
  }

  lemma {:induction false} NoEmptyEitherMap<L, M>(p: Pattern<L>, f: L -> M)
    ensures NoEmptyEither(MapLeaves(p, f)) == NoEmptyEither(p)
    decreases p
  {
    if !p.Leaf? {
      forall i | 0 <= i < |p.children|
        ensures NoEmptyEither(MapLeaves(p.children[i], f)) == NoEmptyEither(p.children[i])
      {
        NoEmptyEitherMap(p.children[i], f);
      }
      var q := MapLeaves(p, f);
      assert |q.children| == |p.children| && q.Either? == p.Either?;
      assert forall i :: 0 <= i < |p.children| ==> q.children[i] == MapLeaves(p.children[i], f);
    }
  }

  /** With a consistent tree, leaves that are one object whenever they print alike have
      distinct names. */
  lemma SharedNames(t: Shape, r: Tree)
    requires WellFormed(r) && r == Render(t) && Shared(t)
    ensures NamedApart(Tips(t))
    ensures forall n :: n in Tips(t) ==> Fresh(n.Data())
    ensures forall n :: n in Tips(t) ==> Separates(Printer(Snap(Tips(t))), Leaves(ToPattern(t)), n)
  {
    var p, data := ToPattern(t), Printer(Snap(Tips(t)));
    LeavesMap(p, data);
    forall m, n | m in Tips(t) && n in Tips(t) && Name(m.leaf) == Name(n.leaf)
      ensures m == n
    {
      var i :| 0 <= i < |Leaves(p)| && Leaves(p)[i] == m;
      var j :| 0 <= j < |Leaves(p)| && Leaves(p)[j] == n;
      assert Leaves(Render(t))[i] == m.Data() && Leaves(Render(t))[j] == n.Data();
      assert Name(m.Data()) == Name(n.Data());
    }
    forall n | n in Tips(t)
      ensures Fresh(n.Data())
      ensures Separates(data, Leaves(p), n)
    {
      var i :| 0 <= i < |Leaves(p)| && Leaves(p)[i] == n;
      assert Leaves(Render(t))[i] == n.Data();
      forall k | 0 <= k < |Leaves(p)| && data(Leaves(p)[k]) == data(n)
        ensures Leaves(p)[k] == n
      {
        assert Leaves(p)[k] in Tips(t);
      }
    }
  }

  /** The values written by fix_repeating_arguments are those of `Fixed`. */
  lemma WrittenIsFixed(p: Pattern<Node>, data: Node -> Element, data': Node -> Element)
    requires NoEmptyEither(p)
    requires forall n :: n in Leaves(p) ==> Separates(data, Leaves(p), n)
    requires forall n :: n in Leaves(p) ==> data'(n) == if Repeated(p, n) then Accumulator(data(n)) else data(n)
    ensures MapLeaves(p, data') == Fixed(MapLeaves(p, data))
  {
    var r := MapLeaves(p, data);
    forall n | n in Leaves(p)
      ensures data'(n) == FixedLeaf(r, data(n))
    {
      RepeatedPrints(p, data, n);
    }
    MapTwice(p, data, l => FixedLeaf(r, l), data');
  }

  lemma NamedIsShared(t: Shape)
    requires NamedApart(Tips(t))
    ensures Shared(t)
  {
    forall m, n | m in Tips(t) && n in Tips(t) && m.Data() == n.Data()
      ensures m == n
    {
      assert Name(m.leaf) == Name(m.Data()) && Name(n.leaf) == Name(n.Data());
    }
  }

  /** fix_repeating_arguments on a tree whose leaves are shared and that prints as `r`. */
  method FixShared(self: Node, ghost t: Shape, ghost r: Tree, ghost links: map<Node, seq<Node>>)
    requires Holds(t) && t.node == self && links == Links(t)
    requires Shared(t) && WellFormed(r) && r == Render(t)
    modifies Tips(t)`value
    ensures Holds(t) && Shared(t)
    ensures Render(t) == Fixed(r)
    ensures forall n :: n in Tips(t) ==> (Accumulates(n.Data()) <==> Repeated(ToPattern(t), n))
  {
    SharedNames(t, r);
    ghost var tips, p := Tips(t), ToPattern(t);
    ghost var data := Printer(Snap(tips));
    NoEmptyEitherMap(p, data);
    FixRepeating(self, t, tips);
    assert Linked(links);
    WrittenIsFixed(p, data, Printer(Snap(tips)));
    NamedIsShared(t);
    forall n | n in tips
      ensures Accumulates(n.Data()) <==> Repeated(p, n)
    {
      FreshAccumulates(data(n));
    }
  }

  lemma FreshAccumulates(l: Element)
    requires Fresh(l)
    ensures !Accumulates(l) && Accumulates(Accumulator(l))
  {
  }

  /** `pattern.fix()`. */
  method Fix(self: Node, ghost t: Shape) returns (ghost t': Shape)
    requires Holds(t) && t.node == self && t.Fork?
    requires WellFormed(Render(t))
    modifies Forks(t)`children, Tips(t)`value
    ensures Holds(t') && t'.node == self
    ensures Tips(t') <= Tips(t) && Shared(t')
    ensures Render(t') == Fixed(old(Render(t)))
    ensures forall n :: n in Tips(t') ==> (Accumulates(n.Data()) <==> Repeated(ToPattern(t'), n))
  {
    ghost var r := Render(t);
    t' := FixIdentities(self, t);
    FixShared(self, t', r, Links(t'));
  }
}
