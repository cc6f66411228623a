/** What a usage pattern accepts, said without the matcher, and the matcher's soundness.

A pattern denotes a language of event sequences, read like a regular expression over
leaves.  Whatever the greedy matcher does on a successful match is a word of that language,
and its events take exactly the argv elements that are gone from `left`.
 */
module Language {
  import opened Basics
  import opened Elements
  import opened Patterns
  import opened Matcher

  /** `leaf` may take the argv element `item`. */
  predicate Fits(leaf: Element, item: Element) {
    match leaf
    case Argument(_, _) => item.Argument?
    case Command(name, _) => item.Argument? && SpelledBy(name, item.value)
    case Opt(_, _, _, _) => Name(leaf) == Name(item)
  }

  ghost predicate InLang(p: Tree, es: seq<Event>)
    decreases p, 1, 0
  {
    match p
    case Leaf(l) => |es| == 1 && es[0].leaf == l && Fits(l, es[0].item)
    case Required(cs) => InAll(cs, es)
    case Optional(cs) => InEach(cs, es)
    case OptionsShortcut(cs) => InEach(cs, es)
    case Either(cs) => exists i :: 0 <= i < |cs| && InLang(cs[i], es)
    case OneOrMore(cs) => InRepeat(cs, es)
  }

  /** A word of every member, one after the other. */
  ghost predicate InAll(cs: seq<Tree>, es: seq<Event>)
    decreases cs, 0, 0
  {
    if cs == [] then es == []
    else exists k :: 0 <= k <= |es| && InLang(cs[0], es[..k]) && InAll(cs[1..], es[k..])
  }

  /** A word of some of the members, in their order. */
  ghost predicate InEach(cs: seq<Tree>, es: seq<Event>)
    decreases cs, 0, 0
  {
    if cs == [] then es == []
    else exists k :: 0 <= k <= |es| && (k == 0 || InLang(cs[0], es[..k])) && InEach(cs[1..], es[k..])
  }

  /** One or more words of the repeated group. */
  ghost predicate InRepeat(cs: seq<Tree>, es: seq<Event>)
    decreases cs, 1, |es|
  {
    || InAll(cs, es)
    || exists k :: 0 < k <= |es| && InAll(cs, es[..k]) && InRepeat(cs, es[k..])
  }

  function Items(es: seq<Event>): (r: seq<Element>)
    ensures |r| == |es|
    ensures forall i :: 0 <= i < |es| ==> r[i] == es[i].item
  {
    seq(|es|, i requires 0 <= i < |es| => es[i].item)
  }

  /** Taking `items` out of `left`, one after the other, leaves `rest`. */
  ghost predicate Takes(left: seq<Element>, items: seq<Element>, rest: seq<Element>)
    decreases |items|
  {
    if items == [] then rest == left
    else exists i :: 0 <= i < |left| && left[i] == items[0] && Takes(Drop(left, i), items[1..], rest)
  }

  /** What `leaf` must not pass over: an option the options of its name, a word any word. */
  predicate Rival(leaf: Element, item: Element) {
    if leaf.Opt? then Name(item) == Name(leaf) else item.Argument?
  }

  /** Element `i` is the one `leaf` may take: it fits, and no rival stands before it. */
  predicate TakesAt(leaf: Element, left: seq<Element>, i: nat) {
    i < |left| && Fits(leaf, left[i]) && forall j :: 0 <= j < i ==> !Rival(leaf, left[j])
  }

  /** Each leaf takes the first argv element it can, as a word of the pattern read against argv:
      words in their order, options from wherever they stand. */
  ghost predicate TakesInOrder(left: seq<Element>, es: seq<Event>, rest: seq<Element>)
    decreases |es|
  {
    if es == [] then rest == left
    else exists i: nat :: TakesAt(es[0].leaf, left, i) && left[i] == es[0].item && TakesInOrder(Drop(left, i), es[1..], rest)
  }

  /** `s` is `t` with some elements left out. */
  ghost predicate IsSubsequence<T>(s: seq<T>, t: seq<T>) {
    || s == []
    || (t != [] && s[0] == t[0] && IsSubsequence(s[1..], t[1..]))
    || (t != [] && IsSubsequence(s, t[1..]))
  }

  // ---------- one leaf ----------

  /** A leaf is matched with the one element it may take, if there is one. */
  lemma SingleMatchIs(leaf: Element, left: seq<Element>)
    ensures SingleMatch(leaf, left) < |left| ==> TakesAt(leaf, left, SingleMatch(leaf, left))
    ensures forall i: nat :: TakesAt(leaf, left, i) ==> SingleMatch(leaf, left) == i
  {
  }

  /** The first element of the option's name. */
  predicate FirstOfName(n: Option<string>, l: seq<Element>, i: nat) {
    i < |l| && Name(l[i]) == n && forall j :: 0 <= j < i ==> Name(l[j]) != n
  }

  /** The first word. */
  predicate FirstWord(l: seq<Element>, i: nat) {
    i < |l| && l[i].Argument? && forall j :: 0 <= j < i ==> !l[j].Argument?
  }

  /** The leaf matches by taking element `i`. */
  ghost predicate TakesOnly(leaf: Element, l: seq<Element>, i: nat) {
    var r := RunOf(Leaf(leaf), l);
    i < |l| && r.matched && r.left == l[..i] + l[i + 1..] && r.events == [Event(leaf, l[i])]
  }

  lemma OptionAt(leaf: Element, l: seq<Element>, i: nat)
    requires leaf.Opt? && FirstOfName(Name(leaf), l, i)
    ensures TakesOnly(leaf, l, i)
  {
    assert Find(l, Name(leaf)) == i;
  }

  lemma WordAt(leaf: Element, l: seq<Element>, i: nat)
    requires !leaf.Opt? && FirstWord(l, i)
    ensures if leaf.Command? && l[i].value != (if leaf.name.Some? then Text(leaf.name.value) else Null)
            then !RunOf(Leaf(leaf), l).matched else TakesOnly(leaf, l, i)
  {
    assert FindArgument(l) == i;
  }

  /** An option is found wherever it stands: it matches if argv has an element of its name, and
      takes the first one. */
  lemma OptionRun(leaf: Element, l: seq<Element>)
    requires leaf.Opt?
    ensures RunOf(Leaf(leaf), l).matched <==> exists i :: 0 <= i < |l| && Name(l[i]) == Name(leaf)
    ensures forall i: nat :: FirstOfName(Name(leaf), l, i) ==> TakesOnly(leaf, l, i)
  {
    forall i: nat | FirstOfName(Name(leaf), l, i)
      ensures TakesOnly(leaf, l, i)
    {
      OptionAt(leaf, l, i);
    }
  }

  /** An argument takes the first word, a command too but only if it is that word. */
  lemma WordRun(leaf: Element, l: seq<Element>)
    requires !leaf.Opt?
    ensures (forall j :: 0 <= j < |l| ==> !l[j].Argument?) ==> !RunOf(Leaf(leaf), l).matched
    ensures forall i: nat :: FirstWord(l, i) ==>
              if leaf.Command? && l[i].value != (if leaf.name.Some? then Text(leaf.name.value) else Null)
              then !RunOf(Leaf(leaf), l).matched else TakesOnly(leaf, l, i)
  {
    forall i: nat | FirstWord(l, i)
      ensures if leaf.Command? && l[i].value != (if leaf.name.Some? then Text(leaf.name.value) else Null)
              then !RunOf(Leaf(leaf), l).matched else TakesOnly(leaf, l, i)
    {
      WordAt(leaf, l, i);
    }
  }

  /** Only a leaf that accumulates counts as tried, and only if it matches. */
  lemma LeafTries(leaf: Element, l: seq<Element>)
    ensures RunOf(Leaf(leaf), l).tried == One(RunOf(Leaf(leaf), l).matched && Accumulates(leaf))
  {
  }

  // ---------- consumption ----------

  /** The first step of taking in order. */
  lemma OrderHead(left: seq<Element>, es: seq<Event>, rest: seq<Element>)
    requires es != []
    ensures var pos := SingleMatch(es[0].leaf, left);
            TakesInOrder(left, es, rest)
            <==> pos < |left| && left[pos] == es[0].item && TakesInOrder(Drop(left, pos), es[1..], rest)
  {
    SingleMatchIs(es[0].leaf, left);
  }

  lemma {:induction false} OrderConcat(a: seq<Element>, es: seq<Event>, b: seq<Element>, fs: seq<Event>, c: seq<Element>)
    requires TakesInOrder(a, es, b) && TakesInOrder(b, fs, c)
    ensures TakesInOrder(a, es + fs, c)
    decreases |es|
  {
    if es == [] {
      assert es + fs == fs;
    } else {
      OrderHead(a, es, b);
      OrderHead(a, es + fs, c);
      OrderConcat(Drop(a, SingleMatch(es[0].leaf, a)), es[1..], b, fs, c);
      assert (es + fs)[0] == es[0] && (es + fs)[1..] == es[1..] + fs;
    }
  }

  lemma {:induction false} OrderTakes(left: seq<Element>, es: seq<Event>, rest: seq<Element>)
    requires TakesInOrder(left, es, rest)
    ensures Takes(left, Items(es), rest)
    decreases |es|
  {
    if es != [] {
      OrderHead(left, es, rest);
      OrderTakes(Drop(left, SingleMatch(es[0].leaf, left)), es[1..], rest);
      assert Items(es)[1..] == Items(es[1..]);
    }
  }

  lemma {:induction false} SubsequenceRefl<T>(s: seq<T>)
    ensures IsSubsequence(s, s)
  {
    if s != [] {
      SubsequenceRefl(s[1..]);
    }
  }

  lemma {:induction false} DropIsSubsequence<T>(s: seq<T>, i: nat)
    requires i < |s|
    ensures IsSubsequence(Drop(s, i), s)
  {
    if i == 0 {
      assert Drop(s, 0) == s[1..];
      SubsequenceRefl(s[1..]);
    } else {
      DropIsSubsequence(s[1..], i - 1);
      assert Drop(s, i)[0] == s[0] && Drop(s, i)[1..] == Drop(s[1..], i - 1);
    }
  }

  lemma {:induction false} SubsequenceTrans<T>(r: seq<T>, s: seq<T>, t: seq<T>)
    requires IsSubsequence(r, s) && IsSubsequence(s, t)
    ensures IsSubsequence(r, t)
    decreases |s| + |t|
  {
    if r == [] {
    } else if t != [] && IsSubsequence(s, t[1..]) {
      SubsequenceTrans(r, s, t[1..]);
    } else if s[0] == r[0] && IsSubsequence(r[1..], s[1..]) {
      SubsequenceTrans(r[1..], s[1..], t[1..]);
    } else {
      SubsequenceTrans(r, s[1..], t[1..]);
    }
  }

  lemma DropBag<T>(s: seq<T>, i: nat)
    requires i < |s|
    ensures multiset(s) == multiset{s[i]} + multiset(Drop(s, i))
  {
    assert s == s[..i] + ([s[i]] + s[i + 1..]);
  }

  /** Nothing is lost or invented: what was there is what was taken plus what is left. */
  lemma {:induction false} TakesExactly(left: seq<Element>, items: seq<Element>, rest: seq<Element>)
    requires Takes(left, items, rest)
    ensures multiset(left) == multiset(items) + multiset(rest)
    ensures |left| == |items| + |rest|
    ensures IsSubsequence(rest, left)
    decreases |items|
  {
    if items == [] {
      SubsequenceRefl(left);
    } else {
      var i :| 0 <= i < |left| && left[i] == items[0] && Takes(Drop(left, i), items[1..], rest);
      TakesExactly(Drop(left, i), items[1..], rest);
      DropBag(left, i);
      DropBag(items, 0);
      assert Drop(items, 0) == items[1..];
      DropIsSubsequence(left, i);
      SubsequenceTrans(rest, Drop(left, i), left);
    }
  }

  // ---------- soundness ----------

  /** A successful run is a word of the pattern's language and takes what is gone. */
  ghost predicate SoundRun(p: Tree, left: seq<Element>, r: Run) {
    InLang(p, r.events) && TakesInOrder(left, r.events, r.left)
  }

  lemma SingleMatchFits(self: Element, left: seq<Element>)
    ensures SingleMatch(self, left) < |left| ==> Fits(self, left[SingleMatch(self, left)])
  {
  }

  lemma {:induction false} RunIsSound(p: Tree, left: seq<Element>)
    requires Matchable(p)
    ensures RunOf(p, left).matched ==> SoundRun(p, left, RunOf(p, left))
    decreases p, 0
  {
    match p
    case Leaf(self) =>
      var pos := SingleMatch(self, left);
      if pos < |left| {
        SingleMatchFits(self, left);
        var es := [Event(self, left[pos])];
        assert es[1..] == [];
        OrderHead(left, es, Drop(left, pos));
      }
    case Required(cs) => RunAllIsSound(cs, left);
    case Optional(cs) => RunEachIsSound(cs, left);
    case OptionsShortcut(cs) => RunEachIsSound(cs, left);
    case OneOrMore(cs) => RunLoopIsSound(cs, left, true);
    case Either(cs) =>
      var runs := RunAny(cs, left);
      if runs != [] {
        var k := Shortest(RunLefts(runs));
        RunAnyIsSound(cs, left, k);
      }
  }

  lemma {:induction false} RunAllIsSound(cs: seq<Tree>, left: seq<Element>)
    requires AllMatchable(cs)
    ensures var r := RunAll(cs, left);
            r.matched ==> InAll(cs, r.events) && TakesInOrder(left, r.events, r.left)
    decreases cs, 0
  {
    if cs != [] {
      var r := RunOf(cs[0], left);
      RunIsSound(cs[0], left);
      if r.matched {
        var s := RunAll(cs[1..], r.left);
        RunAllIsSound(cs[1..], r.left);
        if s.matched {
          JoinWords(r.events, s.events);
          OrderConcat(left, r.events, r.left, s.events, s.left);
        }
      }
    }
  }

  lemma JoinWords(es: seq<Event>, fs: seq<Event>)
    ensures (es + fs)[..|es|] == es && (es + fs)[|es|..] == fs
  {
  }

  lemma {:induction false} RunEachIsSound(cs: seq<Tree>, left: seq<Element>)
    requires AllMatchable(cs)
    ensures var r := RunEach(cs, left);
            InEach(cs, r.events) && TakesInOrder(left, r.events, r.left)
    decreases cs, 0
  {
    if cs != [] {
      var r := RunOf(cs[0], left);
      RunIsSound(cs[0], left);
      var s := RunEach(cs[1..], r.left);
      RunEachIsSound(cs[1..], r.left);
      JoinWords(r.events, s.events);
      assert TakesInOrder(left, r.events, r.left);
      OrderConcat(left, r.events, r.left, s.events, s.left);
    }
  }

  lemma OneWord(cs: seq<Tree>, es: seq<Event>)
    requires |cs| == 1 && InLang(cs[0], es)
    ensures InAll(cs, es)
  {
    assert es[..|es|] == es && es[|es|..] == [] && cs[1..] == [];
  }

  /** Rounds that take something are words; the last round may take nothing. */
  lemma {:induction false} RunLoopIsSound(cs: seq<Tree>, l: seq<Element>, first: bool)
    requires |cs| == 1 && Matchable(cs[0])
    ensures var (n, r) := RunLoop(cs[0], l, first);
            && TakesInOrder(l, r.events, r.left)
            && (n >= 1 ==> InRepeat(cs, r.events))
            && (n == 0 ==> r.events == [])
    decreases cs, 1, if first then 1 else 0, |l|
  {
    var p := cs[0];
    var r := RunOf(p, l);
    RunIsSound(p, l);
    if r.matched {
      OneWord(cs, r.events);
      if first || r.left != l {
        RunLoopIsSound(cs, r.left, false);
        var (m, s) := RunLoop(p, r.left, false);
        JoinWords(r.events, s.events);
        OrderConcat(l, r.events, r.left, s.events, s.left);
        ChainWords(cs, r.events, s.events, m);
      }
    }
  }

  lemma ChainWords(cs: seq<Tree>, es: seq<Event>, fs: seq<Event>, m: nat)
    requires InAll(cs, es)
    requires if m >= 1 then InRepeat(cs, fs) else fs == []
    ensures InRepeat(cs, es + fs)
  {
    JoinWords(es, fs);
    if m == 0 {
      assert es + fs == es;
    } else if es == [] {
      assert es + fs == fs;
    }
  }

  lemma {:induction false} RunAnyIsSound(cs: seq<Tree>, left: seq<Element>, k: nat)
    requires AllMatchable(cs)
    requires k < |RunAny(cs, left)|
    ensures var r := RunAny(cs, left)[k];
            (exists i :: 0 <= i < |cs| && InLang(cs[i], r.events)) && TakesInOrder(left, r.events, r.left)
    decreases cs, 0
  {
    RunIsSound(cs[0], left);
    if !RunOf(cs[0], left).matched || k > 0 {
      var k' := if RunOf(cs[0], left).matched then k - 1 else k;
      RunAnyIsSound(cs[1..], left, k');
      var r := RunAny(cs, left)[k];
      assert r == RunAny(cs[1..], left)[k'];
      var i :| 0 <= i < |cs[1..]| && InLang(cs[1..][i], r.events);
      assert InLang(cs[i + 1], r.events);
    }
  }

  /** Soundness of `match`: success derives a word of the pattern that accounts for exactly
      the argv elements removed; failure gives back what was passed in. */
  lemma MatchIsSound(p: Tree, left: seq<Element>, collected: seq<Element>)
    requires Matchable(p)
    ensures var o := Match(p, left, collected);
            if o.matched then
              && IsSubsequence(o.left, left)
              && exists es :: InLang(p, es) && TakesInOrder(left, es, o.left) && Takes(left, Items(es), o.left)
                              && o.collected == CollectAll(collected, es)
            else o.left == left && o.collected == collected
  {
    MatchIsRun(p, left, collected);
    RunIsSound(p, left);
    var r := RunOf(p, left);
    if r.matched {
      OrderTakes(left, r.events, r.left);
      TakesExactly(left, Items(r.events), r.left);
    }
  }

  lemma OptionalTakes(a: Element, word: Element)
    requires a.Argument? && a.value == Null && word == Argument(None, word.value)
    ensures var p: Tree := Optional([Leaf(a)]); Matchable(p) && Match(p, [word], []).matched && Match(p, [word], []).left == []
  {
    assert SingleMatch(a, [word]) == 0;
    var q: Tree := Leaf(a);
    assert Match(q, [word], []).left == [];
    var none := [q][1..];
    assert none == [];
    assert MatchEach([q], [word], []) == MatchEach(none, [], Match(q, [word], []).collected);
  }

  lemma SkipsOptional(a: Element, b: Element, es: seq<Event>)
    requires |es| == 1 && InLang(Leaf(b), es)
    ensures InLang(Required([Optional([Leaf(a)]), Leaf(b)]), es)
  {
    var cs: seq<Tree> := [Optional([Leaf(a)]), Leaf(b)];
    assert InEach([Leaf(a)], es[..0]) by {
      assert es[..0][0..] == [] && [Leaf(a)][1..] == [];
      assert InEach([Leaf(a)][1..], es[..0][0..]);
    }
    assert cs[1..] == [Leaf(b)];
    assert InAll(cs[1..], es[0..]) by {
      assert es[0..] == es;
      OneWord([Leaf(b)], es);
    }
  }

  /** The converse fails: the matcher does not back out of an optional that took too much.
      `[<a>] <b>` accepts one word, with `<b>` taking it, but the matcher gives it to `<a>`. */
  lemma GreedyIsIncomplete() returns (p: Tree, word: Element, es: seq<Event>)
    ensures Matchable(p)
    ensures InLang(p, es) && TakesInOrder([word], es, [])
    ensures !Match(p, [word], []).matched
  {
    var a, b := Argument(Some("<a>"), Null), Argument(Some("<b>"), Null);
    word := Argument(None, Text("x"));
    p := Required([Optional([Leaf(a)]), Leaf(b)]);
    es := [Event(b, word)];
    var cs := p.children;
    SkipsOptional(a, b, es);
    assert SingleMatch(b, [word]) == 0 && Drop([word], 0) == [] && es[1..] == [];
    OrderHead([word], es, []);
    assert cs[1..] == [Leaf(b)];
    var o := Match(cs[0], [word], []);
    OptionalTakes(a, word);
    assert SingleMatch(b, []) == 0;
    var last: Tree := Leaf(b);
    assert !Match(last, [], o.collected).matched;
    assert cs[1..][0] == last;
    assert !MatchAll(cs[1..], o.left, o.collected).matched;
  }

  // ---------- the loop of OneOrMore ----------

  /** How often OneOrMore calls its child. */
  function Calls(p: Tree, l: seq<Element>, first: bool): nat
    requires Matchable(p)
    decreases p, 1, if first then 1 else 0, |l|
  {
    var r := RunOf(p, l);
    if !r.matched || (!first && r.left == l) then 1 else 1 + Calls(p, r.left, false)
  }

  /** At most one call per argv element and one to see that nothing more matches; a child
      that matches without taking anything is tried twice. */
  lemma {:induction false} CallsBound(p: Tree, l: seq<Element>, first: bool)
    requires Matchable(p)
    ensures !first ==> Calls(p, l, first) <= |l| + 1
    ensures Calls(p, l, first) <= |l| + 2
    ensures first && l != [] ==> Calls(p, l, first) <= |l| + 1
    decreases p, 1, if first then 1 else 0, |l|
  {
    var r := RunOf(p, l);
    if r.matched && (first || r.left != l) {
      CallsBound(p, r.left, false);
      if r.left == l {
        assert Calls(p, l, false) == 1;
      }
    }
  }

  lemma {:induction false} LoopStopsAtFixpoint(p: Tree, l: seq<Element>, first: bool)
    requires Matchable(p)
    ensures var r := RunLoop(p, l, first).1; RunOf(p, r.left).left == r.left
    decreases p, 1, if first then 1 else 0, |l|
  {
    var r := RunOf(p, l);
    if r.matched && (first || r.left != l) {
      LoopStopsAtFixpoint(p, r.left, false);
    }
  }

  /** When OneOrMore succeeds its child takes nothing more from what is left, whatever has
      been collected. */
  lemma RepeatIsExhausted(p: Tree, left: seq<Element>, c: seq<Element>, c': seq<Element>)
    requires Matchable(OneOrMore([p]))
    ensures var o := Match(OneOrMore([p]), left, c);
            o.matched ==> Match(p, o.left, c').left == o.left
  {
    var q := OneOrMore([p]);
    assert q.children[0] == p;
    MatchIsRun(q, left, c);
    LoopStopsAtFixpoint(p, left, true);
    MatchIsRun(p, Match(q, left, c).left, c');
  }
}
