/** The values docopt returns, told by what was typed and by the pattern as it was written: what
a leaf that repeats starts from, how a default is split into words, and what each name holds in
the end.
 */
module ValueLaws {
  import opened Basics
  import opened Elements
  import opened Patterns
  import opened Matcher
  import opened Language
  import opened Repeats
  import opened Capture

  // ---------- addition ----------

  /** What Python counts with: True is one and False is nothing. */
  predicate IsNumber(v: Value, n: int) {
    match v
    case Count(m) => n == m
    case Flag(on) => n == if on then 1 else 0
    case _ => false
  }

  lemma {:induction false} CharsAre(s: string)
    ensures |Chars(s)| == |s| && forall i :: 0 <= i < |s| ==> Chars(s)[i] == [s[i]]
  {
    if s != [] {
      CharsAre(s[1..]);
    }
  }

  /** `+=` adds numbers, appends strings and lists, and appends a string to a list character by
      character. */
  lemma PlusAdds(v: Value, w: Value)
    ensures forall m, n :: IsNumber(v, m) && IsNumber(w, n) ==> Plus(v, w) == Count(m + n)
    ensures v.Text? && w.Text? ==> Plus(v, w) == Text(v.text + w.text)
    ensures v.Texts? && w.Texts? ==> Plus(v, w) == Texts(v.texts + w.texts)
    ensures v.Texts? && w.Text? ==>
              && Plus(v, w).Texts? && |Plus(v, w).texts| == |v.texts| + |w.text|
              && (forall i :: 0 <= i < |v.texts| ==> Plus(v, w).texts[i] == v.texts[i])
              && (forall i :: 0 <= i < |w.text| ==> Plus(v, w).texts[|v.texts| + i] == [w.text[i]])
  {
    if v.Texts? && w.Text? {
      CharsAre(w.text);
    }
  }

  // ---------- words ----------

  predicate AllSpaces(s: string) {
    forall i :: 0 <= i < |s| ==> IsSpace(s[i])
  }

  predicate NoSpaces(s: string) {
    forall i :: 0 <= i < |s| ==> !IsSpace(s[i])
  }

  /** `ws` are words, and `gaps` can stand around them: one more, of spaces, and not empty
      between two words. */
  predicate Spaced(gaps: seq<string>, ws: seq<string>) {
    && |gaps| == |ws| + 1
    && (forall i :: 0 <= i < |ws| ==> ws[i] != [] && NoSpaces(ws[i]))
    && (forall i :: 0 <= i < |gaps| ==> AllSpaces(gaps[i]))
    && (forall i :: 0 < i < |ws| ==> gaps[i] != [])
  }

  function Joined(gaps: seq<string>, ws: seq<string>): string
    requires |gaps| == |ws| + 1
  {
    if ws == [] then gaps[0] else gaps[0] + ws[0] + Joined(gaps[1..], ws[1..])
  }

  lemma {:induction false} WordsAfterSpaces(gap: string, s: string)
    requires AllSpaces(gap)
    ensures Words(gap + s, []) == Words(s, [])
  {
    if gap == [] {
      assert gap + s == s;
    } else {
      assert (gap + s)[1..] == gap[1..] + s && (gap + s)[0] == gap[0];
      WordsAfterSpaces(gap[1..], s);
      assert [] + Words(gap[1..] + s, []) == Words(gap[1..] + s, []);
    }
  }

  lemma {:induction false} WordsAfterWord(w: string, s: string, begun: string)
    requires NoSpaces(w)
    ensures Words(w + s, begun) == Words(s, begun + w)
    decreases |w|
  {
    if w == [] {
      assert w + s == s && begun + w == begun;
    } else {
      assert (w + s)[1..] == w[1..] + s && (w + s)[0] == w[0];
      WordsAfterWord(w[1..], s, begun + [w[0]]);
      assert begun + [w[0]] + w[1..] == begun + w;
    }
  }

  /** A word that is over. */
  lemma WordEnds(w: string, s: string)
    requires w != [] && (s == [] || IsSpace(s[0]))
    ensures Words(s, w) == [w] + Words(s, [])
  {
    if s != [] {
      assert [] + Words(s[1..], []) == Words(s[1..], []);
    }
  }

  lemma SpacedRest(gaps: seq<string>, ws: seq<string>)
    requires Spaced(gaps, ws) && ws != []
    ensures Spaced(gaps[1..], ws[1..])
    ensures var rest := Joined(gaps[1..], ws[1..]);
            rest == [] || IsSpace(rest[0])
  {
    assert gaps[1..][0] == gaps[1];
    if |ws| > 1 {
      assert gaps[1] != [];
    }
  }

  /** However words are spaced, splitting gives them back. */
  lemma {:induction false} SplitsJoined(gaps: seq<string>, ws: seq<string>)
    requires Spaced(gaps, ws)
    ensures Words(Joined(gaps, ws), []) == ws
    decreases |ws|
  {
    if ws == [] {
      WordsAfterSpaces(gaps[0], []);
      assert gaps[0] + [] == gaps[0];
    } else {
      var rest := Joined(gaps[1..], ws[1..]);
      assert gaps[0] + ws[0] + rest == gaps[0] + (ws[0] + rest);
      WordsAfterSpaces(gaps[0], ws[0] + rest);
      WordsAfterWord(ws[0], rest, []);
      assert [] + ws[0] == ws[0];
      SpacedRest(gaps, ws);
      WordEnds(ws[0], rest);
      SplitsJoined(gaps[1..], ws[1..]);
    }
  }

  /** The first character put in front of what follows it. */
  lemma FrontSpaced(c: char, gaps: seq<string>, ws: seq<string>) returns (gaps': seq<string>, ws': seq<string>)
    requires Spaced(gaps, ws)
    ensures Spaced(gaps', ws') && Joined(gaps', ws') == [c] + Joined(gaps, ws)
  {
    if IsSpace(c) {
      gaps', ws' := [[c] + gaps[0]] + gaps[1..], ws;
      assert gaps'[1..] == gaps[1..];
      assert ws != [] ==> [c] + gaps[0] + ws[0] + Joined(gaps[1..], ws[1..]) == [c] + (gaps[0] + ws[0] + Joined(gaps[1..], ws[1..]));
    } else if gaps[0] == [] && ws != [] {
      gaps', ws' := gaps, [[c] + ws[0]] + ws[1..];
      assert ws'[1..] == ws[1..];
      assert [] + ([c] + ws[0]) + Joined(gaps[1..], ws[1..]) == [c] + ([] + ws[0] + Joined(gaps[1..], ws[1..]));
    } else {
      gaps', ws' := [[]] + gaps, [[c]] + ws;
      assert gaps'[1..] == gaps && ws'[1..] == ws;
      assert [] + [c] + Joined(gaps, ws) == [c] + Joined(gaps, ws);
    }
  }

  /** Every string is words with spaces around them. */
  lemma {:induction false} Spaces(s: string) returns (gaps: seq<string>, ws: seq<string>)
    ensures Spaced(gaps, ws) && Joined(gaps, ws) == s
    decreases |s|
  {
    if s == [] {
      gaps, ws := [[]], [];
    } else {
      gaps, ws := Spaces(s[1..]);
      gaps, ws := FrontSpaced(s[0], gaps, ws);
      assert [s[0]] + s[1..] == s;
    }
  }

  /** `ws` are the words of `s`. */
  ghost predicate AreWords(ws: seq<string>, s: string) {
    exists gaps :: Spaced(gaps, ws) && Joined(gaps, ws) == s
  }

  lemma WordsExactly(s: string, ws: seq<string>)
    ensures Words(s, []) == ws <==> AreWords(ws, s)
  {
    var gaps, ws' := Spaces(s);
    SplitsJoined(gaps, ws');
    if AreWords(ws, s) {
      var other :| Spaced(other, ws) && Joined(other, ws) == s;
      SplitsJoined(other, ws);
    }
  }

  // ---------- what a name holds ----------

  /** The leaf takes strings. */
  predicate IsText(l: Element) {
    match l
    case Argument(_, _) => true
    case Command(_, _) => false
    case Opt(_, _, argcount, _) => argcount > 0
  }

  /** Nothing was typed for the leaf: it has its own value, or, if it repeats, zero, no words
      or the words of its default. */
  ghost predicate IsDefault(p: Tree, l: Element, v: Value) {
    if !Repeated(p, l) then v == l.value
    else if !IsText(l) then v == Count(0)
    else if l.value.Text? then v.Texts? && AreWords(v.texts, l.value.text)
    else v == Texts([])
  }

  /** These were typed for the leaf, in this order: all the strings or their number if the leaf
      repeats, and otherwise the one string, or True. */
  ghost predicate IsTyped(p: Tree, l: Element, typed: seq<Element>, v: Value) {
    if Repeated(p, l) then
      if IsText(l) then
        v.Texts? && |v.texts| == |typed| && forall i :: 0 <= i < |typed| ==> typed[i].value == Text(v.texts[i])
      else v == Count(|typed|)
    else |typed| == 1 && v == if l.Command? then Flag(true) else typed[0].value
  }

  /** What the events took under this name. */
  function TypedFor(es: seq<Event>, n: Option<string>): (items: seq<Element>)
    ensures |items| == |Only(es, n)| && forall i :: 0 <= i < |items| ==> items[i] == Only(es, n)[i].item
  {
    seq(|Only(es, n)|, i requires 0 <= i < |Only(es, n)| => Only(es, n)[i].item)
  }

  /** The name of the leaf has the right value. */
  ghost predicate HasItsValue(result: map<Option<string>, Value>, p: Tree, es: seq<Event>, l: Element) {
    && Name(l) in result
    && var typed := TypedFor(es, Name(l));
       if typed == [] then IsDefault(p, l, result[Name(l)]) else IsTyped(p, l, typed, result[Name(l)])
  }

  lemma DefaultsMean(p: Tree, l: Element)
    requires WellFormed(p) && l in Leaves(p)
    ensures IsDefault(p, l, FixedLeaf(p, l).value)
  {
    assert Fresh(l);
    if Repeated(p, l) && l.value.Text? {
      WordsExactly(l.value.text, Words(l.value.text, []));
    }
  }

  /** The events of one name are all about the one leaf of that name. */
  lemma OfOneLeaf(p: Tree, es: seq<Event>, l: Element, e: Event)
    requires WellFormed(p) && InLang(Fixed(p), es) && l in Leaves(p) && e in es && Name(e.leaf) == Name(l)
    ensures e.leaf == FixedLeaf(p, l)
  {
    WordLeaves(Fixed(p), es, e);
    var k := FixedLeafOrigin(p, e.leaf);
    assert Name(k) == Name(l);
    assert k == l;
  }

  lemma PlainIsFresh(p: Tree, l: Element)
    requires WellFormed(p) && l in Leaves(p) && Accumulates(FixedLeaf(p, l))
    ensures Repeated(p, l)
  {
    assert Fresh(l);
  }

  lemma {:induction false} OnlyTwice(es: seq<Event>, n: Option<string>)
    requires |Only(es, n)| > 1
    ensures exists i, j :: 0 <= i < j < |es| && Name(es[i].leaf) == n && Name(es[j].leaf) == n
  {
    var last, front := |es| - 1, es[..|es| - 1];
    if Name(es[last].leaf) == n {
      assert Only(front, n) != [];
      var e := Only(front, n)[0];
      assert e in Only(front, n);
      var i :| 0 <= i < |front| && front[i] == e;
      assert Name(es[i].leaf) == n;
    } else {
      OnlyTwice(front, n);
      var i, j :| 0 <= i < j < |front| && Name(front[i].leaf) == n && Name(front[j].leaf) == n;
      assert es[i] == front[i] && es[j] == front[j];
    }
  }

  /** A leaf that takes more than one element repeats. */
  lemma TakesMoreThanOne(p: Tree, es: seq<Event>, l: Element)
    requires WellFormed(p) && InLang(Fixed(p), es) && Orderly(es) && l in Leaves(p) && |Only(es, Name(l))| > 1
    ensures Repeated(p, l)
  {
    OnlyTwice(es, Name(l));
    var i, j :| 0 <= i < j < |es| && Name(es[i].leaf) == Name(l) && Name(es[j].leaf) == Name(l);
    assert Accumulates(es[i].leaf);
    OfOneLeaf(p, es, l, es[i]);
    PlainIsFresh(p, l);
  }

  lemma GatheredMeans(p: Tree, es: seq<Event>, l: Element)
    requires WellFormed(p) && InLang(Fixed(p), es) && Orderly(es) && l in Leaves(p) && Only(es, Name(l)) != []
    ensures IsTyped(p, l, TypedFor(es, Name(l)), Gathered(Only(es, Name(l))))
  {
    var fs := Only(es, Name(l));
    assert Fresh(l);
    forall i | 0 <= i < |fs|
      ensures fs[i].leaf == FixedLeaf(p, l) && OrderlyEvent(fs[i])
    {
      assert fs[i] in fs;
      OfOneLeaf(p, es, l, fs[i]);
    }
    if |fs| > 1 {
      TakesMoreThanOne(p, es, l);
    }
  }

  lemma ReportsMean(result: map<Option<string>, Value>, p: Tree, es: seq<Event>, l: Element)
    requires WellFormed(p) && InLang(Fixed(p), es) && Orderly(es) && l in Leaves(p) && Reports(result, p, es, l)
    ensures HasItsValue(result, p, es, l)
  {
    if Only(es, Name(l)) == [] {
      DefaultsMean(p, l);
    } else {
      GatheredMeans(p, es, l);
    }
  }

  /** When docopt accepts, every name has the value that what was typed gives it. */
  lemma EveryValueMeans(p: Tree, argv: seq<Element>) returns (es: seq<Event>)
    requires WellFormed(p) && TypedArgv(Leaves(p), argv) && Docopt(p, argv).Some?
    ensures InLang(Fixed(p), es) && multiset(Items(es)) == multiset(argv)
    ensures forall l :: l in Leaves(p) ==> Reports(Docopt(p, argv).value, p, es, l)
    ensures forall l :: l in Leaves(p) ==> HasItsValue(Docopt(p, argv).value, p, es, l)
  {
    es := EverythingReported(p, argv);
    forall e | e in es
      ensures e.item in argv
    {
      var i :| 0 <= i < |es| && es[i] == e;
      assert Items(es)[i] == e.item;
      assert e.item in multiset(Items(es));
    }
    WordsOfFixedAreOrderly(p, argv, es);
    forall l | l in Leaves(p)
      ensures HasItsValue(Docopt(p, argv).value, p, es, l)
    {
      ReportsMean(Docopt(p, argv).value, p, es, l);
    }
  }
}
