/** The `match` methods of docopt.py:112-279 as they are written, with their loops and their
writes to shared objects; the objects are the cells of a `Memory`.  They are proved to
compute the functions of HeapMatcher.dfy.
 */
module HeapProcedures {
  import opened Basics
  import opened Elements
  import opened Patterns
  import opened Matcher
  import opened HeapMatcher

  /** The outcomes found so far and those the branches `cs` will add are all of `result`. */
  ghost predicate EitherSoFar(cs: seq<Tree>, left: seq<Addr>, collected: seq<Addr>, mem: seq<Element>,
                              outcomes: seq<HeapOutcome>, result: (seq<HeapOutcome>, seq<Element>))
    requires AllMatchable(cs) && Within(left, mem) && Within(collected, mem)
  {
    var rest := HeapAny(cs, left, collected, mem);
    outcomes + rest.0 == result.0 && rest.1 == result.1
  }

  lemma EitherStep(cs: seq<Tree>, i: nat, left: seq<Addr>, collected: seq<Addr>, mem: seq<Element>,
                   outcomes: seq<HeapOutcome>, result: (seq<HeapOutcome>, seq<Element>))
    requires AllMatchable(cs) && i < |cs| && Within(left, mem) && Within(collected, mem)
    requires EitherSoFar(cs[i..], left, collected, mem, outcomes, result)
    ensures var o := HeapMatch(cs[i], left, collected, mem);
            EitherSoFar(cs[i + 1..], left, collected, o.mem, if o.matched then outcomes + [o] else outcomes, result)
  {
    assert cs[i..][0] == cs[i] && cs[i..][1..] == cs[i + 1..];
    HeapAnyUnfold(cs[i..], left, collected, mem);
    var o := HeapMatch(cs[i], left, collected, mem);
    var rest := HeapAny(cs[i + 1..], left, collected, o.mem);
    if o.matched {
      assert outcomes + ([o] + rest.0) == (outcomes + [o]) + rest.0;
    } else {
      assert [] + rest.0 == rest.0;
    }
  }

  class Memory {
    var cells: seq<Element>

    constructor (argv: seq<Element>)
      ensures cells == argv
    {
      cells := argv;
    }

    method New(e: Element) returns (a: Addr)
      modifies this
      ensures a == |old(cells)| && cells == old(cells) + [e]
    {
      a := |cells|;
      cells := cells + [e];
    }

    /** `a.value = v` */
    method Write(a: Addr, v: Value)
      requires a < |cells|
      modifies this
      ensures cells == old(cells)[a := SetValue(old(cells)[a], v)]
    {
      cells := cells[a := SetValue(cells[a], v)];
    }

    /** Lines 112-130. */
    method MatchLeaf(self: Element, left: seq<Addr>, collected: seq<Addr>)
      returns (matched: bool, left': seq<Addr>, collected': seq<Addr>)
      requires Within(left, cells) && Within(collected, cells)
      modifies this
      ensures HeapOutcome(matched, left', collected', cells) == HeapLeaf(self, left, collected, old(cells))
    {
      var pos := SingleMatch(self, Deref(cells, left));
      if pos == |left| {
        return false, left, collected;
      }
      var m := left[pos];
      if !self.Opt? {
        m := New(MatchOf(self, cells[left[pos]]));
      }
      var left_ := Drop(left, pos);
      var same := Find(Deref(cells, collected), Name(self));
      if Accumulates(self) {
        var increment := Increment(self, cells[m]);
        if same == |collected| {
          Write(m, increment);
          return true, left_, collected + [m];
        }
        Write(collected[same], Plus(cells[collected[same]].value, increment));
        return true, left_, collected;
      }
      return true, left_, collected + [m];
    }

    method Match(p: Tree, left: seq<Addr>, collected: seq<Addr>)
      returns (matched: bool, left': seq<Addr>, collected': seq<Addr>)
      requires Matchable(p) && Within(left, cells) && Within(collected, cells)
      modifies this
      ensures HeapOutcome(matched, left', collected', cells) == HeapMatch(p, left, collected, old(cells))
      decreases p, 1
    {
      match p
      case Leaf(self) => matched, left', collected' := MatchLeaf(self, left, collected);
      case Required(cs) => matched, left', collected' := MatchRequired(cs, left, collected);
      case Optional(cs) => left', collected' := MatchOptional(cs, left, collected); matched := true;
      case OptionsShortcut(cs) => left', collected' := MatchOptional(cs, left, collected); matched := true;
      case OneOrMore(cs) => matched, left', collected' := MatchOneOrMore(cs[0], left, collected);
      case Either(cs) => matched, left', collected' := MatchEither(cs, left, collected);
    }

    /** Lines 221-229. */
    method MatchRequired(cs: seq<Tree>, left: seq<Addr>, collected: seq<Addr>)
      returns (matched: bool, l: seq<Addr>, c: seq<Addr>)
      requires AllMatchable(cs) && Within(left, cells) && Within(collected, cells)
      modifies this
      ensures var o := HeapAll(cs, left, collected, old(cells));
              HeapOutcome(matched, l, c, cells) == if o.matched then o else HeapOutcome(false, left, collected, o.mem)
      decreases cs, 0
    {
      l, c := left, collected;
      for i := 0 to |cs|
        invariant Within(l, cells) && Within(c, cells)
        invariant HeapAll(cs[i..], l, c, cells) == HeapAll(cs, left, collected, old(cells))
      {
        assert cs[i..][0] == cs[i] && cs[i..][1..] == cs[i + 1..];
        matched, l, c := Match(cs[i], l, c);
        if !matched {
          return false, left, collected;
        }
      }
      matched := true;
    }

    /** Lines 234-238. */
    method MatchOptional(cs: seq<Tree>, left: seq<Addr>, collected: seq<Addr>) returns (l: seq<Addr>, c: seq<Addr>)
      requires AllMatchable(cs) && Within(left, cells) && Within(collected, cells)
      modifies this
      ensures HeapOutcome(true, l, c, cells) == HeapEach(cs, left, collected, old(cells))
      decreases cs, 0
    {
      l, c := left, collected;
      for i := 0 to |cs|
        invariant Within(l, cells) && Within(c, cells)
        invariant HeapEach(cs[i..], l, c, cells) == HeapEach(cs, left, collected, old(cells))
      {
        assert cs[i..][0] == cs[i] && cs[i..][1..] == cs[i + 1..];
        var _, l', c' := Match(cs[i], l, c);
        l, c := l', c';
      }
    }

    /** Lines 248-259: the loop. */
    method MatchRepeatedly(p: Tree, left: seq<Addr>, collected: seq<Addr>)
      returns (times: nat, l: seq<Addr>, c: seq<Addr>)
      requires Matchable(p) && Within(left, cells) && Within(collected, cells)
      modifies this
      ensures var (n, o) := HeapLoop(p, left, collected, old(cells), None, 0);
              times == n && l == o.left && c == o.collected && cells == o.mem
      decreases p, 2
    {
      ghost var result := HeapLoop(p, left, collected, cells, None, 0);
      l, c := left, collected;
      var l_: Option<seq<Addr>> := None;
      times := 0;
      var matched := true;
      while matched
        invariant Within(l, cells) && Within(c, cells) && |old(cells)| <= |cells|
        invariant l_.None? || l_ == Some(l)
        invariant matched ==> HeapLoop(p, l, c, cells, l_, times) == result
        invariant !matched ==> result.0 == times && result.1.left == l && result.1.collected == c && result.1.mem == cells
        decreases matched, if l_.None? then 1 else 0, |l|
      {
        LoopTurn(p, l, c, cells, l_, times);
        matched, l, c := Match(p, l, c);
        if matched {
          times := times + 1;
        }
        if l_.Some? && Deref(cells, l_.value) == Deref(cells, l) {
          break;
        }
        l_ := Some(l);
      }
    }

    /** Lines 248-265. */
    method MatchOneOrMore(p: Tree, left: seq<Addr>, collected: seq<Addr>)
      returns (matched: bool, l: seq<Addr>, c: seq<Addr>)
      requires Matchable(p) && Within(left, cells) && Within(collected, cells)
      modifies this
      ensures var (times, o) := HeapLoop(p, left, collected, old(cells), None, 0);
              HeapOutcome(matched, l, c, cells)
              == if times >= 1 then HeapOutcome(true, o.left, o.collected, o.mem) else HeapOutcome(false, left, collected, o.mem)
      decreases p, 3
    {
      var times;
      times, l, c := MatchRepeatedly(p, left, collected);
      if times >= 1 {
        return true, l, c;
      }
      return false, left, collected;
    }

    /** Lines 270-279. */
    method MatchEither(cs: seq<Tree>, left: seq<Addr>, collected: seq<Addr>)
      returns (matched: bool, l: seq<Addr>, c: seq<Addr>)
      requires AllMatchable(cs) && Within(left, cells) && Within(collected, cells)
      modifies this
      ensures var (os, mem) := HeapAny(cs, left, collected, old(cells));
              HeapOutcome(matched, l, c, cells)
              == if os == [] then HeapOutcome(false, left, collected, mem)
                 else HeapOutcome(true, os[ShortestAddrs(os)].left, os[ShortestAddrs(os)].collected, mem)
      decreases cs, 0
    {
      ghost var result := HeapAny(cs, left, collected, cells);
      var outcomes: seq<HeapOutcome> := [];
      for i := 0 to |cs|
        invariant Within(left, cells) && Within(collected, cells)
        invariant EitherSoFar(cs[i..], left, collected, cells, outcomes, result)
      {
        EitherStep(cs, i, left, collected, cells, outcomes, result);
        var m, l', c' := Match(cs[i], left, collected);
        if m {
          outcomes := outcomes + [HeapOutcome(true, l', c', cells)];
        }
      }
      assert outcomes == result.0;
      if outcomes != [] {
        var best := outcomes[ShortestAddrs(outcomes)];
        return true, best.left, best.collected;
      }
      return false, left, collected;
    }
  }
}
