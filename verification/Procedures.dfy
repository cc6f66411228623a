/** The parsing procedures of docopt.py:282-449 as they are written: loops that pop tokens
off a list and append to the table of options.  Each is proved to compute the function of
the same name in Options.dfy, UsageParser.dfy and ArgvParser.dfy.
 */
module Procedures {
  import opened Basics
  import opened Elements
  import opened Patterns
  import opened Options
  import U = UsageParser
  import A = ArgvParser

  type Trees = U.Trees

  /** A procedure that started with `toks` and `table` returned what the function `spec`
      says, or raised the error it says. */
  ghost predicate Agrees<T>(r: Result<T>, spec: Result<Parsed<T>>, toks: Tokens, table: Table) {
    match spec
    case Ok(p) => r == Ok(p.item) && toks == p.rest && table == p.table
    case Err(e) => r == Err(e)
  }

  /** Items read so far in front of what a function still reads. */
  ghost function Behind<T>(done: seq<T>, r: Result<Parsed<seq<T>>>): Result<Parsed<seq<T>>> {
    match r
    case Ok(p) => Ok(Parsed(done + p.item, p.rest, p.table))
    case Err(e) => Err(e)
  }

  lemma BehindNothing<T>(r: Result<Parsed<seq<T>>>)
    ensures Behind([], r) == r
  {
    if r.Ok? {
      assert [] + r.value.item == r.value.item;
    }
  }

  lemma BehindBehind<T>(xs: seq<T>, ys: seq<T>, r: Result<Parsed<seq<T>>>)
    ensures Behind(xs, Behind(ys, r)) == Behind(xs + ys, r)
  {
    if r.Ok? {
      assert xs + (ys + r.value.item) == (xs + ys) + r.value.item;
    }
  }

  class Source {
    var toks: Tokens    // the tokens not yet read
    var table: Table    // the options known so far
    const exit: bool    // argv rather than a usage pattern

    constructor (toks: Tokens, table: Table, exit: bool)
      ensures this.toks == toks && this.table == table && this.exit == exit
    {
      this.toks, this.table, this.exit := toks, table, exit;
    }

    method Move() returns (t: string)
      requires toks != []
      modifies `toks
      ensures t == old(toks)[0] && toks == old(toks)[1..]
    {
      t := toks[0];
      toks := toks[1..];
    }

    method ParseLong() returns (r: Result<Known>)
      requires toks != []
      modifies this
      ensures Agrees(r, Options.ParseLong(old(toks), old(table), exit), toks, table)
    {
      var t := Move();
      var (long, value) := Partition(t);
      var similar := Similar(table, long, exit);
      if |similar| > 1 {
        return Err(NotUniquePrefix);
      } else if |similar| < 1 {
        var argcount := if value.Some? then 1 else 0;
        var o := MakeOption(None, Some(long), argcount, Flag(false));
        table := table + [o];
        if exit {
          o := MakeOption(None, Some(long), argcount, ValueOr(value));
        }
        r := Ok(o);
      } else {
        var o := MakeOption(similar[0].short, similar[0].long, similar[0].argcount, similar[0].value);
        if o.argcount == 0 {
          if value.Some? {
            return Err(NoArgumentAllowed);
          }
        } else if value.None? {
          if toks == [] || toks[0] == "--" {
            return Err(ArgumentRequired);
          }
          var w := Move();
          value := Some(w);
        }
        r := Ok(if exit then Valued(o, ValueOr(value)) else o);
      }
    }

    method ParseShorts() returns (r: Result<seq<Known>>)
      requires toks != []
      modifies this
      ensures Agrees(r, Options.ParseShorts(old(toks), old(table), exit), toks, table)
    {
      ghost var toks0, table0 := toks, table;
      var t := Move();
      var left := StripDashes(t);
      var parsed: seq<Known> := [];
      BehindNothing(Cluster(left, toks, table, exit));
      while left != []
        invariant Behind(parsed, Cluster(left, toks, table, exit)) == Options.ParseShorts(toks0, table0, exit)
        decreases |left|
      {
        var short := ['-', left[0]];
        ghost var rest, before := left[1..], Cluster(left, toks, table, exit);
        left := left[1..];
        var similar := WithShort(table, short);
        var o: Known;
        if |similar| > 1 {
          return Err(Ambiguous);
        } else if |similar| < 1 {
          o := MakeOption(Some(short), None, 0, Flag(false));
          table := table + [o];
          if exit {
            o := MakeOption(Some(short), None, 0, Flag(true));
          }
        } else {
          o := MakeOption(Some(short), similar[0].long, similar[0].argcount, similar[0].value);
          var value: Option<string> := None;
          if o.argcount != 0 {
            if left == [] {
              if toks == [] || toks[0] == "--" {
                return Err(ArgumentRequired);
              }
              var w := Move();
              value := Some(w);
            } else {
              value := Some(left);
              left := [];
            }
          }
          if exit {
            o := Valued(o, ValueOr(value));
          }
        }
        assert before == Behind([o], Cluster(left, toks, table, exit)) by {
          if left != rest || rest == [] {
            assert [o] + [] == [o];
          }
        }
        BehindBehind(parsed, [o], Cluster(left, toks, table, exit));
        parsed := parsed + [o];
      }
      r := Ok(parsed);
      assert parsed + [] == parsed;
    }

    // ---------- usage patterns ----------

    method ParseAtom() returns (r: Result<Trees>)
      requires !exit && toks != []
      modifies this
      ensures Agrees(r, U.ParseAtom(old(toks), old(table)), toks, table)
      decreases |toks|, 0
    {
      var t := toks[0];
      if t == "(" || t == "[" {
        var _ := Move();
        var e :- ParseExpr();
        if toks == [] {
          return Err(Unmatched);
        }
        var close := Move();
        if close != (if t == "(" then ")" else "]") {
          return Err(Unmatched);
        }
        r := Ok([if t == "(" then Required(e) else Optional(e)]);
      } else if t == "options" {
        var _ := Move();
        r := Ok([OptionsShortcut([])]);
      } else if U.IsLongToken(t) {
        var o :- ParseLong();
        r := Ok([U.LeafOf(o)]);
      } else if U.IsShortsToken(t) {
        var os :- ParseShorts();
        r := Ok(U.AsLeaves(os));
      } else if U.IsArgumentToken(t) {
        var name := Move();
        r := Ok([Leaf(Argument(Some(name), Null))]);
      } else {
        var name := Move();
        r := Ok([Leaf(Command(Some(name), Flag(false)))]);
      }
    }

    method ParseSeq() returns (r: Result<Trees>)
      requires !exit
      modifies this
      ensures Agrees(r, U.ParseSeq(old(toks), old(table)), toks, table)
      decreases |toks|, 1
    {
      ghost var toks0, table0 := toks, table;
      var result: Trees := [];
      BehindNothing(U.ParseSeq(toks, table));
      while toks != [] && !U.IsStop(toks[0])
        invariant |toks| <= |toks0|
        invariant Behind(result, U.ParseSeq(toks, table)) == U.ParseSeq(toks0, table0)
        decreases |toks|
      {
        ghost var before := U.ParseSeq(toks, table);
        var atom :- ParseAtom();
        if U.At(toks, "...") {
          atom := [OneOrMore(atom)];
          var _ := Move();
        }
        assert before == Behind(atom, U.ParseSeq(toks, table));
        BehindBehind(result, atom, U.ParseSeq(toks, table));
        result := result + atom;
      }
      r := Ok(result);
      assert result + [] == result;
    }

    method ParseExpr() returns (r: Result<Trees>)
      requires !exit
      modifies this
      ensures Agrees(r, U.ParseExpr(old(toks), old(table)), toks, table)
      decreases |toks|, 2
    {
      ghost var toks0 := toks;
      var s :- ParseSeq();
      if !U.At(toks, "|") {
        return Ok(s);
      }
      var result := U.Wrap(s);
      ghost var spec := U.ParseAlternatives(result, toks, table);
      while U.At(toks, "|")
        invariant |toks| <= |toks0|
        invariant U.ParseAlternatives(result, toks, table) == spec
        decreases |toks|
      {
        var _ := Move();
        s :- ParseSeq();
        result := result + U.Wrap(s);
      }
      r := Ok(if |result| > 1 then [Either(result)] else result);
    }

    /** Lines 371-374. */
    method ParsePattern() returns (r: Result<U.Tree>)
      requires !exit
      modifies this
      ensures match U.ParsePattern(old(toks), old(table))
              case Ok((p, table')) => r == Ok(p) && table == table'
              case Err(e) => r == Err(e)
    {
      var result :- ParseExpr();
      if toks != [] {
        return Err(UnexpectedEnding);
      }
      r := Ok(Required(result));
    }

    // ---------- argv ----------

    method ParseArgv(optionsFirst: bool) returns (r: Result<seq<Element>>)
      requires exit
      modifies this
      ensures match A.ParseArgv(old(toks), old(table), optionsFirst)
              case Ok(a) => r == Ok(a.items) && table == a.table
              case Err(e) => r == Err(e)
    {
      ghost var spec := A.ParseArgv(toks, table, optionsFirst);
      var parsed: seq<Element> := [];
      ThenNothing(spec);
      while toks != []
        invariant A.Then(parsed, A.ParseArgv(toks, table, optionsFirst)) == spec
        decreases |toks|
      {
        ghost var before := A.ParseArgv(toks, table, optionsFirst);
        var read: seq<Element>;
        if toks[0] == "--" {
          return Ok(parsed + A.Words(toks));
        } else if StartsWith(toks[0], "--") {
          var o :- ParseLong();
          read := [o];
        } else if StartsWith(toks[0], "-") && toks[0] != "-" {
          var os :- ParseShorts();
          read := A.Upcast(os);
        } else if optionsFirst {
          return Ok(parsed + A.Words(toks));
        } else {
          var w := Move();
          read := [A.Word(w)];
        }
        assert before == A.Then(read, A.ParseArgv(toks, table, optionsFirst));
        ThenThen(parsed, read, A.ParseArgv(toks, table, optionsFirst));
        parsed := parsed + read;
      }
      r := Ok(parsed);
      assert parsed + [] == parsed;
    }
  }

  lemma ThenNothing(r: Result<A.Argv>)
    ensures A.Then([], r) == r
  {
    if r.Ok? {
      assert [] + r.value.items == r.value.items;
    }
  }

  lemma ThenThen(xs: seq<Element>, ys: seq<Element>, r: Result<A.Argv>)
    ensures A.Then(xs, A.Then(ys, r)) == A.Then(xs + ys, r)
  {
    if r.Ok? {
      assert xs + (ys + r.value.items) == (xs + ys) + r.value.items;
    }
  }
}
