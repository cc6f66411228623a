/** Option tokens (docopt.py:282-366): the table of known options and the parsing of long
and clustered short options, which usage patterns and argv share.
 */
module Options {
  import opened Basics
  import opened Elements

  datatype Error =
    | NotUniquePrefix | NoArgumentAllowed | ArgumentRequired | Ambiguous
    | Unmatched | UnexpectedEnding

  datatype Result<+T> = Ok(value: T) | Err(error: Error) {
    predicate IsFailure() { Err? }
    function PropagateFailure<U>(): Result<U>
      requires Err?
    {
      Err(error)
    }
    function Extract(): T
      requires Ok?
    {
      value
    }
  }

  type Tokens = seq<string>

  type Known = e: Element | e.Opt? witness Opt(None, None, 0, Null)

  type Table = seq<Known>

  /** What a parsing step leaves: the parsed elements, the remaining tokens, the table. */
  datatype Parsed<+T> = Parsed(item: T, rest: Tokens, table: Table)

  // ---------- strings ----------

  predicate StartsWith(s: string, prefix: string) {
    prefix <= s
  }

  /** `s.partition('=')`: the part before the first `=`, and the part after it if any. */
  function Partition(s: string): (string, Option<string>) {
    if s == [] then ([], None)
    else if s[0] == '=' then ([], Some(s[1..]))
    else
      var (head, value) := Partition(s[1..]);
      ([s[0]] + head, value)
  }

  /** `s.lstrip('-')` */
  function StripDashes(s: string): string {
    if s != [] && s[0] == '-' then StripDashes(s[1..]) else s
  }

  // ---------- the table ----------

  /** The constructor of class Option. */
  function MakeOption(short: Option<string>, long: Option<string>, argcount: nat, value: Value): Known {
    Opt(short, long, argcount, if value == Flag(false) && argcount != 0 then Null else value)
  }

  function Valued(o: Known, value: Value): Known {
    Opt(o.short, o.long, o.argcount, value)
  }

  function WithLong(table: Table, long: string): Table {
    if table == [] then [] else
      (if table[0].long == Some(long) then [table[0]] else []) + WithLong(table[1..], long)
  }

  function WithPrefix(table: Table, prefix: string): Table {
    if table == [] then [] else
      (if table[0].long.Some? && StartsWith(table[0].long.value, prefix) then [table[0]] else [])
      + WithPrefix(table[1..], prefix)
  }

  function WithShort(table: Table, short: string): Table {
    if table == [] then [] else
      (if table[0].short == Some(short) then [table[0]] else []) + WithShort(table[1..], short)
  }

  function ValueOr(v: Option<string>): Value {
    match v
    case Some(s) => Text(s)
    case None => Flag(true)
  }

  /** The options a long token may mean; argv may abbreviate, usage patterns may not. */
  function Similar(table: Table, long: string, exit: bool): Table {
    var exact := WithLong(table, long);
    if exit && exact == [] then WithPrefix(table, long) else exact
  }

  /** Lines 301-331.  `exit` says that argv is being parsed, not a usage pattern. */
  function ParseLong(toks: Tokens, table: Table, exit: bool): (r: Result<Parsed<Known>>)
    requires toks != []
    ensures r.Ok? ==> |r.value.rest| < |toks|
  {
    var (long, value) := Partition(toks[0]);
    var rest := toks[1..];
    var similar := Similar(table, long, exit);
    if |similar| > 1 then Err(NotUniquePrefix)
    else if |similar| < 1 then
      var argcount := if value.Some? then 1 else 0;
      var o := MakeOption(None, Some(long), argcount, Flag(false));
      var mine := if exit then MakeOption(None, Some(long), argcount, ValueOr(value)) else o;
      Ok(Parsed(mine, rest, table + [o]))
    else
      var s := similar[0];
      var o := MakeOption(s.short, s.long, s.argcount, s.value);
      if o.argcount != 0 then
        if value.None? && (rest == [] || rest[0] == "--") then Err(ArgumentRequired) else
          var v := if value.None? then rest[0] else value.value;
          var rest' := if value.None? then rest[1..] else rest;
          Ok(Parsed(if exit then Valued(o, Text(v)) else o, rest', table))
      else if value.Some? then Err(NoArgumentAllowed)
      else Ok(Parsed(if exit then Valued(o, Flag(true)) else o, rest, table))
  }

  /** Lines 334-366. */
  function ParseShorts(toks: Tokens, table: Table, exit: bool): (r: Result<Parsed<seq<Known>>>)
    requires toks != []
    ensures r.Ok? ==> |r.value.rest| < |toks|
  {
    Cluster(StripDashes(toks[0]), toks[1..], table, exit)
  }

  /** The loop over the letters `left` of a cluster. */
  function Cluster(left: string, rest: Tokens, table: Table, exit: bool): (r: Result<Parsed<seq<Known>>>)
    ensures r.Ok? ==> |r.value.rest| <= |rest|
    decreases |left|
  {
    if left == [] then Ok(Parsed([], rest, table)) else
      var short, left := ['-', left[0]], left[1..];
      var similar := WithShort(table, short);
      if |similar| > 1 then Err(Ambiguous)
      else if |similar| < 1 then
        var o := MakeOption(Some(short), None, 0, Flag(false));
        var mine := if exit then MakeOption(Some(short), None, 0, Flag(true)) else o;
        var more :- Cluster(left, rest, table + [o], exit);
        Ok(Parsed([mine] + more.item, more.rest, more.table))
      else
        var s := similar[0];
        var o := MakeOption(Some(short), s.long, s.argcount, s.value);
        if o.argcount != 0 then
          if left == [] then
            if rest == [] || rest[0] == "--" then Err(ArgumentRequired) else
              Ok(Parsed([if exit then Valued(o, Text(rest[0])) else o], rest[1..], table))
          else
            Ok(Parsed([if exit then Valued(o, Text(left)) else o], rest, table))
        else
          var more :- Cluster(left, rest, table, exit);
          Ok(Parsed([if exit then Valued(o, Flag(true)) else o] + more.item, more.rest, more.table))
  }

  // ---------- a clean table ----------

  predicate IsLong(long: string) {
    StartsWith(long, "--") && long != "--" && '=' !in long
  }

  predicate IsShort(short: string) {
    |short| == 2 && short[0] == '-' && short[1] != '-'
  }

  /** An option that can be written: under its long name if it has one.  Its default is None
      or a string if it takes an argument, and a bool if not. */
  predicate Writable(o: Known) {
    && o.argcount <= 1
    && (if o.argcount != 0 then o.value.Null? || o.value.Text? else o.value.Flag?)
    && (o.long.Some? ==> IsLong(o.long.value))
    && (o.short.Some? ==> IsShort(o.short.value))
    && (o.long.Some? || o.short.Some?)
  }

  /** Options are writable and no two share a long or a short name. */
  predicate Clean(table: Table) {
    && (forall i :: 0 <= i < |table| ==> Writable(table[i]))
    && (forall i, j :: 0 <= i < j < |table| ==>
          && (table[i].long.Some? ==> table[i].long != table[j].long)
          && (table[i].short.Some? ==> table[i].short != table[j].short))
  }

  lemma {:induction false} WithLongFinds(table: Table, o: Known)
    requires Clean(table) && o in table && o.long.Some?
    ensures WithLong(table, o.long.value) == [o]
  {
    if table[0] == o {
      WithLongNone(table[1..], o.long.value);
    } else {
      WithLongFinds(table[1..], o);
      var j :| 0 < j < |table| && table[j] == o;
      assert table[0].long != Some(o.long.value);
    }
  }

  lemma {:induction false} WithLongNone(table: Table, long: string)
    requires forall i :: 0 <= i < |table| ==> table[i].long != Some(long)
    ensures WithLong(table, long) == []
  {
    if table != [] {
      WithLongNone(table[1..], long);
    }
  }

  lemma {:induction false} WithShortFinds(table: Table, o: Known)
    requires Clean(table) && o in table && o.short.Some?
    ensures WithShort(table, o.short.value) == [o]
  {
    if table[0] == o {
      WithShortNone(table[1..], o.short.value);
    } else {
      WithShortFinds(table[1..], o);
      var j :| 0 < j < |table| && table[j] == o;
      assert table[0].short != Some(o.short.value);
    }
  }

  lemma {:induction false} WithShortNone(table: Table, short: string)
    requires forall i :: 0 <= i < |table| ==> table[i].short != Some(short)
    ensures WithShort(table, short) == []
  {
    if table != [] {
      WithShortNone(table[1..], short);
    }
  }

  /** Conversely, what a lookup finds is in the table, and an empty result means absence. */
  lemma {:induction false} WithLongMembers(table: Table, long: string)
    ensures forall o :: o in WithLong(table, long) <==> o in table && o.long == Some(long)
  {
    if table != [] {
      WithLongMembers(table[1..], long);
      assert table == [table[0]] + table[1..];
    }
  }

  lemma {:induction false} WithShortMembers(table: Table, short: string)
    ensures forall o :: o in WithShort(table, short) <==> o in table && o.short == Some(short)
  {
    if table != [] {
      WithShortMembers(table[1..], short);
      assert table == [table[0]] + table[1..];
    }
  }

  lemma {:induction false} PartitionWhole(s: string)
    requires '=' !in s
    ensures Partition(s) == (s, None)
  {
    if s != [] {
      PartitionWhole(s[1..]);
      assert [s[0]] + s[1..] == s;
    }
  }

  lemma {:induction false} PartitionAt(s: string, v: string)
    requires '=' !in s
    ensures Partition(s + "=" + v) == (s, Some(v))
  {
    var t := s + "=" + v;
    if s == [] {
      assert t[1..] == v;
    } else {
      PartitionAt(s[1..], v);
      assert t[0] == s[0] && t[1..] == s[1..] + "=" + v;
      assert [s[0]] + s[1..] == s;
    }
  }

  lemma {:induction false} PartitionHead(s: string)
    ensures '=' !in Partition(s).0
    ensures Partition(s).1.None? ==> Partition(s).0 == s
    ensures Partition(s).1.Some? ==> s == Partition(s).0 + "=" + Partition(s).1.value
  {
    if s != [] {
      PartitionHead(s[1..]);
      assert s == [s[0]] + s[1..];
    }
  }
}
