/** The leaves of docopt: positional arguments, commands and options, and their values.

The same classes serve as leaves of a pattern, as parsed argv elements and as collected
results, as in docopt.py:99-216.
 */
module Elements {
  import opened Basics

  /** The Python values an element can hold: None, a bool, an int, a str or a list of str. */
  datatype Value =
    | Null
    | Flag(on: bool)
    | Count(n: int)
    | Text(text: string)
    | Texts(texts: seq<string>)
    | TypeError  // what `+=` leaves when Python raises

  datatype Element =
    | Argument(name: Option<string>, value: Value)
    | Command(name: Option<string>, value: Value)
    | Opt(short: Option<string>, long: Option<string>, argcount: nat, value: Value)

  /** `a.name`: the long form of an option if it has one, else the short form. */
  function Name(e: Element): Option<string> {
    match e
    case Argument(name, _) => name
    case Command(name, _) => name
    case Opt(short, long, _, _) => if long.Some? then long else short
  }

  /** Leaves whose value is an int or a list add up what they match. */
  predicate Accumulates(e: Element) {
    e.value.Count? || e.value.Texts?
  }

  function Chars(s: string): seq<string> {
    if s == [] then [] else [[s[0]]] + Chars(s[1..])
  }

  /** Python's `v += w`. */
  function Plus(v: Value, w: Value): Value {
    match (v, w)
    case (Count(a), Count(b)) => Count(a + b)
    case (Count(a), Flag(b)) => Count(a + One(b))
    case (Flag(a), Count(b)) => Count(One(a) + b)
    case (Flag(a), Flag(b)) => Count(One(a) + One(b))
    case (Text(s), Text(t)) => Text(s + t)
    case (Texts(ss), Texts(ts)) => Texts(ss + ts)
    case (Texts(ss), Text(t)) => Texts(ss + Chars(t))
    case _ => TypeError
  }

  /** Position of the first element called `n`; the length if there is none. */
  function Find(s: seq<Element>, n: Option<string>): (i: nat)
    ensures i <= |s|
    ensures i < |s| ==> Name(s[i]) == n
    ensures forall k :: 0 <= k < i ==> Name(s[k]) != n
  {
    if s == [] || Name(s[0]) == n then 0 else 1 + Find(s[1..], n)
  }

  /** Position of the first word; the length if there is none. */
  function FindArgument(s: seq<Element>): (i: nat)
    ensures i <= |s|
    ensures i < |s| ==> s[i].Argument?
    ensures forall k :: 0 <= k < i ==> !s[k].Argument?
  {
    if s == [] || s[0].Argument? then 0 else 1 + FindArgument(s[1..])
  }

  function Drop<T>(s: seq<T>, i: nat): seq<T>
    requires i < |s|
  {
    s[..i] + s[i + 1..]
  }
}
