/** The few parser-combinator primitives the exclusion engine is built from,
    as pure functions over the remaining input. A parse either fails (None) or
    yields a value and the input that is left. Error values, spans and recovery
    of the underlying library are not modelled: failure is just None. */
module Combinators {

  datatype Option<+T> = None | Some(value: T)

  /** The outcome of running a parser on some input. */
  type Reply<T> = Option<(T, seq<char>)>

  /** A parser value: consumes a prefix of the input and yields a value, or fails. */
  type Parser<T> = seq<char> -> Reply<T>

  /** `empty()`: succeeds without consuming anything. */
  function Empty(s: seq<char>): (r: Reply<()>)
    ensures r == Some(((), s))
  {
    Some(((), s))
  }

  /** `end()`: succeeds, consuming nothing, exactly at the end of the input. */
  function End(s: seq<char>): (r: Reply<()>)
    ensures r.Some? <==> s == []
    ensures r.Some? ==> r.value.1 == s
  {
    if s == [] then Some(((), s)) else None
  }

  /** `none_of(cs)`: accepts one character that is not in `cs`. */
  function NoneOf(cs: set<char>, s: seq<char>): (r: Reply<char>)
    ensures r.Some? <==> s != [] && s[0] !in cs
    ensures r.Some? ==> r.value.0 == s[0] && r.value.1 == s[1..]
  {
    if s != [] && s[0] !in cs then Some((s[0], s[1..])) else None
  }

  /** `one_of(c)`: accepts the single character `c`. */
  function OneOf(c: char, s: seq<char>): (r: Reply<char>)
    ensures r.Some? <==> s != [] && s[0] == c
    ensures r.Some? ==> r.value.0 == c && r.value.1 == s[1..]
  {
    if s != [] && s[0] == c then Some((c, s[1..])) else None
  }

  /** `just(lit)`: accepts the literal `lit` at the start of the input. */
  function Just(lit: seq<char>, s: seq<char>): (r: Reply<seq<char>>)
    ensures r.Some? <==> lit <= s
    ensures r.Some? ==> r.value.0 == lit && s == lit + r.value.1
  {
    if lit <= s then Some((lit, s[|lit|..])) else None
  }

  /** `choice((a, b))` on one input: the first alternative that succeeds wins;
      the second is tried on the same input only when the first fails. */
  function Or<T>(a: Reply<T>, b: Reply<T>): (r: Reply<T>)
    ensures a.Some? ==> r == a
    ensures a.None? ==> r == b
  {
    if a.Some? then a else b
  }

  /** `a.ignore_then(q)`: after `a` succeeds, runs `q` on what is left and keeps its value. */
  function IgnoreThen<A, B>(a: Reply<A>, q: Parser<B>): (r: Reply<B>)
    ensures a.None? ==> r.None?
    ensures a.Some? ==> r == q(a.value.1)
  {
    match a
    case None => None
    case Some((_, rest)) => q(rest)
  }

  /** `p.map(f)` on one reply: transforms the value, keeps the remaining input. */
  function MapReply<A, B>(a: Reply<A>, f: A -> B): (r: Reply<B>)
    ensures r.Some? <==> a.Some?
    ensures r.Some? ==> r.value == (f(a.value.0), a.value.1)
  {
    match a
    case None => None
    case Some((v, rest)) => Some((f(v), rest))
  }

  /** `a.then_ignore(q)`: after `a` succeeds, runs `q` on what is left and keeps `a`'s value. */
  function ThenIgnore<A, B>(a: Reply<A>, q: Parser<B>): (r: Reply<A>)
    ensures r.Some? <==> a.Some? && q(a.value.1).Some?
    ensures r.Some? ==> r.value == (a.value.0, q(a.value.1).value.1)
  {
    match a
    case None => None
    case Some((v, rest)) =>
      match q(rest)
      case None => None
      case Some((_, rest')) => Some((v, rest'))
  }
}
