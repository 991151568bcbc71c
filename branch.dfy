/** `branch` / `or_branch` / `or_else`: the branch dispatcher. A builder collects
    (marker, sub-parser) entries in declaration order; finalising it builds the
    fallback, an exclusion run over all markers mapped through a transform, and
    layers each `just(marker).ignore_then(sub)` as a later alternative of a
    `choice` whose first alternative is everything layered so far. */
module Dispatcher {
  import opened Combinators
  import opened Patterns
  import opened Divergence
  import opened Exclusion

  /** A registered alternative: the marker literal and the sub-parser it commits to. */
  type Entry<T> = (Pattern, Parser<T>)

  /** The markers of the entries, in declaration order. */
  function Markers<T>(entries: seq<Entry<T>>): (r: seq<Pattern>)
    ensures |r| == |entries|
    ensures forall i :: 0 <= i < |entries| ==> r[i] == entries[i].0
  {
    if entries == [] then [] else Markers(entries[..|entries| - 1]) + [entries[|entries| - 1].0]
  }

  /** `just(marker).ignore_then(sub)`: once the literal matches, the result is the
      sub-parser's, success or failure. */
  function Attempt<T>(e: Entry<T>, s: seq<char>): Reply<T>
  {
    IgnoreThen(Just(e.0, s), e.1)
  }

  /** `not_containing(markers).map(transform)`, as built from the tree `t`. */
  function Fallback<T>(t: Tree, transform: seq<char> -> T, s: seq<char>): Reply<T>
    requires t.Node?
  {
    MapReply(Exclude(t, s), transform)
  }

  /** The parser `or_else` holds after layering `entries`: each new entry becomes
      the second alternative behind everything built so far. */
  function Layered<T>(t: Tree, transform: seq<char> -> T, entries: seq<Entry<T>>, s: seq<char>): Reply<T>
    requires t.Node?
  {
    if entries == [] then Fallback(t, transform, s)
    else Or(Layered(t, transform, entries[..|entries| - 1], s), Attempt(entries[|entries| - 1], s))
  }

  /** The entries tried one after the other in declaration order; the first whose
      literal matches and whose sub-parser succeeds wins. */
  function FirstAttempt<T>(entries: seq<Entry<T>>, s: seq<char>): Reply<T>
  {
    if entries == [] then None else Or(Attempt(entries[0], s), FirstAttempt(entries[1..], s))
  }

  /** The parser `or_else(transform)` returns, run on `s`. */
  function Dispatch<T>(entries: seq<Entry<T>>, transform: seq<char> -> T, s: seq<char>): Reply<T>
    requires entries != [] && NoEmpty(Markers(entries))
  {
    Layered(Build(Markers(entries)), transform, entries, s)
  }

  lemma {:induction false} FirstAttemptSnoc<T>(entries: seq<Entry<T>>, e: Entry<T>, s: seq<char>)
    ensures FirstAttempt(entries + [e], s) == Or(FirstAttempt(entries, s), Attempt(e, s))
  {
    if entries != [] {
      assert (entries + [e])[1..] == entries[1..] + [e];
      FirstAttemptSnoc(entries[1..], e, s);
    } else {
      assert [e][1..] == [];
    }
  }

  /** Trial order: the fallback first, then the entries from first-declared to
      last-declared; the first alternative that succeeds wins. */
  lemma {:induction false} TrialOrder<T>(t: Tree, transform: seq<char> -> T, entries: seq<Entry<T>>, s: seq<char>)
    requires t.Node?
    ensures Layered(t, transform, entries, s) == Or(Fallback(t, transform, s), FirstAttempt(entries, s))
  {
    if entries != [] {
      var n := |entries| - 1;
      TrialOrder(t, transform, entries[..n], s);
      assert entries[..n] + [entries[n]] == entries;
      FirstAttemptSnoc(entries[..n], entries[n], s);
    }
  }

  lemma DispatchTrialOrder<T>(entries: seq<Entry<T>>, transform: seq<char> -> T, s: seq<char>)
    requires entries != [] && NoEmpty(Markers(entries))
    ensures Dispatch(entries, transform, s) ==
      Or(Fallback(Build(Markers(entries)), transform, s), FirstAttempt(entries, s))
  {
    BuildDenotes(Markers(entries));
    TrialOrder(Build(Markers(entries)), transform, entries, s);
  }

  /** Input in which no registered marker occurs goes to the fallback whole. */
  lemma DispatchVerbatim<T>(entries: seq<Entry<T>>, transform: seq<char> -> T, s: seq<char>)
    requires entries != [] && NoEmpty(Markers(entries))
    requires s != [] && !ContainsSome(s, Markers(entries))
    ensures Dispatch(entries, transform, s) == Some((transform(s), []))
  {
    var m := Markers(entries);
    BuildDenotes(m);
    ExcludeWhole(Build(m), m, s);
    DispatchTrialOrder(entries, transform, s);
  }

  /** Input that begins with a registered marker: the fallback fails and the
      result is that of the entries tried in declaration order. */
  lemma DispatchAtMarker<T>(entries: seq<Entry<T>>, transform: seq<char> -> T, s: seq<char>)
    requires entries != [] && NoEmpty(Markers(entries))
    requires StartsWithSome(s, Markers(entries))
    ensures Dispatch(entries, transform, s) == FirstAttempt(entries, s)
  {
    var m := Markers(entries);
    BuildDenotes(m);
    ExcludeFails(Build(m), m, s);
    DispatchTrialOrder(entries, transform, s);
  }

  lemma {:induction false} FirstAttemptNone<T>(entries: seq<Entry<T>>, s: seq<char>)
    requires forall j :: 0 <= j < |entries| ==> !(entries[j].0 <= s)
    ensures FirstAttempt(entries, s).None?
  {
    if entries != [] {
      FirstAttemptNone(entries[1..], s);
    }
  }

  lemma {:induction false} FirstAttemptOnly<T>(entries: seq<Entry<T>>, i: nat, s: seq<char>)
    requires i < |entries|
    requires entries[i].0 <= s
    requires forall j :: 0 <= j < |entries| && j != i ==> !(entries[j].0 <= s)
    ensures FirstAttempt(entries, s) == entries[i].1(s[|entries[i].0|..])
  {
    if i > 0 {
      FirstAttemptOnly(entries[1..], i - 1, s);
    } else {
      FirstAttemptNone(entries[1..], s);
    }
  }

  /** Commitment: when exactly one marker matches at the start, the result is
      its sub-parser's on the input after the marker; if that fails, the whole
      dispatch fails, with no retry of the fallback or of another entry. */
  lemma DispatchCommits<T>(entries: seq<Entry<T>>, transform: seq<char> -> T, s: seq<char>, i: nat)
    requires entries != [] && NoEmpty(Markers(entries))
    requires i < |entries| && entries[i].0 <= s
    requires forall j :: 0 <= j < |entries| && j != i ==> !(entries[j].0 <= s)
    ensures Dispatch(entries, transform, s) == entries[i].1(s[|entries[i].0|..])
    ensures entries[i].1(s[|entries[i].0|..]).None? ==> Dispatch(entries, transform, s).None?
  {
    assert Markers(entries)[i] <= s;
    DispatchAtMarker(entries, transform, s);
    FirstAttemptOnly(entries, i, s);
  }

  lemma {:induction false} FirstAttemptSkip<T>(entries: seq<Entry<T>>, i: nat, s: seq<char>)
    requires i < |entries| && Attempt(entries[i], s).None?
    ensures FirstAttempt(entries, s) == FirstAttempt(entries[..i] + entries[i + 1..], s)
  {
    if i == 0 {
      assert entries[..0] + entries[1..] == entries[1..];
    } else {
      FirstAttemptSkip(entries[1..], i - 1, s);
      assert (entries[..i] + entries[i + 1..])[1..] == entries[1..][..i - 1] + entries[1..][i..];
      assert (entries[..i] + entries[i + 1..])[0] == entries[0];
    }
  }

  /** Commitment holds only against the entries whose markers do not match:
      when an entry's literal matches and its sub-parser fails, `choice` goes on
      to the remaining entries, and a later entry whose marker also matches here
      is still tried. */
  lemma FallThrough<T>(entries: seq<Entry<T>>, transform: seq<char> -> T, s: seq<char>, i: nat)
    requires entries != [] && NoEmpty(Markers(entries))
    requires i < |entries| && entries[i].0 <= s
    requires entries[i].1(s[|entries[i].0|..]).None?
    ensures Dispatch(entries, transform, s) == FirstAttempt(entries[..i] + entries[i + 1..], s)
  {
    assert Markers(entries)[i] <= s;
    DispatchAtMarker(entries, transform, s);
    FirstAttemptSkip(entries, i, s);
  }

  /** Input that does not begin with a marker goes to the fallback, which stops
      just before the next marker and leaves it unread; the choice is not
      re-entered for the rest. */
  lemma DispatchStopsBeforeMarker<T>(entries: seq<Entry<T>>, transform: seq<char> -> T, s: seq<char>)
    requires entries != [] && NoEmpty(Markers(entries))
    requires s != [] && !StartsWithSome(s, Markers(entries))
    ensures Exclude(Build(Markers(entries)), s).Some?
    ensures var (w, rest) := Exclude(Build(Markers(entries)), s).value;
      Dispatch(entries, transform, s) == Some((transform(w), rest)) &&
      s == w + rest && w != [] && (rest == [] || StartsWithSome(rest, Markers(entries)))
  {
    var m := Markers(entries);
    BuildDenotes(m);
    ExcludeFails(Build(m), m, s);
    ExcludeStops(Build(m), m, s);
    DispatchTrialOrder(entries, transform, s);
  }

  /** The value `branch(...)` returns and `or_branch` extends. */
  class Branch<T> {
    var branches: seq<Entry<T>>

    ghost predicate Valid()
      reads this
    {
      branches != []
    }

    /** `branch(begin, parser)`: a builder with exactly one entry. */
    constructor (begin: Pattern, parser: Parser<T>)
      ensures Valid() && branches == [(begin, parser)]
    {
      branches := [(begin, parser)];
    }

    /** `or_branch(begin, parser)`: appends an entry; earlier entries are unchanged. */
    method OrBranch(begin: Pattern, parser: Parser<T>)
      requires Valid()
      modifies this
      ensures Valid() && branches == old(branches) + [(begin, parser)]
    {
      branches := branches + [(begin, parser)];
    }

    /** `or_else(transform)`: builds the fallback over all markers (panicking,
        here `None`, on an empty marker) and layers every entry onto it. */
    method OrElse(transform: seq<char> -> T) returns (p: Option<Parser<T>>)
      requires Valid()
      ensures p.None? <==> !NoEmpty(Markers(branches))
      ensures p.Some? ==> forall s :: p.value(s) == Dispatch(branches, transform, s)
    {
      var entries := branches;
      var built := NotContaining(Markers(entries));
      if built.None? {
        return None;
      }
      var t := built.value;
      assert t == Build(Markers(entries)) by {
        BuildDenotes(Markers(entries));
      }
      var parser: Parser<T> := s => Fallback(t, transform, s);
      for i := 0 to |entries|
        invariant forall s :: parser(s) == Layered(t, transform, entries[..i], s)
      {
        var acc := parser;
        var e := entries[i];
        parser := s => Or(acc(s), Attempt(e, s));
        assert entries[..i + 1][..i] == entries[..i];
      }
      assert entries[..|entries|] == entries;
      return Some(parser);
    }
  }
}
