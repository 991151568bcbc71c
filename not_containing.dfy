/** `not_containing(patterns)`: the exclusion run. The divergence matcher is
    repeated until it fails, at least once, and the chunks it read are
    concatenated in order. */
module Exclusion {
  import opened Combinators
  import opened Patterns
  import opened Divergence

  /** `flatten().collect()`: the chunks joined in order. */
  function Flatten(chunks: seq<seq<char>>): seq<char>
  {
    if chunks == [] then [] else chunks[0] + Flatten(chunks[1..])
  }

  /** `repeated()` over the matcher `t`: the chunks read, until the matcher fails,
      and the input left at that point. Nothing is dropped or reordered, every
      chunk is non-empty, and the repetition stops only where the matcher fails. */
  function Repeat(t: Tree, s: seq<char>): (r: (seq<seq<char>>, seq<char>))
    requires t.Node?
    ensures Flatten(r.0) + r.1 == s
    ensures forall i :: 0 <= i < |r.0| ==> r.0[i] != []
    ensures Run(t, r.1).None?
    decreases |s|
  {
    match Run(t, s)
    case None => ([], s)
    case Some((w, rest)) =>
      var (ws, left) := Repeat(t, rest);
      ([w] + ws, left)
  }

  /** The parser `not_containing` builds, run on `s`: `at_least(1)` rejects a run
      of no chunks, and the value is the concatenation of the chunks. */
  function Exclude(t: Tree, s: seq<char>): Reply<seq<char>>
    requires t.Node?
  {
    var (chunks, rest) := Repeat(t, s);
    if |chunks| >= 1 then Some((Flatten(chunks), rest)) else None
  }

  /** `not_containing(pats)`: panics (here `None`) on an empty marker, otherwise
      the matcher of `not_starting_with(pats)`, which `Exclude` repeats. */
  function NotContaining(pats: seq<Pattern>): (r: Option<Tree>)
    requires pats != []
    ensures r.None? <==> !NoEmpty(pats)
    ensures r.Some? ==> r.value.Node? && Denotes(r.value, pats)
  {
    NotStartingWith(pats)
  }

  /** Each chunk is exactly what the matcher reads at the position where the
      chunk starts. */
  lemma {:induction false} RepeatChunks(t: Tree, s: seq<char>, i: nat)
    requires t.Node?
    requires i < |Repeat(t, s).0|
    ensures var (chunks, rest) := Repeat(t, s);
      Run(t, Flatten(chunks[i..]) + rest) == Some((chunks[i], Flatten(chunks[i + 1..]) + rest))
    decreases |s|
  {
    var (chunks, rest) := Repeat(t, s);
    var (w, after) := Run(t, s).value;
    assert chunks == [w] + Repeat(t, after).0;
    if i == 0 {
      assert chunks[0..] == chunks;
      assert chunks[1..] == Repeat(t, after).0;
    } else {
      RepeatChunks(t, after, i - 1);
      assert chunks[i..] == Repeat(t, after).0[i - 1..];
      assert chunks[i + 1..] == Repeat(t, after).0[i..];
    }
  }

  /** The exclusion run fails exactly on empty input and on input that begins
      with a marker: at least one chunk is required. */
  lemma ExcludeFails(t: Tree, pats: seq<Pattern>, s: seq<char>)
    requires NoEmpty(pats) && pats != [] && Denotes(t, pats)
    ensures t.Node?
    ensures Exclude(t, s).None? <==> s == [] || StartsWithSome(s, pats)
  {
    RunDenotes(t, pats, s);
    DivergeFails(pats, s);
  }

  /** On success the run is a non-empty prefix of the input, and what is left is
      empty or begins with a marker: the run ends only where the next chunk fails. */
  lemma ExcludeStops(t: Tree, pats: seq<Pattern>, s: seq<char>)
    requires NoEmpty(pats) && pats != [] && Denotes(t, pats)
    requires Exclude(t, s).Some?
    ensures var (w, rest) := Exclude(t, s).value;
      s == w + rest && w != [] && (rest == [] || StartsWithSome(rest, pats))
  {
    var (chunks, rest) := Repeat(t, s);
    RunDenotes(t, pats, rest);
    DivergeFails(pats, rest);
    assert Flatten(chunks) == chunks[0] + Flatten(chunks[1..]);
  }

  /** No marker begins at the start of any chunk. (Markers may still straddle a
      chunk boundary: see `DocClaimFails`.) */
  lemma ChunkStarts(t: Tree, pats: seq<Pattern>, s: seq<char>)
    requires NoEmpty(pats) && pats != [] && Denotes(t, pats)
    ensures var (chunks, rest) := Repeat(t, s);
      forall i :: 0 <= i < |chunks| ==> !StartsWithSome(Flatten(chunks[i..]) + rest, pats)
  {
    var (chunks, rest) := Repeat(t, s);
    forall i | 0 <= i < |chunks|
      ensures !StartsWithSome(Flatten(chunks[i..]) + rest, pats)
    {
      RepeatChunks(t, s, i);
      RunDenotes(t, pats, Flatten(chunks[i..]) + rest);
      DivergeFails(pats, Flatten(chunks[i..]) + rest);
    }
  }

  /** A non-empty input in which no marker occurs is read entirely. */
  lemma ExcludeWhole(t: Tree, pats: seq<Pattern>, s: seq<char>)
    requires NoEmpty(pats) && pats != [] && Denotes(t, pats)
    requires s != [] && !ContainsSome(s, pats)
    ensures Exclude(t, s) == Some((s, []))
  {
    assert s[0..] == s;
    ExcludeFails(t, pats, s);
    ExcludeStops(t, pats, s);
    var (w, rest) := Exclude(t, s).value;
    if rest != [] {
      assert s[|w|..] == rest;
      assert ContainsSome(s, pats);
    }
    assert w == s;
  }

  /** A character that begins no marker is a chunk of its own. */
  lemma RepeatOther(t: Tree, pats: seq<Pattern>, s: seq<char>)
    requires NoEmpty(pats) && pats != [] && Denotes(t, pats)
    requires s != [] && Suffixes(pats, s[0]) == []
    ensures Repeat(t, s) == ([[s[0]]] + Repeat(t, s[1..]).0, Repeat(t, s[1..]).1)
  {
    RunDenotes(t, pats, s);
  }

  /** At a marker the repetition stops and reads nothing. */
  lemma RepeatAtMarker(t: Tree, pats: seq<Pattern>, s: seq<char>)
    requires NoEmpty(pats) && pats != [] && Denotes(t, pats)
    requires StartsWithSome(s, pats)
    ensures Repeat(t, s) == ([], s)
  {
    RunDenotes(t, pats, s);
    DivergeFails(pats, s);
  }

  /** What the divergence matcher for the single marker `ab` reads from `aab`,
      and from what is left after it. */
  lemma DocClaimSteps()
    ensures Diverge(["ab"], "aab") == Some(("aa", "b"))
    ensures Diverge(["ab"], "b") == Some(("b", []))
  {
    var pats: seq<Pattern> := ["ab"];
    var sub: seq<Pattern> := ["b"];
    assert pats[..0] == [] && sub[..0] == [];
    assert Suffixes(pats, 'a') == sub;
    assert Suffixes(pats, 'b') == [];
    assert Suffixes(sub, 'a') == [];
    var s1, s2: seq<char> := "ab", "b";
    assert "aab"[1..] == s1 && s1[1..] == s2;
    assert Diverge(sub, s1) == Some(("a", s2));
    assert ['a'] + "a" == "aa";
  }

  /** The same, for any matcher that denotes the marker set `{ab}`. */
  lemma DocClaimRuns(t: Tree)
    requires Denotes(t, ["ab"])
    ensures t.Node?
    ensures Run(t, "aab") == Some(("aa", "b"))
    ensures Run(t, "b") == Some(("b", []))
    ensures Run(t, []).None?
  {
    var pats: seq<Pattern> := ["ab"];
    DocClaimSteps();
    RunDenotes(t, pats, "aab");
    RunDenotes(t, pats, "b");
    RunDenotes(t, pats, []);
  }

  /** The documented promise, "does not contain any of the patterns as a
      substring", does not hold as written: with the marker `ab` the input `aab`
      is read entirely, as the chunks `aa` and `b`. */
  lemma DocClaimFails()
    ensures ContainsSome("aab", ["ab"])
    ensures Exclude(Build(["ab"]), "aab") == Some(("aab", []))
  {
    var pats: seq<Pattern> := ["ab"];
    assert "aab"[1..] == "ab" == pats[0];
    assert StartsWithSome("aab"[1..], pats);
    BuildDenotes(pats);
    var t := Build(pats);
    DocClaimRuns(t);
    var e: seq<char> := [];
    assert Repeat(t, e) == ([], e);
    assert Repeat(t, "b") == (["b"] + Repeat(t, e).0, Repeat(t, e).1);
    assert ["b"] + Repeat(t, e).0 == ["b"];
    assert Repeat(t, "aab") == (["aa"] + Repeat(t, "b").0, Repeat(t, "b").1);
    assert ["aa"] + ["b"] == ["aa", "b"];
    assert Repeat(t, "aab") == (["aa", "b"], e);
    assert Flatten(["aa", "b"]) == "aab";
  }
}
