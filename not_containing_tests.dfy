/** The exclusion run over the markers `{%` and `{{`, the configuration the
    source's own tests use, followed by `end()`. */
module ExclusionTests {
  import opened Combinators
  import opened Patterns
  import opened Divergence
  import opened Exclusion

  const Markers: seq<Pattern> := ["{%", "{{"]

  /** `not_containing(["{%", "{{"]).then_ignore(end())` run on `s`. */
  function Lexer(s: seq<char>): Reply<seq<char>>
  {
    BuildDenotes(Markers);
    ThenIgnore(Exclude(Build(Markers), s), End)
  }

  /** A marker begins at the start of `x` exactly when `x` opens with `{%` or `{{`. */
  lemma StartsWithMarker(x: seq<char>)
    ensures StartsWithSome(x, Markers) <==> |x| >= 2 && x[0] == '{' && (x[1] == '%' || x[1] == '{')
  {
    if |x| >= 2 && x[0] == '{' && x[1] == '%' {
      assert Markers[0] <= x;
    }
    if |x| >= 2 && x[0] == '{' && x[1] == '{' {
      assert Markers[1] <= x;
    }
  }

  /** The chunks the matcher reads for these markers: one character other than
      `{`, or `{` and one character that completes no marker, or a final `{`. */
  predicate ChunkOk(w: seq<char>, rest: seq<char>)
  {
    (|w| == 1 && w[0] != '{') ||
    (|w| == 2 && w[0] == '{' && w[1] != '%' && w[1] != '{') ||
    (w == ['{'] && rest == [])
  }

  lemma ChunkShape(s: seq<char>)
    ensures Diverge(Markers, s).Some? ==> ChunkOk(Diverge(Markers, s).value.0, Diverge(Markers, s).value.1)
  {
    if s != [] && s[0] == '{' {
      SuffixesPair("{%", "{{", s[0]);
      var sub: seq<Pattern> := ["%", "{"];
      assert Suffixes(Markers, s[0]) == sub;
      assert [] !in sub;
      if s[1..] != [] {
        var d := s[1];
        SuffixesPair("%", "{", d);
        if d != '%' && d != '{' {
          assert Suffixes(sub, d) == [];
          assert Diverge(sub, s[1..]) == Some(([d], s[2..]));
        } else {
          assert "%"[1..] == [] && "{"[1..] == [];
          assert [] in Suffixes(sub, d);
          assert Diverge(Markers, s).None?;
        }
      }
    } else if s != [] {
      SuffixesPair("{%", "{{", s[0]);
    }
  }

  /** A well-formed chunk in front of marker-free text creates no marker. */
  lemma ChunkThenClean(w: seq<char>, rest: seq<char>)
    requires ChunkOk(w, rest) && !ContainsSome(rest, Markers)
    ensures !ContainsSome(w + rest, Markers)
  {
    var s := w + rest;
    forall k | 0 <= k <= |s|
      ensures !StartsWithSome(s[k..], Markers)
    {
      StartsWithMarker(s[k..]);
      if k >= |w| {
        assert s[k..] == rest[k - |w|..];
      } else if k == 0 {
        assert s[0] == w[0];
        if |w| == 2 {
          assert s[1] == w[1];
        }
      } else {
        assert k == 1 && |w| == 2;
        assert s[1] == w[1];
      }
    }
  }

  /** Whenever the run leaves nothing over, no marker occurs in the input, so
      `end()` rejects every input that contains a marker. */
  lemma {:induction false} CleanRunHasNoMarker(s: seq<char>)
    requires Repeat(Build(Markers), s).1 == []
    ensures !ContainsSome(s, Markers)
    decreases |s|
  {
    var t := Build(Markers);
    BuildDenotes(Markers);
    RunDenotes(t, Markers, s);
    if Run(t, s).None? {
      assert s == [];
      assert s[0..] == s;
      StartsWithMarker(s);
    } else {
      var (w, s') := Run(t, s).value;
      SuffixesPair("{%", "{{", s[0]);
      assert Repeat(t, s).1 == Repeat(t, s').1;
      CleanRunHasNoMarker(s');
      ChunkShape(s);
      ChunkThenClean(w, s');
    }
  }

  /** The documented promise holds for these markers: whatever the run reads,
      up to the end of the input or to the next marker, contains no marker. */
  lemma {:induction false} RunOutputHasNoMarker(s: seq<char>)
    ensures !ContainsSome(Flatten(Repeat(Build(Markers), s).0), Markers)
    ensures Exclude(Build(Markers), s).Some? ==>
      !ContainsSome(Exclude(Build(Markers), s).value.0, Markers)
    decreases |s|
  {
    var t := Build(Markers);
    BuildDenotes(Markers);
    RunDenotes(t, Markers, s);
    if Run(t, s).None? {
      var e: seq<char> := [];
      assert Flatten(Repeat(t, s).0) == e;
      assert e[0..] == e;
      StartsWithMarker(e);
    } else {
      var (w, s') := Run(t, s).value;
      var ws := Repeat(t, s').0;
      assert Repeat(t, s).0 == [w] + ws;
      assert Flatten([w] + ws) == w + Flatten(ws);
      RunOutputHasNoMarker(s');
      ChunkShape(s);
      if w == ['{'] && s' == [] {
        assert Run(t, s').None?;
        assert ws == [];
      }
      ChunkThenClean(w, Flatten(ws));
    }
  }

  lemma LexerRejectsMarkers(s: seq<char>)
    requires ContainsSome(s, Markers)
    ensures Lexer(s).None?
  {
    BuildDenotes(Markers);
    if Exclude(Build(Markers), s).Some? {
      if Repeat(Build(Markers), s).1 == [] {
        CleanRunHasNoMarker(s);
      }
    }
  }

  /** Inputs without a marker are read whole. */
  lemma LexerAcceptsClean(s: seq<char>)
    requires s != [] && !Occurs(s, Markers)
    ensures Lexer(s) == Some((s, []))
  {
    OccursIff(s, Markers);
    BuildDenotes(Markers);
    ExcludeWhole(Build(Markers), Markers, s);
  }

  lemma NotContainingOtherChars()
    ensures Lexer("foo") == Some(("foo", []))
  {
    LexerAcceptsClean("foo");
  }

  lemma NotContainingFirstChar()
    ensures Lexer("foo{bar") == Some(("foo{bar", []))
  {
    LexerAcceptsClean("foo{bar");
  }

  lemma NotContainingFirstCharFirst()
    ensures Lexer("{bar") == Some(("{bar", []))
  {
    LexerAcceptsClean("{bar");
  }

  lemma NotContainingFirstCharLast()
    ensures Lexer("foo{") == Some(("foo{", []))
  {
    LexerAcceptsClean("foo{");
  }

  lemma NotContainingSecondChar()
    ensures Lexer("foo%bar") == Some(("foo%bar", []))
  {
    LexerAcceptsClean("foo%bar");
  }

  lemma NotContainingSecondCharFirst()
    ensures Lexer("%bar") == Some(("%bar", []))
  {
    LexerAcceptsClean("%bar");
  }

  lemma NotContainingSecondCharLast()
    ensures Lexer("foo%") == Some(("foo%", []))
  {
    LexerAcceptsClean("foo%");
  }

  lemma RejectedExamples()
    ensures Lexer("foo{%bar").None?
    ensures Lexer("{%bar").None?
    ensures Lexer("foo{%").None?
    ensures Lexer("foo{{bar").None?
    ensures Lexer("{{bar").None?
    ensures Lexer("foo{{").None?
  {
    var xs: seq<seq<char>> := ["foo{%bar", "{%bar", "foo{%", "foo{{bar", "{{bar", "foo{{"];
    forall i | 0 <= i < |xs|
      ensures Lexer(xs[i]).None?
    {
      assert Occurs(xs[i], Markers);
      OccursIff(xs[i], Markers);
      LexerRejectsMarkers(xs[i]);
    }
    assert xs[0] == "foo{%bar" && xs[1] == "{%bar" && xs[2] == "foo{%";
    assert xs[3] == "foo{{bar" && xs[4] == "{{bar" && xs[5] == "foo{{";
  }
}
