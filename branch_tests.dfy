/** The dispatcher configured as in the source's own tests: `{{` commits to
    `foo}}`, `{%` to `bar%}`, `/*` to `TODO*/`, anything else is verbatim text,
    and the whole is followed by `end()`. */
module DispatcherTests {
  import opened Combinators
  import opened Patterns
  import opened Divergence
  import opened Exclusion
  import opened Dispatcher

  datatype Token = Foo | Bar | Comment | Verbatim(text: seq<char>)

  /** `just(open).then_ignore(just(close)).map(|_| token)` run on `s`. */
  function Keyword(open: seq<char>, close: seq<char>, token: Token, s: seq<char>): Reply<Token>
  {
    MapReply(ThenIgnore(Just(open, s), (r: seq<char>) => Just(close, r)), (_: seq<char>) => token)
  }

  function FooBody(s: seq<char>): Reply<Token> { Keyword("foo", "}}", Foo, s) }
  function BarBody(s: seq<char>): Reply<Token> { Keyword("bar", "%}", Bar, s) }
  function CommentBody(s: seq<char>): Reply<Token> { Keyword("TODO", "*/", Comment, s) }

  const Entries: seq<Entry<Token>> := [("{{", FooBody), ("{%", BarBody), ("/*", CommentBody)]

  function MakeVerbatim(text: seq<char>): Token { Verbatim(text) }

  const MarkerList: seq<Pattern> := ["{{", "{%", "/*"]

  lemma EntriesMarkers()
    ensures Markers(Entries) == MarkerList
    ensures NoEmpty(Markers(Entries))
  {
    assert Entries[..2][..1][..0] == [];
  }

  /** Exactly the `i`-th marker matches at the start of `s`. */
  lemma OnlyMatch(s: seq<char>, i: nat)
    requires i < 3
    requires IsPrefix(Entries[i].0, s)
    requires forall j :: 0 <= j < 3 && j != i ==> !IsPrefix(Entries[j].0, s)
    ensures forall j :: 0 <= j < |Entries| && j != i ==> !(Entries[j].0 <= s)
  {
  }

  /** `branch(...).or_branch(...).or_branch(...).or_else(Token::Verbatim).then_ignore(end())`. */
  function Lexer(s: seq<char>): Reply<Token>
  {
    EntriesMarkers();
    ThenIgnore(Dispatch(Entries, MakeVerbatim, s), End)
  }

  lemma ParseFoo()
    ensures Lexer("{{foo}}") == Some((Foo, []))
  {
    EntriesMarkers();
    OnlyMatch("{{foo}}", 0);
    DispatchCommits(Entries, MakeVerbatim, "{{foo}}", 0);
  }

  lemma ParseBar()
    ensures Lexer("{%bar%}") == Some((Bar, []))
  {
    EntriesMarkers();
    OnlyMatch("{%bar%}", 1);
    DispatchCommits(Entries, MakeVerbatim, "{%bar%}", 1);
  }

  lemma ParseComment()
    ensures Lexer("/*TODO*/") == Some((Comment, []))
  {
    EntriesMarkers();
    OnlyMatch("/*TODO*/", 2);
    DispatchCommits(Entries, MakeVerbatim, "/*TODO*/", 2);
  }

  /** The marker matched but its sub-parser failed: the dispatch fails. */
  lemma ParseFooUnclosed()
    ensures Lexer("{{foo}").None?
  {
    EntriesMarkers();
    OnlyMatch("{{foo}", 0);
    DispatchCommits(Entries, MakeVerbatim, "{{foo}", 0);
  }

  /** The marker matched but its sub-parser failed: the dispatch fails. */
  lemma ParseBarUnclosed()
    ensures Lexer("{%foo%").None?
  {
    EntriesMarkers();
    OnlyMatch("{%foo%", 1);
    DispatchCommits(Entries, MakeVerbatim, "{%foo%", 1);
  }

  /** The marker matched but its sub-parser failed: the dispatch fails. */
  lemma ParseCommentUnclosed()
    ensures Lexer("/*TODO//").None?
  {
    EntriesMarkers();
    OnlyMatch("/*TODO//", 2);
    assert "/*TODO//"[2..] == "TODO//";
    assert IsPrefix("TODO", "TODO//") && "TODO//"[4..] == "//";
    assert !IsPrefix("*/", "//");
    assert CommentBody("TODO//").None?;
    assert Entries[2].1("/*TODO//"[2..]).None?;
    DispatchCommits(Entries, MakeVerbatim, "/*TODO//", 2);
  }

  /** No marker begins with a character other than `{` and `/`. */
  lemma OtherSuffixes(c: char)
    requires c != '{' && c != '/'
    ensures NoEmpty(MarkerList) && Suffixes(MarkerList, c) == []
  {
    var m1: seq<Pattern> := ["{{"];
    var m2: seq<Pattern> := ["{{", "{%"];
    assert MarkerList[..2] == m2 && m2[..1] == m1 && m1[..0] == [];
    assert Suffixes(m1, c) == [];
    assert Suffixes(m2, c) == [];
  }

  /** A string free of `{` and `/` contains no marker. */
  lemma NoOpener(s: seq<char>)
    requires forall k :: 0 <= k < |s| ==> s[k] != '{' && s[k] != '/'
    ensures !ContainsSome(s, MarkerList)
  {
    forall k, i | 0 <= k <= |s| && 0 <= i < |MarkerList|
      ensures !(MarkerList[i] <= s[k..])
    {
      if k < |s| {
        assert s[k..][0] == s[k];
      }
    }
  }

  /** Text without a marker is one verbatim token. */
  lemma ParseVerbatim()
    ensures Lexer("just some random text") == Some((Verbatim("just some random text"), []))
  {
    EntriesMarkers();
    var s := "just some random text";
    assert forall k :: 0 <= k < |s| ==> s[k] != '{' && s[k] != '/';
    NoOpener(s);
    DispatchVerbatim(Entries, MakeVerbatim, s);
  }

  /** On `foo{{bar` the exclusion run reads `foo` and stops before `{{`. */
  lemma InvalidRun(t: Tree)
    requires t.Node? && Denotes(t, MarkerList)
    ensures Exclude(t, "foo{{bar") == Some(("foo", "{{bar"))
  {
    var m := MarkerList;
    OtherSuffixes('f');
    OtherSuffixes('o');
    var s := "foo{{bar";
    var s1, s2, s3 := "oo{{bar", "o{{bar", "{{bar";
    assert s[1..] == s1 && s1[1..] == s2 && s2[1..] == s3;
    RepeatOther(t, m, s);
    RepeatOther(t, m, s1);
    RepeatOther(t, m, s2);
    assert m[0] <= s3;
    RepeatAtMarker(t, m, s3);
    var e: seq<seq<char>> := [];
    assert s2[0] == 'o' && s1[0] == 'o' && s[0] == 'f';
    assert [[s2[0]]] + e == ["o"];
    assert Repeat(t, s2) == (["o"], s3);
    assert [[s1[0]]] + ["o"] == ["o", "o"];
    assert Repeat(t, s1) == (["o", "o"], s3);
    assert [[s[0]]] + ["o", "o"] == ["f", "o", "o"];
    assert Repeat(t, s) == (["f", "o", "o"], s3);
    assert Flatten(["f", "o", "o"]) == "foo";
  }

  /** The fallback reads `foo` and stops before `{{`; the choice is not entered
      again, so `end()` fails. */
  lemma ParseInvalid()
    ensures Dispatch(Entries, MakeVerbatim, "foo{{bar") == Some((Verbatim("foo"), "{{bar"))
    ensures Lexer("foo{{bar").None?
  {
    EntriesMarkers();
    var s := "foo{{bar";
    BuildDenotes(MarkerList);
    InvalidRun(Build(MarkerList));
    OtherSuffixes('f');
    NoSuffixes(MarkerList, 'f', s[1..]);
    assert [s[0]] + s[1..] == s;
    DispatchStopsBeforeMarker(Entries, MakeVerbatim, s);
  }

  /** A sub-parser that always fails. */
  function Reject(s: seq<char>): Reply<Token> { None }

  /** With `{` declared before `{{`, the input `{{foo}}` matches both literals:
      the `{` branch fails, and the `{{` branch is still tried and succeeds. */
  lemma FallThroughExample()
    ensures Dispatch([("{", Reject), ("{{", FooBody)], MakeVerbatim, "{{foo}}") == Some((Foo, []))
  {
    var entries: seq<Entry<Token>> := [("{", Reject), ("{{", FooBody)];
    var s := "{{foo}}";
    var m: seq<Pattern> := ["{", "{{"];
    assert entries[..1][..0] == [];
    assert Markers(entries) == m;
    assert entries[0].0 <= s;
    assert s[1..] == "{foo}}";
    FallThrough(entries, MakeVerbatim, s, 0);
    var rest: seq<Entry<Token>> := [("{{", FooBody)];
    assert entries[..0] + entries[1..] == rest;
    assert rest[1..] == [];
    assert s[2..] == "foo}}";
    assert IsPrefix("foo", "foo}}") && "foo}}"[3..] == "}}";
    assert FooBody(s[2..]) == Some((Foo, []));
  }
}
