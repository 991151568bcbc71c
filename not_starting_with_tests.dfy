/** The divergence matcher over the markers `{%` and `{{`, on the inputs the
    source's own tests use. */
module DivergenceTests {
  import opened Combinators
  import opened Patterns
  import opened Divergence

  const Markers: seq<Pattern> := ["{%", "{{"]

  /** A character that begins no marker is a chunk on its own. */
  lemma StartingWithOther()
    ensures Run(Build(Markers), "foo{%") == Some(("f", "oo{%"))
  {
    BuildDenotes(Markers);
    RunDenotes(Build(Markers), Markers, "foo{%");
    SuffixesPair("{%", "{{", 'f');
  }

  /** A shared first character is read together with the character that diverges. */
  lemma StartingWithFirstChar()
    ensures Run(Build(Markers), "{foo") == Some(("{f", "oo"))
  {
    BuildDenotes(Markers);
    RunDenotes(Build(Markers), Markers, "{foo");
    SuffixesPair("{%", "{{", '{');
    SuffixesPair("%", "{", 'f');
    var sub: seq<Pattern> := ["%", "{"];
    assert Suffixes(Markers, '{') == sub;
    assert [] !in sub;
    assert Suffixes(sub, 'f') == [];
    assert Diverge(sub, "foo") == Some((['f'], "oo"));
    assert "{foo"[1..] == "foo";
    assert Diverge(Markers, "{foo") == Some((['{'] + ['f'], "oo"));
    assert ['{'] + ['f'] == "{f";
  }

  /** Input that begins with a marker is rejected. */
  lemma StartingWithFirstPattern()
    ensures Run(Build(Markers), "{%foo").None?
  {
    BuildDenotes(Markers);
    RunDenotes(Build(Markers), Markers, "{%foo");
    SuffixesPair("{%", "{{", '{');
    SuffixesPair("%", "{", '%');
    var sub: seq<Pattern> := ["%", "{"];
    assert Suffixes(Markers, '{') == sub;
    assert [] !in sub;
    assert Suffixes(sub, '%') == [[]];
    assert Diverge(sub, "%foo").None?;
  }

  /** With no markers at all the matcher succeeds and reads nothing. */
  lemma NoPatterns(s: seq<char>)
    ensures NotStartingWith([]) == Some(Trivial)
    ensures Run(Trivial, s) == Some(([], s))
  {
  }
}
