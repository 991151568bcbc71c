/** `not_starting_with(patterns)`: the divergence matcher. At construction time
    the markers are grouped by first character (the partition), and a parser is
    built from `none_of` the first characters and, for each first character that
    does not complete a marker on its own, `one_of` that character followed by
    the matcher for the continuations (or the end of the input). At run time the
    parser reads the shortest prefix of the input that is no longer a prefix of
    any marker. */
module Divergence {
  import opened Combinators
  import opened Patterns

  // ---------------------------------------------------------------------------
  // The partition by first character
  // ---------------------------------------------------------------------------

  /** What follows one first character: `Last` when that character alone is a
      marker, otherwise the (non-empty) continuations seen so far, in order. */
  datatype Subpatterns = Last | Subpatterns(list: seq<Pattern>)

  /** `Subpatterns::new`: the entry for the first marker seen with some first character. */
  function New(subpat: Pattern): Subpatterns
  {
    if |subpat| == 0 then Last else Subpatterns([subpat])
  }

  /** `Subpatterns::push`: `Last` absorbs everything; an empty continuation turns
      the entry into `Last`; otherwise the continuation is appended. */
  function Push(sp: Subpatterns, subpat: Pattern): Subpatterns
  {
    match sp
    case Last => Last
    case Subpatterns(l) => if |subpat| == 0 then Last else Subpatterns(l + [subpat])
  }

  /** One iteration of the partition loop. */
  function Insert(m: map<char, Subpatterns>, pat: Pattern): map<char, Subpatterns>
    requires pat != []
  {
    var first := pat[0];
    var subpattern := pat[1..];
    if first in m then m[first := Push(m[first], subpattern)] else m[first := New(subpattern)]
  }

  /** The map the partition loop leaves after reading all of `pats`. */
  function PartitionOf(pats: seq<Pattern>): map<char, Subpatterns>
    requires NoEmpty(pats)
  {
    if pats == [] then map[] else Insert(PartitionOf(pats[..|pats| - 1]), pats[|pats| - 1])
  }

  /** The entry a set of continuations calls for, independent of the order they arrived in. */
  function EntryFor(sub: seq<Pattern>): Subpatterns
  {
    if [] in sub then Last else Subpatterns(sub)
  }

  /** What the partition is: its keys are exactly the first characters of the
      markers; a key maps to `Last` exactly when that character alone is a
      marker, and otherwise to the continuations in the order the markers came. */
  lemma {:induction false} PartitionSpec(pats: seq<Pattern>)
    requires NoEmpty(pats)
    ensures forall c :: c in PartitionOf(pats) <==> Suffixes(pats, c) != []
    ensures forall c :: c in PartitionOf(pats) ==> PartitionOf(pats)[c] == EntryFor(Suffixes(pats, c))
  {
    if pats != [] {
      var n := |pats| - 1;
      var init := pats[..n];
      PartitionSpec(init);
      var p := pats[n];
      forall c
        ensures c in PartitionOf(pats) <==> Suffixes(pats, c) != []
        ensures c in PartitionOf(pats) ==> PartitionOf(pats)[c] == EntryFor(Suffixes(pats, c))
      {
        assert Suffixes(pats, c) == Suffixes(init, c) + (if p[0] == c then [p[1..]] else []);
        if c == p[0] {
          var old_ := Suffixes(init, c);
          assert Suffixes(pats, c) == old_ + [p[1..]];
          assert [] in old_ + [p[1..]] <==> [] in old_ || p[1..] == [];
        }
      }
    }
  }

  /** The partition loop of `not_starting_with`: fills the map marker by marker
      and panics (here: `None`) on an empty marker. */
  method Partition(pats: seq<Pattern>) returns (r: Option<map<char, Subpatterns>>)
    ensures r.None? <==> !NoEmpty(pats)
    ensures r.Some? ==> r.value == PartitionOf(pats)
  {
    var firstChars: map<char, Subpatterns> := map[];
    for i := 0 to |pats|
      invariant NoEmpty(pats[..i])
      invariant firstChars == PartitionOf(pats[..i])
    {
      var pat := pats[i];
      if pat == [] {
        return None;
      }
      var first := pat[0];
      var subpattern := pat[1..];
      if first in firstChars {
        firstChars := firstChars[first := Push(firstChars[first], subpattern)];
      } else {
        firstChars := firstChars[first := New(subpattern)];
      }
      assert pats[..i + 1][..i] == pats[..i];
    }
    assert pats[..|pats|] == pats;
    return Some(firstChars);
  }

  /** `filter(is_not_empty)` on the continuations handed to the recursive call. */
  function Filter(l: seq<Pattern>): (r: seq<Pattern>)
    ensures NoEmpty(r)
  {
    if l == [] then []
    else
      var last := l[|l| - 1];
      Filter(l[..|l| - 1]) + (if last != [] then [last] else [])
  }

  /** A continuation list of the partition never holds the empty string, so the
      filter removes nothing. */
  lemma {:induction false} FilterKeeps(l: seq<Pattern>)
    requires [] !in l
    ensures Filter(l) == l
  {
    if l != [] {
      var n := |l| - 1;
      assert l[..n] + [l[n]] == l;
      FilterKeeps(l[..n]);
    }
  }

  /** Every `Subpatterns` list of the partition is non-empty and holds no empty
      string, so recursing on it never receives an empty marker set. */
  lemma ListsNonEmpty(pats: seq<Pattern>, c: char)
    requires NoEmpty(pats)
    requires c in PartitionOf(pats) && PartitionOf(pats)[c].Subpatterns?
    ensures PartitionOf(pats)[c].list != []
    ensures [] !in PartitionOf(pats)[c].list
    ensures Filter(PartitionOf(pats)[c].list) == PartitionOf(pats)[c].list
  {
    PartitionSpec(pats);
    FilterKeeps(PartitionOf(pats)[c].list);
  }

  /** The first characters of the markers, each once, in order of first appearance:
      one enumeration of the partition's keys (the source iterates a hash map, in
      an order that is left open here; see `Denotes`). */
  function FirstChars(pats: seq<Pattern>): (r: seq<char>)
    requires NoEmpty(pats)
  {
    if pats == [] then []
    else
      var f := FirstChars(pats[..|pats| - 1]);
      var c := pats[|pats| - 1][0];
      if c in f then f else f + [c]
  }

  lemma {:induction false} FirstCharsSpec(pats: seq<Pattern>)
    requires NoEmpty(pats)
    ensures forall c :: c in FirstChars(pats) <==> c in PartitionOf(pats)
    ensures forall i, j :: 0 <= i < j < |FirstChars(pats)| ==> FirstChars(pats)[i] != FirstChars(pats)[j]
  {
    if pats != [] {
      FirstCharsSpec(pats[..|pats| - 1]);
    }
  }

  // ---------------------------------------------------------------------------
  // The parser a marker set is compiled to
  // ---------------------------------------------------------------------------

  /** The combinator tree built at construction time. `Trivial` is `empty()` (no
      markers). `Node(keys, arms)` is `none_of(keys)` followed, as later
      alternatives of `choice`, by one arm per first character mapped to
      `Subpatterns`; characters mapped to `Last` get no arm. */
  datatype Tree = Trivial | Node(keys: set<char>, arms: seq<Arm>)

  /** `one_of(ch).then(choice((sub, end())))`, with `ch` put back in front. */
  datatype Arm = Arm(ch: char, sub: Tree)

  /** Runs the parser a tree denotes. Every success splits the input into the
      characters read and the rest; a `Node` always reads at least one. */
  function Run(t: Tree, s: seq<char>): (r: Reply<seq<char>>)
    ensures r.Some? ==> s == r.value.0 + r.value.1
    ensures r.Some? && t.Node? ==> |r.value.0| >= 1
    decreases t, 2, 0
  {
    match t
    case Trivial => MapReply(Empty(s), (_: ()) => [])
    case Node(_, arms) => Chain(t, |arms|, s)
  }

  /** The `choice` chain after the first `n` arms have been layered onto `none_of(keys)`. */
  function Chain(t: Tree, n: nat, s: seq<char>): (r: Reply<seq<char>>)
    requires t.Node? && n <= |t.arms|
    ensures r.Some? ==> s == r.value.0 + r.value.1 && |r.value.0| >= 1
    decreases t, 1, n
  {
    if n == 0 then MapReply(NoneOf(t.keys, s), (ch: char) => [ch])
    else Or(Chain(t, n - 1, s), RunArm(t.arms[n - 1], s))
  }

  /** One arm: its character, then the matcher for the continuations or the end
      of the input, and the character inserted at the front (`vec.insert(0, ch)`). */
  function RunArm(a: Arm, s: seq<char>): (r: Reply<seq<char>>)
    ensures r.Some? ==> s == r.value.0 + r.value.1 && |r.value.0| >= 1 && r.value.0[0] == a.ch
    decreases a, 3, 0
  {
    match OneOf(a.ch, s)
    case None => None
    case Some((ch, rest)) =>
      match Or(Run(a.sub, rest), MapReply(End(rest), (_: ()) => []))
      case None => None
      case Some((v, rest')) => Some(([ch] + v, rest'))
  }

  /** The tree `not_starting_with(pats)` builds, arms in first-appearance order. */
  function Build(pats: seq<Pattern>): Tree
    requires NoEmpty(pats)
    decreases TotalLen(pats), 1, 0
  {
    if pats == [] then Trivial
    else
      var m := PartitionOf(pats);
      FirstCharsSpec(pats);
      Node(m.Keys, BuildArms(pats, m, FirstChars(pats)))
  }

  /** The arms for the keys listed in `order`, skipping `Last` entries. */
  function BuildArms(pats: seq<Pattern>, m: map<char, Subpatterns>, order: seq<char>): seq<Arm>
    requires NoEmpty(pats) && m == PartitionOf(pats)
    requires forall i :: 0 <= i < |order| ==> order[i] in m
    decreases TotalLen(pats), 0, |order|
  {
    if order == [] then []
    else
      var c := order[|order| - 1];
      var arms := BuildArms(pats, m, order[..|order| - 1]);
      match m[c]
      case Last => arms
      case Subpatterns(l) =>
        PartitionSpec(pats);
        FilterKeeps(l);
        SuffixesShorter(pats, c);
        arms + [Arm(c, Build(Filter(l)))]
  }

  function ArmChars(arms: seq<Arm>): set<char>
  {
    set i | 0 <= i < |arms| :: arms[i].ch
  }

  predicate DistinctArms(arms: seq<Arm>)
  {
    forall i, j :: 0 <= i < j < |arms| ==> arms[i].ch != arms[j].ch
  }

  /** `t` is a parser `not_starting_with(pats)` may build: at every level the keys
      are the partition's keys, there is exactly one arm per key mapped to
      `Subpatterns` and none for `Last`, and each arm's subtree denotes the
      filtered continuations. The order of the arms is left open at every level,
      as a hash map's iteration order is. */
  ghost predicate Denotes(t: Tree, pats: seq<Pattern>)
    requires NoEmpty(pats)
    decreases t
  {
    if pats == [] then t == Trivial
    else
      var m := PartitionOf(pats);
      t.Node? && t.keys == m.Keys && DistinctArms(t.arms) &&
      ArmChars(t.arms) == (set c | c in m && m[c].Subpatterns?) &&
      forall i :: 0 <= i < |t.arms| ==> ArmDenotes(t.arms[i], m)
  }

  /** An arm stands for a key mapped to `Subpatterns` and runs the matcher for its
      filtered continuations. */
  ghost predicate ArmDenotes(a: Arm, m: map<char, Subpatterns>)
    decreases a
  {
    a.ch in m && m[a.ch].Subpatterns? && Denotes(a.sub, Filter(m[a.ch].list))
  }

  lemma {:induction false} BuildDenotes(pats: seq<Pattern>)
    requires NoEmpty(pats)
    ensures Denotes(Build(pats), pats)
    decreases TotalLen(pats), 1, 0
  {
    if pats != [] {
      var m := PartitionOf(pats);
      FirstCharsSpec(pats);
      var order := FirstChars(pats);
      BuildArmsChars(pats, m, order);
      BuildArmsDenote(pats, m, order);
      assert (set c | c in order && c in m && m[c].Subpatterns?) == (set c | c in m && m[c].Subpatterns?);
    }
  }

  /** One step of `BuildArms`: the last key listed adds an arm exactly when it
      is mapped to `Subpatterns`. */
  lemma BuildArmsStep(pats: seq<Pattern>, m: map<char, Subpatterns>, order: seq<char>)
    requires NoEmpty(pats) && m == PartitionOf(pats)
    requires forall i :: 0 <= i < |order| ==> order[i] in m
    requires order != []
    ensures var c := order[|order| - 1];
      var arms0 := BuildArms(pats, m, order[..|order| - 1]);
      if m[c].Last? then BuildArms(pats, m, order) == arms0
      else
        NoEmpty(Filter(m[c].list)) &&
        BuildArms(pats, m, order) == arms0 + [Arm(c, Build(Filter(m[c].list)))]
  {
  }

  lemma {:induction false} BuildArmsChars(pats: seq<Pattern>, m: map<char, Subpatterns>, order: seq<char>)
    requires NoEmpty(pats) && m == PartitionOf(pats)
    requires forall i :: 0 <= i < |order| ==> order[i] in m
    requires forall i, j :: 0 <= i < j < |order| ==> order[i] != order[j]
    ensures ArmChars(BuildArms(pats, m, order)) == (set c | c in order && c in m && m[c].Subpatterns?)
    ensures DistinctArms(BuildArms(pats, m, order))
    ensures forall i :: 0 <= i < |BuildArms(pats, m, order)| ==> BuildArms(pats, m, order)[i].ch in order
  {
    if order != [] {
      var n := |order| - 1;
      var c := order[n];
      var init := order[..n];
      BuildArmsChars(pats, m, init);
      BuildArmsStep(pats, m, order);
      var arms0 := BuildArms(pats, m, init);
      var arms := BuildArms(pats, m, order);
      assert c !in init;
      assert forall i :: 0 <= i < |arms0| ==> arms0[i].ch in init;
      assert (set x | x in order && x in m && m[x].Subpatterns?) ==
        (set x | x in init && x in m && m[x].Subpatterns?) + (if m[c].Subpatterns? then {c} else {});
      if m[c].Subpatterns? {
        assert forall i :: 0 <= i < |arms0| ==> arms[i] == arms0[i];
        assert arms[|arms0|].ch == c;
        assert ArmChars(arms) == ArmChars(arms0) + {c};
      }
    }
  }

  lemma {:induction false} BuildArmsDenote(pats: seq<Pattern>, m: map<char, Subpatterns>, order: seq<char>)
    requires NoEmpty(pats) && m == PartitionOf(pats)
    requires forall i :: 0 <= i < |order| ==> order[i] in m
    ensures forall i :: 0 <= i < |BuildArms(pats, m, order)| ==> ArmDenotes(BuildArms(pats, m, order)[i], m)
    decreases TotalLen(pats), 0, |order|
  {
    if order != [] {
      var n := |order| - 1;
      var c := order[n];
      var init := order[..n];
      BuildArmsDenote(pats, m, init);
      BuildArmsStep(pats, m, order);
      var arms0 := BuildArms(pats, m, init);
      var arms := BuildArms(pats, m, order);
      if m[c].Subpatterns? {
        var l := m[c].list;
        PartitionSpec(pats);
        FilterKeeps(l);
        SuffixesShorter(pats, c);
        BuildDenotes(Filter(l));
        assert ArmDenotes(arms[|arms0|], m);
        forall i | 0 <= i < |arms|
          ensures ArmDenotes(arms[i], m)
        {
          if i < |arms0| {
            assert arms[i] == arms0[i];
          }
        }
      }
    }
  }

  // ---------------------------------------------------------------------------
  // The reference: shortest divergence, stated on the markers directly
  // ---------------------------------------------------------------------------

  /** The divergence matcher described on the marker list, without a partition:
      the first character either begins no marker (read it and stop), completes
      a marker (fail), or continues some (recurse on the continuations; at the
      end of the input, stop with what was read). */
  function Diverge(pats: seq<Pattern>, s: seq<char>): (r: Reply<seq<char>>)
    requires NoEmpty(pats)
    ensures r.Some? ==> s == r.value.0 + r.value.1
    ensures r.Some? && pats != [] ==> |r.value.0| >= 1
    decreases |s|
  {
    if pats == [] then Some(([], s))
    else if s == [] then None
    else
      var sub := Suffixes(pats, s[0]);
      if sub == [] then Some(([s[0]], s[1..]))
      else if [] in sub then None
      else
        match Diverge(sub, s[1..])
        case Some((w, rest)) => Some(([s[0]] + w, rest))
        case None => if s[1..] == [] then Some(([s[0]], [])) else None
  }

  /** The matcher fails exactly on empty input and on input that begins with a marker. */
  lemma {:induction false} DivergeFails(pats: seq<Pattern>, s: seq<char>)
    requires NoEmpty(pats) && pats != []
    ensures Diverge(pats, s).None? <==> s == [] || StartsWithSome(s, pats)
    decreases |s|
  {
    if s != [] {
      var c, t := s[0], s[1..];
      assert s == [c] + t;
      var sub := Suffixes(pats, c);
      StartsWithStep(pats, c, t);
      if sub == [] {
        NoSuffixes(pats, c, t);
      } else if [] in sub {
        var j :| 0 <= j < |sub| && sub[j] == [];
        assert sub[j] <= t;
      } else {
        DivergeFails(sub, t);
        if t == [] {
          assert !StartsWithSome(t, sub);
        }
      }
    }
  }

  /** Shortest divergence: on success, the text read minus its last character is
      still a prefix of some marker, and the whole text read is a prefix of no
      marker unless the input ran out. */
  lemma {:induction false} DivergeShortest(pats: seq<Pattern>, s: seq<char>)
    requires NoEmpty(pats) && pats != []
    requires Diverge(pats, s).Some?
    ensures var (w, rest) := Diverge(pats, s).value;
      PrefixOfSome(w[..|w| - 1], pats) && (!PrefixOfSome(w, pats) || rest == [])
    decreases |s|
  {
    var c, t := s[0], s[1..];
    assert s == [c] + t;
    var sub := Suffixes(pats, c);
    var (w, rest) := Diverge(pats, s).value;
    assert [] <= pats[0];
    if sub == [] {
      NoSuffixes(pats, c, []);
      assert w == [c] + [];
    } else {
      match Diverge(sub, t)
      case Some((w', r')) =>
        DivergeShortest(sub, t);
        PrefixOfStep(pats, c, w');
        PrefixOfStep(pats, c, w'[..|w'| - 1]);
        assert w == [c] + w';
        assert w[..|w| - 1] == [c] + w'[..|w'| - 1];
      case None =>
        assert w[..|w| - 1] == [];
    }
  }

  // ---------------------------------------------------------------------------
  // The built parser agrees with the reference, whatever the arm order
  // ---------------------------------------------------------------------------

  /** The alternatives of one level accept disjoint first characters, so the
      chain picks the one arm for the next character (or `none_of`), whatever
      order the arms were layered in. */
  lemma {:induction false} ChainPicks(t: Tree, n: nat, s: seq<char>)
    requires t.Node? && n <= |t.arms|
    requires DistinctArms(t.arms) && ArmChars(t.arms) <= t.keys
    ensures s == [] ==> Chain(t, n, s).None?
    ensures s != [] && s[0] !in t.keys ==> Chain(t, n, s) == Some(([s[0]], s[1..]))
    ensures forall i :: 0 <= i < n && s != [] && t.arms[i].ch == s[0] ==> Chain(t, n, s) == RunArm(t.arms[i], s)
    ensures s != [] && s[0] in t.keys && (forall i :: 0 <= i < n ==> t.arms[i].ch != s[0]) ==> Chain(t, n, s).None?
  {
    if n > 0 {
      ChainPicks(t, n - 1, s);
      if s != [] && s[0] !in t.keys {
        assert t.arms[n - 1].ch in ArmChars(t.arms);
      }
    }
  }

  /** An arm whose subtree runs as the reference for the continuations `sub`
      runs as the reference's recursive case. */
  lemma ArmAgrees(pats: seq<Pattern>, a: Arm, s: seq<char>)
    requires NoEmpty(pats) && pats != [] && s != [] && s[0] == a.ch
    requires Suffixes(pats, a.ch) != [] && [] !in Suffixes(pats, a.ch)
    requires Run(a.sub, s[1..]) == Diverge(Suffixes(pats, a.ch), s[1..])
    ensures RunArm(a, s) == Diverge(pats, s)
  {
  }

  /** Every parser `not_starting_with(pats)` may build behaves as the reference,
      so its behaviour does not depend on the hash map's iteration order. */
  lemma {:induction false} RunDenotes(t: Tree, pats: seq<Pattern>, s: seq<char>)
    requires NoEmpty(pats) && Denotes(t, pats)
    ensures Run(t, s) == Diverge(pats, s)
    decreases t
  {
    if pats != [] {
      var m := PartitionOf(pats);
      assert t.Node? && t.keys == m.Keys && DistinctArms(t.arms);
      assert ArmChars(t.arms) == (set c | c in m && m[c].Subpatterns?);
      PartitionSpec(pats);
      ChainPicks(t, |t.arms|, s);
      assert Run(t, s) == Chain(t, |t.arms|, s);
      if s != [] {
        var c := s[0];
        var sub := Suffixes(pats, c);
        if c !in m {
          assert Run(t, s) == Some(([c], s[1..]));
        } else if m[c].Last? {
          assert c !in ArmChars(t.arms);
          assert Run(t, s).None?;
        } else {
          assert c in ArmChars(t.arms);
          var i :| 0 <= i < |t.arms| && t.arms[i].ch == c;
          assert ArmDenotes(t.arms[i], m);
          FilterKeeps(sub);
          RunDenotes(t.arms[i].sub, sub, s[1..]);
          ArmAgrees(pats, t.arms[i], s);
        }
      }
    }
  }

  /** `not_starting_with(pats)`: panics (here `None`) on an empty marker;
      otherwise builds a parser that behaves as the reference. With no markers
      at all it succeeds on every input, consuming nothing. */
  function NotStartingWith(pats: seq<Pattern>): (r: Option<Tree>)
    ensures r.None? <==> !NoEmpty(pats)
    ensures r.Some? ==> Denotes(r.value, pats)
    ensures r.Some? && pats == [] ==> forall s :: Run(r.value, s) == Some(([], s))
  {
    if NoEmpty(pats) then
      BuildDenotes(pats);
      Some(Build(pats))
    else None
  }

  /** The behaviour of `not_starting_with` for a non-empty marker set: it fails
      exactly on empty input or input that begins with a marker; otherwise it
      reads a non-empty prefix that diverges from every marker at its last
      character, or the whole input when that never happens. */
  lemma NotStartingWithSpec(pats: seq<Pattern>, s: seq<char>)
    requires NoEmpty(pats) && pats != []
    ensures var r := Run(Build(pats), s);
      (r.None? <==> s == [] || StartsWithSome(s, pats)) &&
      (r.Some? ==>
        var (w, rest) := r.value;
        s == w + rest && |w| >= 1 &&
        PrefixOfSome(w[..|w| - 1], pats) && (!PrefixOfSome(w, pats) || rest == []))
  {
    BuildDenotes(pats);
    RunDenotes(Build(pats), pats, s);
    DivergeFails(pats, s);
    if Diverge(pats, s).Some? {
      DivergeShortest(pats, s);
    }
  }
}
