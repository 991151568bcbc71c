/** Marker strings and the prefix / substring relations the exclusion engine is
    specified by. Strings are sequences of characters; the source slices
    `&pat[1..]` by bytes, which agrees with dropping the first character only
    for single-byte first characters, and that is what is assumed here. */
module Patterns {

  type Pattern = seq<char>

  /** No marker is the empty string (construction panics otherwise). */
  predicate NoEmpty(pats: seq<Pattern>)
  {
    forall i :: 0 <= i < |pats| ==> pats[i] != []
  }

  /** Some marker is a prefix of `s`: a marker begins right here. */
  predicate StartsWithSome(s: seq<char>, pats: seq<Pattern>)
  {
    exists i :: 0 <= i < |pats| && pats[i] <= s
  }

  /** `w` is a prefix of some marker: the text read so far could still grow into one. */
  predicate PrefixOfSome(w: seq<char>, pats: seq<Pattern>)
  {
    exists i :: 0 <= i < |pats| && w <= pats[i]
  }

  /** Some marker occurs in `s` as a substring. */
  predicate ContainsSome(s: seq<char>, pats: seq<Pattern>)
  {
    exists k :: 0 <= k <= |s| && StartsWithSome(s[k..], pats)
  }

  /** The continuations of the markers that begin with `c`, first character
      stripped, in the order the markers were given. */
  function Suffixes(pats: seq<Pattern>, c: char): (r: seq<Pattern>)
    requires NoEmpty(pats)
    ensures |r| <= |pats|
  {
    if pats == [] then []
    else
      var last := pats[|pats| - 1];
      Suffixes(pats[..|pats| - 1], c) + (if last[0] == c then [last[1..]] else [])
  }

  /** Sum of the marker lengths; it bounds the depth of the divergence matcher. */
  function TotalLen(pats: seq<Pattern>): nat
  {
    if pats == [] then 0 else TotalLen(pats[..|pats| - 1]) + |pats[|pats| - 1]|
  }

  /** A continuation of `c` is exactly the tail of a marker that begins with `c`. */
  lemma {:induction false} SuffixesMember(pats: seq<Pattern>, c: char, q: Pattern)
    requires NoEmpty(pats)
    ensures q in Suffixes(pats, c) <==> exists i :: 0 <= i < |pats| && pats[i][0] == c && pats[i][1..] == q
  {
    if pats != [] {
      var n := |pats| - 1;
      var init := pats[..n];
      SuffixesMember(init, c, q);
      if q in Suffixes(pats, c) && q !in Suffixes(init, c) {
        assert pats[n][0] == c && pats[n][1..] == q;
      }
      if exists i :: 0 <= i < |pats| && pats[i][0] == c && pats[i][1..] == q {
        var i :| 0 <= i < |pats| && pats[i][0] == c && pats[i][1..] == q;
        if i < n {
          assert init[i] == pats[i];
        }
      }
    }
  }

  /** There are continuations of `c` exactly when some marker begins with `c`. */
  lemma SuffixesNonEmpty(pats: seq<Pattern>, c: char)
    requires NoEmpty(pats)
    ensures Suffixes(pats, c) != [] <==> exists i :: 0 <= i < |pats| && pats[i][0] == c
  {
    if Suffixes(pats, c) != [] {
      SuffixesMember(pats, c, Suffixes(pats, c)[0]);
    }
    if exists i :: 0 <= i < |pats| && pats[i][0] == c {
      var i :| 0 <= i < |pats| && pats[i][0] == c;
      SuffixesMember(pats, c, pats[i][1..]);
    }
  }

  /** Continuations are strictly shorter in total, so recursing on them terminates. */
  lemma {:induction false} SuffixesShorter(pats: seq<Pattern>, c: char)
    requires NoEmpty(pats)
    ensures TotalLen(Suffixes(pats, c)) <= TotalLen(pats)
    ensures Suffixes(pats, c) != [] ==> TotalLen(Suffixes(pats, c)) < TotalLen(pats)
  {
    if pats != [] {
      var n := |pats| - 1;
      var init := pats[..n];
      SuffixesShorter(init, c);
      var tail: seq<Pattern> := if pats[n][0] == c then [pats[n][1..]] else [];
      TotalLenAppend(Suffixes(init, c), tail);
      if tail != [] {
        assert TotalLen(tail) == |pats[n]| - 1 by {
          assert tail[..0] == [];
        }
      }
    }
  }

  lemma {:induction false} TotalLenAppend(a: seq<Pattern>, b: seq<Pattern>)
    ensures TotalLen(a + b) == TotalLen(a) + TotalLen(b)
  {
    if b != [] {
      var n := |b| - 1;
      assert (a + b)[..|a + b| - 1] == a + b[..n];
      TotalLenAppend(a, b[..n]);
    } else {
      assert a + b == a;
    }
  }

  /** The empty string is a continuation of `c` exactly when `c` alone is a marker. */
  lemma EmptySuffix(pats: seq<Pattern>, c: char)
    requires NoEmpty(pats)
    ensures [] in Suffixes(pats, c) <==> [c] in pats
  {
    SuffixesMember(pats, c, []);
    if [c] in pats {
      var i :| 0 <= i < |pats| && pats[i] == [c];
      assert pats[i][0] == c && pats[i][1..] == [];
    }
    if [] in Suffixes(pats, c) {
      var i :| 0 <= i < |pats| && pats[i][0] == c && pats[i][1..] == [];
      assert pats[i] == [c];
    }
  }

  /** Reading one more character `c`: `[c] + t` begins with a marker exactly when
      `t` begins with a continuation of `c`. */
  lemma StartsWithStep(pats: seq<Pattern>, c: char, t: seq<char>)
    requires NoEmpty(pats)
    ensures StartsWithSome([c] + t, pats) <==> StartsWithSome(t, Suffixes(pats, c))
  {
    var s := [c] + t;
    var sub := Suffixes(pats, c);
    if StartsWithSome(s, pats) {
      var i :| 0 <= i < |pats| && pats[i] <= s;
      assert pats[i][0] == c;
      SuffixesMember(pats, c, pats[i][1..]);
      var j :| 0 <= j < |sub| && sub[j] == pats[i][1..];
      assert sub[j] <= t;
    }
    if StartsWithSome(t, sub) {
      var j :| 0 <= j < |sub| && sub[j] <= t;
      SuffixesMember(pats, c, sub[j]);
      var i :| 0 <= i < |pats| && pats[i][0] == c && pats[i][1..] == sub[j];
      assert pats[i] == [c] + sub[j];
      assert pats[i] <= s;
    }
  }

  /** Likewise for prefixes of markers. */
  lemma PrefixOfStep(pats: seq<Pattern>, c: char, w: seq<char>)
    requires NoEmpty(pats)
    ensures PrefixOfSome([c] + w, pats) <==> PrefixOfSome(w, Suffixes(pats, c))
  {
    var sub := Suffixes(pats, c);
    if PrefixOfSome([c] + w, pats) {
      var i :| 0 <= i < |pats| && [c] + w <= pats[i];
      assert pats[i][0] == c;
      SuffixesMember(pats, c, pats[i][1..]);
      var j :| 0 <= j < |sub| && sub[j] == pats[i][1..];
      assert w <= sub[j];
    }
    if PrefixOfSome(w, sub) {
      var j :| 0 <= j < |sub| && w <= sub[j];
      SuffixesMember(pats, c, sub[j]);
      var i :| 0 <= i < |pats| && pats[i][0] == c && pats[i][1..] == sub[j];
      assert pats[i] == [c] + sub[j];
      assert [c] + w <= pats[i];
    }
  }

  /** No marker begins with `c`: then nothing beginning with `c` starts or prefixes a marker. */
  lemma NoSuffixes(pats: seq<Pattern>, c: char, t: seq<char>)
    requires NoEmpty(pats)
    requires Suffixes(pats, c) == []
    ensures !StartsWithSome([c] + t, pats)
    ensures !PrefixOfSome([c] + t, pats)
  {
    StartsWithStep(pats, c, t);
    PrefixOfStep(pats, c, t);
  }

  /** The continuations of a two-marker set, spelled out. */
  lemma SuffixesPair(a: Pattern, b: Pattern, c: char)
    requires a != [] && b != []
    ensures Suffixes([a, b], c) == (if a[0] == c then [a[1..]] else []) + (if b[0] == c then [b[1..]] else [])
  {
    assert [a, b][..1] == [a];
    assert [a, b][..1][..0] == [];
  }

  /** `a` is a prefix of `b`, computed character by character. */
  function IsPrefix(a: seq<char>, b: seq<char>): (r: bool)
    ensures r <==> a <= b
  {
    if a == [] then true
    else if b == [] || a[0] != b[0] then false
    else IsPrefix(a[1..], b[1..])
  }

  /** Some marker begins at the start of `s`, computed marker by marker. */
  function BeginsWithAny(s: seq<char>, pats: seq<Pattern>): (r: bool)
    ensures r <==> StartsWithSome(s, pats)
  {
    if pats == [] then false
    else IsPrefix(pats[0], s) || BeginsWithAny(s, pats[1..])
  }

  /** Some marker occurs in `s`, computed position by position: a decision
      procedure for `ContainsSome`. */
  function Occurs(s: seq<char>, pats: seq<Pattern>): bool
  {
    BeginsWithAny(s, pats) || (s != [] && Occurs(s[1..], pats))
  }

  lemma {:induction false} OccursIff(s: seq<char>, pats: seq<Pattern>)
    ensures Occurs(s, pats) <==> ContainsSome(s, pats)
  {
    assert s[0..] == s;
    if s != [] {
      OccursIff(s[1..], pats);
      if ContainsSome(s, pats) {
        var k :| 0 <= k <= |s| && StartsWithSome(s[k..], pats);
        if k > 0 {
          assert s[1..][k - 1..] == s[k..];
        } else {
          assert s[k..] == s;
        }
      }
      if ContainsSome(s[1..], pats) {
        var k :| 0 <= k <= |s[1..]| && StartsWithSome(s[1..][k..], pats);
        assert s[1..][k..] == s[k + 1..];
      }
    } else {
      if ContainsSome(s, pats) {
        var k :| 0 <= k <= |s| && StartsWithSome(s[k..], pats);
        assert s[k..] == s;
      }
    }
  }
}
