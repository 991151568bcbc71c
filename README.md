# chumsky-branch, modelled in Dafny

This project models the three parser combinators of the `chumsky-branch`
crate:

- `not_starting_with(patterns)` reads the shortest prefix of the input that
  is no longer a prefix of any of the patterns (the "markers").
- `not_containing(patterns)` repeats that matcher at least once and joins
  the chunks it reads.
- `branch(begin, parser).or_branch(...).or_else(transform)` tries, at a
  position where a marker literal matches, the sub-parser of that marker.
  When no marker matches, it falls back to a `not_containing` run over all
  the markers, mapped through the transform.

A parse either fails (`None`) or yields a value and the remaining input.

The modules follow the source files:

- `Combinators` holds the few chumsky primitives the crate uses: `empty`,
  `end`, `none_of`, `one_of`, `just`, `choice`, `ignore_then`, `then_ignore`
  and `map`. They are pure functions on the remaining input.
- `Patterns` holds the prefix and substring relations, and the continuations
  of a marker set after one character (`Suffixes`).
- `Divergence` (`src/not_starting_with.rs`) contains:
  - the construction-time partition of the markers by first character, as a
    loop over a map (`Partition`) proved equal to a fold (`PartitionOf`),
    whose meaning `PartitionSpec` states;
  - the combinator tree the partition is compiled to (`Tree`, `Run`);
  - the reference matcher `Diverge`.

  The source iterates a `HashMap` to layer its `choice` alternatives, so the
  order of the arms is unspecified. `Denotes` admits every arm order at every
  level. `RunDenotes` proves that every tree it admits behaves as the
  reference, so the hash order cannot change the result.
- `Exclusion` (`src/not_containing.rs`) models `repeated().at_least(1)` and
  `flatten`.
- `Dispatcher` (`src/branch.rs`) models the builder as a class whose entry
  list `or_branch` appends to. `or_else` is a method that builds the parser
  as a closure, layering one entry per loop iteration. Its contract ties the
  closure to `Dispatch`, and the lemmas state what `Dispatch` does.
- `DivergenceTests`, `ExclusionTests` and `DispatcherTests` restate the
  crate's unit tests as lemmas about the model.

Three points where the code and its description differ. The model follows the
code in all three:

- `or_else` layers each entry as the second alternative behind everything
  built so far. The fallback is therefore tried first, then the entries from
  first-declared to last-declared (`Dispatcher.TrialOrder`). The
  alternatives accept disjoint inputs when no marker is a prefix of another,
  so only then is the order unobservable.
- The doc comment of `not_containing` promises a string that contains none of
  the patterns as a substring. No marker begins at the start of any chunk
  (`Exclusion.ChunkStarts`). A marker can still straddle two chunks: with the
  marker `ab`, the input `aab` is read whole, as the chunks `aa` and `b`
  (`Exclusion.DocClaimFails`). For the two-character markers `{%` and `{{`
  of the crate's tests, the promise does hold: whatever the run reads, up to
  the end of the input or to the next marker, contains no marker
  (`ExclusionTests.RunOutputHasNoMarker`).
- The crate documentation says a branch, once its first parser matches, is
  chosen "and that branch only, even if the second parser fails". The code
  layers the entries with `choice`, which moves on to the next alternative
  when one fails. So commitment holds only when no other registered marker
  matches at that position (`Dispatcher.DispatchCommits`). When entry `i`'s
  literal matches and its sub-parser fails, the remaining entries are still
  tried (`Dispatcher.FallThrough`). With `{` declared before `{{`, the input
  `{{foo}}` fails in the `{` branch and is then parsed by the `{{` branch
  (`DispatcherTests.FallThroughExample`).

## Model

| member | source | states |
|---|---|---|
| Divergence.Partition | src/not_starting_with.rs:47-57 | The loop over the markers fails, standing for the panic, exactly when some marker is empty. Otherwise it leaves the map `PartitionOf` describes. |
| Divergence.PartitionSpec | src/not_starting_with.rs:9-23 | The partition's keys are exactly the first characters of the markers. A key maps to `Last` exactly when that character alone is a marker. Otherwise it maps to the continuations, in the order the markers came. |
| Divergence.FilterKeeps | src/not_starting_with.rs:28-30 | `filter(is_not_empty)` leaves a list with no empty string unchanged. |
| Divergence.ListsNonEmpty | src/not_starting_with.rs:64-69 | Every `Subpatterns` list handed to the recursive call is non-empty and has no empty string. So the recursion never meets an empty marker, and the filter removes nothing. |
| Divergence.FirstCharsSpec | src/not_starting_with.rs:59-63 | `FirstChars` lists the partition's keys, each once, in the order the arms are layered. |
| Divergence.Run | src/not_starting_with.rs:59-78 | On success the compiled parser splits the input into what it read and the rest. Over a non-empty marker set it reads at least one character. |
| Divergence.ChainPicks | src/not_starting_with.rs:59-78 | The alternatives of one level accept disjoint first characters, so the chain picks the one arm for the next character whatever order they were layered in. On a character outside the keys, `none_of` reads that character alone. |
| Divergence.BuildDenotes | src/not_starting_with.rs:45-78 | The tree built from a marker set is one of the trees the partition admits, in the arm order of first appearance. |
| Divergence.DivergeFails | src/not_starting_with.rs:32-82 | The matcher fails exactly on empty input and on input that begins with a marker. |
| Divergence.DivergeShortest | src/not_starting_with.rs:32 | What is read, minus its last character, is a prefix of some marker. With the last character it is a prefix of none, unless the input ended first. |
| Divergence.RunDenotes | src/not_starting_with.rs:59-80 | Every tree the partition admits, in any arm order, behaves as the reference matcher. |
| Divergence.NotStartingWith | src/not_starting_with.rs:33-81 | Construction fails, standing for the panic, exactly when some marker is empty. With no markers the parser reads nothing and succeeds. |
| Divergence.NotStartingWithSpec | src/not_starting_with.rs:32-81 | Over a non-empty marker set the parser fails exactly on empty input or at a marker. Otherwise it splits the input into a non-empty shortest prefix that diverges from every marker, and the rest. |
| DivergenceTests.StartingWithOther | src/not_starting_with.rs:92-96 | On `foo{%` the matcher reads `f`. |
| DivergenceTests.StartingWithFirstChar | src/not_starting_with.rs:98-102 | On `{foo` the matcher reads `{f`. |
| DivergenceTests.StartingWithFirstPattern | src/not_starting_with.rs:104-108 | On `{%foo` the matcher fails. |
| DivergenceTests.NoPatterns | src/not_starting_with.rs:41-43 | An empty marker set gives `empty()`, which reads nothing. |
| Patterns.SuffixesMember | src/not_starting_with.rs:48-56 | A continuation of `c` is exactly the tail of a marker that begins with `c`. |
| Patterns.StartsWithStep | src/not_starting_with.rs:63-76 | `c` followed by `t` begins with a marker exactly when `t` begins with a continuation of `c`. |
| Patterns.OccursIff | src/not_containing.rs:4 | `Occurs` decides the substring relation the doc comment speaks of. |
| Exclusion.Repeat | src/not_containing.rs:14-15 | The repetition drops and reorders nothing. Every chunk is non-empty, and it stops only where the matcher fails. |
| Exclusion.RepeatChunks | src/not_containing.rs:14-15 | Each chunk is exactly what the matcher reads at the position where that chunk starts. |
| Exclusion.NotContaining | src/not_containing.rs:6-18 | Construction fails exactly when some marker is empty. Otherwise it gives a matcher that behaves as the reference. |
| Exclusion.ExcludeFails | src/not_containing.rs:14-17 | `at_least(1)` makes the run fail exactly on empty input and at a marker. |
| Exclusion.ExcludeStops | src/not_containing.rs:14-17 | On success the run is a non-empty prefix of the input. What is left is empty or begins with a marker. |
| Exclusion.ChunkStarts | src/not_containing.rs:14-15 | No marker begins at the start of any chunk. |
| Exclusion.ExcludeWhole | src/not_containing.rs:4 | A non-empty input that contains no marker is read whole. |
| Exclusion.RepeatOther | src/not_containing.rs:14-15 | A character that begins no marker is a chunk of its own. |
| Exclusion.RepeatAtMarker | src/not_containing.rs:14-15 | At a marker the repetition reads nothing. |
| Exclusion.DocClaimRuns | src/not_containing.rs:14-17 | With the marker `ab`, the matcher reads `aa` from `aab`, then `b`, then nothing more. |
| Exclusion.DocClaimFails | src/not_containing.rs:4 | `aab` contains the marker `ab`, yet the run reads all of it. |
| ExclusionTests.CleanRunHasNoMarker | src/not_containing.rs:24-26 | For `{%` and `{{`: when the run reaches the end of the input, no marker occurs in the input. |
| ExclusionTests.RunOutputHasNoMarker | src/not_containing.rs:4 | For `{%` and `{{`: the text the run reads, and so the value the parser returns, contains no marker, wherever the run stops. |
| ExclusionTests.LexerRejectsMarkers | src/not_containing.rs:70-104 | Followed by `end()`, the run rejects every input that contains `{%` or `{{`. |
| ExclusionTests.LexerAcceptsClean | src/not_containing.rs:28-68 | Followed by `end()`, the run accepts every non-empty input without a marker and returns it whole. |
| ExclusionTests.NotContainingOtherChars | src/not_containing.rs:28-32 | `foo` is accepted whole. |
| ExclusionTests.NotContainingFirstChar | src/not_containing.rs:34-38 | `foo{bar` is accepted whole. |
| ExclusionTests.NotContainingFirstCharFirst | src/not_containing.rs:40-44 | `{bar` is accepted whole. |
| ExclusionTests.NotContainingFirstCharLast | src/not_containing.rs:46-50 | `foo{` is accepted whole. |
| ExclusionTests.NotContainingSecondChar | src/not_containing.rs:52-56 | `foo%bar` is accepted whole. |
| ExclusionTests.NotContainingSecondCharFirst | src/not_containing.rs:58-62 | `%bar` is accepted whole. |
| ExclusionTests.NotContainingSecondCharLast | src/not_containing.rs:64-68 | `foo%` is accepted whole. |
| ExclusionTests.RejectedExamples | src/not_containing.rs:70-104 | The six inputs with a marker are rejected. |
| Dispatcher.Markers | src/branch.rs:40-45 | The markers handed to `not_containing` are the entries' markers, in declaration order. |
| Dispatcher.TrialOrder | src/branch.rs:39-53 | The layered parser tries the fallback first, then the entries from first-declared to last-declared. The first to succeed wins. |
| Dispatcher.DispatchTrialOrder | src/branch.rs:34-54 | The parser `or_else` returns has that trial order. |
| Dispatcher.DispatchVerbatim | src/branch.rs:39-47 | A non-empty input that contains no marker becomes one transformed token and is read whole. |
| Dispatcher.DispatchAtMarker | src/branch.rs:49-51 | At a marker the fallback fails, and the entries decide. |
| Dispatcher.DispatchCommits | src/branch.rs:49-51 | When exactly one marker matches, the result is its sub-parser's on the input after the marker. When that sub-parser fails the whole parse fails, retrying nothing. |
| Dispatcher.FallThrough | src/branch.rs:49-51 | When an entry's literal matches and its sub-parser fails, the result is that of the other entries tried in declaration order. A later entry whose marker also matches is still tried. |
| Dispatcher.DispatchStopsBeforeMarker | src/branch.rs:39-53 | Input that does not begin with a marker goes to the fallback. It reads a non-empty prefix and stops at the end or just before the next marker, with the choice not re-entered. |
| Dispatcher.Branch.constructor | src/branch.rs:11-18 | `branch` makes a builder with exactly the one entry given. |
| Dispatcher.Branch.OrBranch | src/branch.rs:25-31 | `or_branch` appends one entry and keeps the earlier ones. |
| Dispatcher.Branch.OrElse | src/branch.rs:34-54 | Fails, standing for the panic, exactly when some marker is empty. Otherwise it returns a parser equal on every input to `Dispatch` over the entries in declaration order. |
| DispatcherTests.ParseFoo | src/branch.rs:86-90 | `{{foo}}` gives `Foo`. |
| DispatcherTests.ParseBar | src/branch.rs:92-96 | `{%bar%}` gives `Bar`. |
| DispatcherTests.ParseComment | src/branch.rs:98-102 | `/*TODO*/` gives `Comment`. |
| DispatcherTests.ParseVerbatim | src/branch.rs:104-111 | Text without a marker gives one `Verbatim` token holding all of it. |
| DispatcherTests.ParseFooUnclosed | src/branch.rs:113-117 | `{{foo}` is rejected: the branch committed and then failed. |
| DispatcherTests.ParseBarUnclosed | src/branch.rs:119-123 | `{%foo%` is rejected. |
| DispatcherTests.ParseCommentUnclosed | src/branch.rs:125-129 | `/*TODO//` is rejected. |
| DispatcherTests.FallThroughExample | src/lib.rs:12-16 | With `{` declared before `{{`, `{{foo}}` fails in the `{` branch and is then parsed by the `{{` branch, contrary to the documented "that branch only". |
| DispatcherTests.ParseInvalid | src/branch.rs:131-135 | On `foo{{bar` the fallback reads `foo` and leaves `{{bar`, so `end()` rejects the input. |

## Left out

- Error values, spans, expected-token sets and error recovery of chumsky: a failure is `None`.
- `parse` without `end()` in the tests of `src/not_starting_with.rs` is modelled as a run on the whole input whose remaining input is ignored.
- Boxing, lifetimes and trait objects: parsers are functions from the remaining input to a reply.
- The by-value `self` of `or_branch` and `or_else` is modelled as an update in place on one builder object.
- `&pat[1..]` slices by bytes and panics when the first character is wider than one byte. The model drops the first character, which agrees for single-byte first characters only.
- `HashMap` iteration order is not fixed: `Build` picks the arms in order of first appearance, and `Denotes` together with `RunDenotes` covers every other order.
- Exclusion.NotContaining: requires a non-empty marker set. With no markers the inner parser succeeds without reading anything. What `repeated()` does with such a parser depends on chumsky's internals, which are not modelled.
- Dispatcher.Dispatch: requires at least one entry, which the builder always has, since `branch` creates it with one.
- The transform passed to `or_else` and the sub-parsers are arbitrary functions; nothing about them is assumed.
- The crate's prelude and re-exports in `src/lib.rs` only name the three combinators and are not modelled.
