# rspec-core metadata filtering, modelled in Dafny

This project models the part of rspec-core that decides which registered items (hooks, included modules, shared contexts) apply to an example or example group, based on tag-like metadata. It has two layers.

- **`MetadataFilter`** (`metadata_filter.dfy`) is a pure evaluator. `Apply` is `apply?`: it combines the clauses of a filter hash with `any?` or `all?`. `FilterApplies` is `filter_applies?`. It dispatches on the metadata value and the filter value in the source's order:
  1. Array-valued metadata is matched element by element. Each element takes the filter value's place, and the filter value becomes the metadata `{key => value}`.
  2. `:locations` walks the ancestor chain, and so does `:ids`.
  3. A hash filter value means a nested `all?`.
  4. A regexp value means a pattern match, and a proc value is called by its arity.
  5. Anything else is compared by string form.

  Ruby hashes are ordered sequences of entries, and the runtime type tests are the constructors of `Value`. Termination of the role-swapping recursion is proved with the measure "size of the filter value plus size of the metadata value at the key".
- **`FilterableItemRepository`** (`filterable_item_repository.dfy`) is the catalog of `(item, filter)` pairs.
  - `UpdateOptimized` is a class over a sequence of pairs. Append and prepend reassign that sequence, and `ItemsFor` scans it in a loop.
  - `QueryOptimized` holds an `UpdateOptimized` as `base`; the Ruby class inherits from it and calls `super`. It adds the tracked keys (an insertion-ordered sequence, like Ruby's `Set`), the proc keys and the memo table.
  - Its invariant `Valid()` says four things:
    - the tracked keys are exactly the keys of the registered filters;
    - the proc keys are exactly their proc-valued keys;
    - no memo key touches a proc key;
    - every memo entry equals the scan of its key under the proc answers of the query that stored it. Where no proc can be reached, that is also the scan under any later query's answers (`ScanIgnoresCalls`). Where a nested proc can be reached, it need not be (`StaleMemoizedAnswer`).

Collaborators the core does not own are parameters:
- A `World` holds `Metadata.ascend`, `RSpec.world.preceding_declaration_line`, regexp matching and the `to_s` of composite values. A repository fixes its `World` when it is made.
- `Calls` is what user procs return. It is passed to each query, so the model can say when a memoized answer is still right even though procs may answer differently from one query to the next.

Three consequences of the code are proved:
- The read-optimized repository answers like the write-optimized one only for *local* filters: no top-level `:locations` or `:ids` clause, and no top-level two-argument proc. Those clauses read keys, or the whole metadata, that the projection drops (`ScanOnProjection`, and the last ensures of `QueryOptimized.ItemsFor`). For a `:locations` filter the projection does change the answer: the item is selected on the projection but not on the full metadata (`ProjectionChangesLocationsAnswer`).
- Appending A `{slow: true}` and B `{}` and then prepending C `{type: "unit"}` stores C, A, B, so `{slow: true}` selects `[A, B]` (`RegistrationOrderAnswer`, `UpdateOptimizedScenario`, `QueryOptimizedScenario`).
- A proc nested inside a hash or array filter value does not make its key a proc key. The projection is then memoized, although the answer depends on the proc (`NestedProcEscapesBypass` for a hash, `NestedProcInArrayEscapesBypass` for an array). A second query then gets the first query's answer back even though the proc now answers differently (`StaleMemoizedAnswer`). The freshness guarantee of `QueryOptimized.ItemsFor` is stated under that proviso.

## Model

| member | source | states |
|---|---|---|
| MetadataFilter.ToS | rspec-core/lib/rspec/core/metadata_filter.rb:35 | `to_s` of nil, booleans, integers, strings and symbols written out; other values through `World`; characterised on examples by `StringFormMatchesNumber` |
| MetadataFilter.Apply | rspec-core/lib/rspec/core/metadata_filter.rb:11-13 | `apply?`: the clauses aggregated by `any?` or `all?`; characterised by `ApplySemantics` |
| MetadataFilter.AnyApplies | rspec-core/lib/rspec/core/metadata_filter.rb:12 | `filters.any?` over `filter_applies?`; characterised by `ApplySemantics` |
| MetadataFilter.AllApply | rspec-core/lib/rspec/core/metadata_filter.rb:77 | `all?` over `filter_applies?`, used by `apply?(:all?)` (line 12) and by `filters_apply?`; characterised by `ApplySemantics` and `HashClause` |
| MetadataFilter.AnyValueApplies | rspec-core/lib/rspec/core/metadata_filter.rb:42-44 | `filter_applies_to_any_value?` with the roles swapped; characterised by `AnyValueAppliesIff` |
| MetadataFilter.FilterApplies | rspec-core/lib/rspec/core/metadata_filter.rb:16-38 | `filter_applies?`, its branches in source order; each branch is characterised by `ArrayClause`, `LocationsClause`, `IdsClause`, `HashClause`, `AbsentKeyFails`, `PatternClause`, `CallableClause` and `ScalarClause` |
| MetadataFilter.IdFilterApplies | rspec-core/lib/rspec/core/metadata_filter.rb:46-52 | `id_filter_applies?`; characterised by `IdsClause` |
| MetadataFilter.AnyScopedIdIn | rspec-core/lib/rspec/core/metadata_filter.rb:49-51 | the ancestor walk of `id_filter_applies?`; characterised by `AnyScopedIdInIff` |
| MetadataFilter.LocationFilterApplies | rspec-core/lib/rspec/core/metadata_filter.rb:54-57 | `location_filter_applies?`; characterised by `LocationsClause` |
| MetadataFilter.LinesFor | rspec-core/lib/rspec/core/metadata_filter.rb:70 | `locations[meta[:absolute_file_path]]` with the empty default; used by `DeclarationLinesEmpty` |
| MetadataFilter.DeclarationLines | rspec-core/lib/rspec/core/metadata_filter.rb:68-72 | `example_group_declaration_lines`; characterised by `DeclarationLinesEmpty` |
| MetadataFilter.ValueAt | rspec-core/lib/rspec/core/metadata_filter.rb:65 | `meta[key]` as Ruby reads it: the stored value when the key is present, nil when it is missing |
| MetadataFilter.RelevantLineNumbers | rspec-core/lib/rspec/core/metadata_filter.rb:64-66 | `relevant_line_numbers`; characterised by `RelevantLineNumbersAt` |
| MetadataFilter.PrecedingDeclarationLines | rspec-core/lib/rspec/core/metadata_filter.rb:60 | the mapped preceding declaration lines; characterised by `PrecedingDeclarationLinesAt` |
| MetadataFilter.LineNumberFilterApplies | rspec-core/lib/rspec/core/metadata_filter.rb:59-62 | `line_number_filter_applies?`; characterised by `IntersectsIff` and `LocationsClause` |
| MetadataFilter.Intersects | rspec-core/lib/rspec/core/metadata_filter.rb:61 | `!(a & b).empty?`; characterised by `IntersectsIff` |
| MetadataFilter.Lookup | rspec-core/lib/rspec/core/metadata_filter.rb:23 | `metadata[key]` is present exactly when `metadata.key?(key)`, and is then a value stored under that key |
| MetadataFilter.ApplySemantics | rspec-core/lib/rspec/core/metadata_filter.rb:11-13 | `apply?(:any?)` holds iff some clause applies; `apply?(:all?)` holds iff every clause applies (so an empty filter is false and true respectively) |
| MetadataFilter.AbsentKeyFails | rspec-core/lib/rspec/core/metadata_filter.rb:23 | a clause on an ordinary key that the metadata lacks is false, whatever the filter value |
| MetadataFilter.ScalarClause | rspec-core/lib/rspec/core/metadata_filter.rb:34-35 | for an ordinary key with a non-array metadata value and a value that is not a hash, regexp or proc, the clause holds iff `metadata[key].to_s == value.to_s` |
| MetadataFilter.PatternClause | rspec-core/lib/rspec/core/metadata_filter.rb:26-27 | a regexp value: the clause is the match of the metadata value against it |
| MetadataFilter.CallableClause | rspec-core/lib/rspec/core/metadata_filter.rb:28-33 | a proc is called with no arguments for arity 0, with the value and the whole metadata for arity 2, with the value alone otherwise |
| MetadataFilter.AnyValueAppliesIff | rspec-core/lib/rspec/core/metadata_filter.rb:42-44 | `filter_applies_to_any_value?` holds iff some element, as the filter value, applies to the metadata `{key => value}` |
| MetadataFilter.ArrayClause | rspec-core/lib/rspec/core/metadata_filter.rb:18 | array-valued metadata with a non-proc filter value: the clause holds iff some element applies with the roles swapped; an empty array never matches |
| MetadataFilter.HashClause | rspec-core/lib/rspec/core/metadata_filter.rb:74-78 | a hash filter value against a non-hash metadata value is false (not an error); against a hash it holds iff every nested clause applies to the sub-hash |
| MetadataFilter.AnyScopedIdInIff | rspec-core/lib/rspec/core/metadata_filter.rb:49-51 | the walk holds iff some metadata in the `ascend` chain has a `:scoped_id` in the id set |
| MetadataFilter.IdsClause | rspec-core/lib/rspec/core/metadata_filter.rb:46-52 | `:ids` is false when the metadata's `:rerun_file_path` is not a key of the map; otherwise it holds iff some metadata in the `ascend` chain has a scoped id in that path's set |
| MetadataFilter.DeclarationLinesEmpty | rspec-core/lib/rspec/core/metadata_filter.rb:68-72 | the declaration lines are empty iff no ancestor's file has requested lines |
| MetadataFilter.RelevantLineNumbersAt | rspec-core/lib/rspec/core/metadata_filter.rb:64-66 | one `:line_number` per metadata in the `ascend` chain, in chain order, nil where the key is missing or holds nil |
| MetadataFilter.PrecedingDeclarationLinesAt | rspec-core/lib/rspec/core/metadata_filter.rb:60 | one preceding declaration line (or nil) per requested line, in order |
| MetadataFilter.IntersectsIff | rspec-core/lib/rspec/core/metadata_filter.rb:61 | `!(a & b).empty?` holds iff some element of `a` equals some element of `b` |
| MetadataFilter.LocationsClause | rspec-core/lib/rspec/core/metadata_filter.rb:54-57 | `:locations` holds vacuously when no ancestor's file has requested lines; otherwise iff some `:line_number` in the `ascend` chain equals the preceding declaration line of some requested line, as Ruby values (a missing or nil line equals a nil preceding line) |
| MetadataFilter.ClauseReadsOwnKey | rspec-core/lib/rspec/core/metadata_filter.rb:16-38 | a clause on an ordinary key, unless its value is a two-argument proc, depends only on the metadata's value at that key |
| MetadataFilter.FilterAppliesIgnoresCalls | rspec-core/lib/rspec/core/metadata_filter.rb:16-38 | with no proc inside the filter value or the metadata, the clause does not depend on what procs return |
| MetadataFilter.StringFormMatchesNumber | rspec-core/lib/rspec/core/metadata_filter.rb:35 | the filter value `"15"` matches the metadata value `15` and `"16"` does not |
| MetadataFilter.NilLineMatchesNilDeclaration | rspec-core/lib/rspec/core/metadata_filter.rb:61 | a `:line_number` stored as nil, like a missing one, matches a requested line whose preceding declaration line is nil, since `[nil] & [nil]` is not empty |
| MetadataFilter.LineInsideGroupSelectsGroup | rspec-core/lib/rspec/core/metadata_filter.rb:59-62 | a requested line that resolves to an ancestor's declaration line selects the example |
| FilterableItemRepository.Scan | rspec-core/lib/rspec/core/metadata_filter.rb:122-127 | the answer of `items_for`; characterised by `ScanIsSelectedSubsequence`, `ScanAppend` and `ScanPrepend` |
| FilterableItemRepository.EntryKeySeq | rspec-core/lib/rspec/core/metadata_filter.rb:201 | `metadata.keys`: its elements are exactly the filter's keys |
| FilterableItemRepository.Project | rspec-core/lib/rspec/core/metadata_filter.rb:206-211 | `applicable_metadata_from` as a value; characterised by `ProjectLookup` |
| FilterableItemRepository.TouchesProcKey | rspec-core/lib/rspec/core/metadata_filter.rb:189 | the projection holds some proc key; the branch condition of `QueryOptimized.ItemsFor` |
| FilterableItemRepository.ScanIsSelectedSubsequence | rspec-core/lib/rspec/core/metadata_filter.rb:122-127 | `items_for` answers exactly the stored items whose filter is empty or applies, at increasing positions, so it is a subsequence of the stored items in stored order |
| FilterableItemRepository.EmptyFilterAlwaysSelected | rspec-core/lib/rspec/core/metadata_filter.rb:124 | an item registered with an empty filter is in the answer for every query metadata |
| FilterableItemRepository.ScanAppend | rspec-core/lib/rspec/core/metadata_filter.rb:114-116 | an appended pair is considered last |
| FilterableItemRepository.ScanPrepend | rspec-core/lib/rspec/core/metadata_filter.rb:118-120 | a prepended pair is considered first, before every earlier registration |
| FilterableItemRepository.UpdateOptimized.constructor | rspec-core/lib/rspec/core/metadata_filter.rb:109-112 | a new repository stores no pairs and keeps its predicate |
| FilterableItemRepository.UpdateOptimized.Append | rspec-core/lib/rspec/core/metadata_filter.rb:114-116 | the pair goes last; the other pairs are unchanged and keep their order |
| FilterableItemRepository.UpdateOptimized.Prepend | rspec-core/lib/rspec/core/metadata_filter.rb:118-120 | the pair goes first; the other pairs are unchanged and keep their order |
| FilterableItemRepository.UpdateOptimized.ItemsFor | rspec-core/lib/rspec/core/metadata_filter.rb:122-127 | the loop returns the scan of the stored pairs against the request metadata |
| FilterableItemRepository.MergeKeys | rspec-core/lib/rspec/core/metadata_filter.rb:201 | merging keys keeps the old keys as a prefix, adds exactly the new ones, and keeps them free of duplicates |
| FilterableItemRepository.ProcKeysFrom | rspec-core/lib/rspec/core/metadata_filter.rb:213-217 | the keys returned are exactly the filter's proc-valued keys |
| FilterableItemRepository.KeysAfterAppend | rspec-core/lib/rspec/core/metadata_filter.rb:166-169 | appending a pair adds exactly its keys and its proc keys to those of the registered filters |
| FilterableItemRepository.KeysAfterPrepend | rspec-core/lib/rspec/core/metadata_filter.rb:171-174 | prepending a pair adds exactly its keys and its proc keys to those of the registered filters |
| FilterableItemRepository.ProjectLookup | rspec-core/lib/rspec/core/metadata_filter.rb:206-211 | the projection has a tracked key's value iff the metadata has that key, with the same value, and has no other key |
| FilterableItemRepository.QueryOptimized.constructor | rspec-core/lib/rspec/core/metadata_filter.rb:157-164 | a new repository has no pairs, no tracked or proc keys and an empty memo table |
| FilterableItemRepository.QueryOptimized.Append | rspec-core/lib/rspec/core/metadata_filter.rb:166-169 | the pair goes last; tracked keys gain the filter's keys and lose none; proc keys gain exactly its proc-valued keys; the memo table is empty; the invariant holds |
| FilterableItemRepository.QueryOptimized.Prepend | rspec-core/lib/rspec/core/metadata_filter.rb:171-174 | the pair goes first; the key sets grow as for Append; the memo table is empty; the invariant holds |
| FilterableItemRepository.QueryOptimized.HandleMutation | rspec-core/lib/rspec/core/metadata_filter.rb:200-204 | tracked keys are merged with the filter's keys, proc keys gain its proc-valued keys, and the memo table is cleared |
| FilterableItemRepository.QueryOptimized.ApplicableMetadataFrom | rspec-core/lib/rspec/core/metadata_filter.rb:206-211 | the loop builds the projection of the metadata onto the tracked keys |
| FilterableItemRepository.QueryOptimized.ItemsFor | rspec-core/lib/rspec/core/metadata_filter.rb:176-196 | A projection that holds a proc key is scanned and the memo table is left alone. Any other projection returns its memo entry; on a miss the entry is created by a scan under the current proc answers, and those answers are recorded with it. The answer is never stale when no proc hides inside a value, and equals the answer of `UpdateOptimized` for local filters |
| FilterableItemRepository.ScanIgnoresCalls | rspec-core/lib/rspec/core/metadata_filter.rb:189-194 | a projection with no proc key is scanned the same whatever procs return, which makes memoizing it sound |
| FilterableItemRepository.NestedProcEscapesBypass | rspec-core/lib/rspec/core/metadata_filter.rb:213-217 | a proc nested in a hash filter value is not a proc key, and the memoized scan of a projection can then depend on what the proc returns |
| FilterableItemRepository.NestedProcInArrayEscapesBypass | rspec-core/lib/rspec/core/metadata_filter.rb:213-217 | a proc inside an array filter value, against array metadata, is not a proc key, and the scan of the projection then depends on what the proc returns |
| FilterableItemRepository.ScanOnProjection | rspec-core/lib/rspec/core/metadata_filter.rb:177-187 | for local filters whose keys are all tracked, scanning the projection answers as scanning the whole metadata |
| FilterableItemRepository.ProjectionChangesLocationsAnswer | rspec-core/lib/rspec/core/metadata_filter.rb:206-211 | with a `:locations` filter, whose key is tracked, the projection drops the file and line the clause reads: the item is selected on the projection and not on the full metadata |
| FilterableItemRepository.QueryTwice | rspec-core/lib/rspec/core/metadata_filter.rb:194 | two queries with no registration between them, whose projection holds no proc key, answer the same whatever procs return the second time; on a first miss both are the scan under the first query's proc answers |
| FilterableItemRepository.StaleMemoizedAnswer | rspec-core/lib/rspec/core/metadata_filter.rb:189-194 | with a proc nested in a hash filter value, a second query returns the memoized `[A]` although a fresh scan under the proc's new answer selects nothing |
| FilterableItemRepository.RegistrationOrderAnswer | rspec-core/lib/rspec/core/metadata_filter.rb:114-127 | after A `{slow: true}` and B `{}` are appended and C `{type: "unit"}` is prepended, `{slow: true}` selects `[A, B]` |
| FilterableItemRepository.UpdateOptimizedScenario | rspec-core/lib/rspec/core/metadata_filter.rb:106-127 | that registration sequence, performed on an `UpdateOptimized`, answers `[A, B]` |
| FilterableItemRepository.QueryOptimizedScenario | rspec-core/lib/rspec/core/metadata_filter.rb:153-196 | the same scenario on a `QueryOptimized` gives the same answer |

## Left out

- The thread-local deprecation flag (rspec-core/lib/rspec/core/metadata_filter.rb:80-85) is set around each clause and always removed afterwards. It is global plumbing for another subsystem and has no effect on any answer.
- Proc bodies and the exceptions they raise are not modelled. A proc is an oracle from its arguments to a truthy or falsy result, so a raising proc is not modelled. The order in which `any?`/`all?` short-circuit is only observable through such side effects, and is not modelled either.
- Regexp matching is an opaque predicate of `World`. So is the `to_s` of regexps, procs, hashes, arrays and the two index values. `to_s` of nil, booleans, integers, strings and symbols is written out.
- `.uniq` in `example_group_declaration_lines` is left out. It changes neither emptiness nor membership, which are the only things its caller asks.
- `HashImitatable` is not a separate type; a hash-shaped metadata value is a `Hash`.
- Ruby hashes compare regardless of entry order, but the model's memo keys compare as sequences. Every memo key is built in the order of the tracked keys, and the memo table is cleared whenever they change, so equal projections are equal sequences.
- A repository's `World` is fixed for its lifetime. In the source, `preceding_declaration_line` can change as more groups are declared, and a memoized `:locations` answer would not notice.
- The Ruby 1.8.7 fallback definitions (rspec-core/lib/rspec/core/metadata_filter.rb:129-138 and 219-227) duplicate `items_for` and `proc_keys_from`.
- FilterableItemRepository.QueryOptimized.ItemsFor: the "never stale" and "same answer as `UpdateOptimized`" guarantees need two conditions. No registered filter may nest a proc inside a hash or array value, and the query metadata may hold no proc. The second condition is needed because a proc among the elements of an array-valued metadata entry is called as a filter value.
- Keys are names (`type Key = string`), so Ruby's symbol keys and string keys are one domain. In Ruby, the metadata `{"slow" => true}` fails the filter `{slow: true}` (`metadata.key?(:slow)` is false at rspec-core/lib/rspec/core/metadata_filter.rb:23), but it matches in the model. Likewise, a string key `"locations"` takes the `:locations` branch in the model (line 19) but not in Ruby.
- `Value` has no Float and no constructor for arbitrary objects. Such metadata values fall outside the model.
- The two index values `LineIndex` and `IdIndex` under an ordinary key are compared by string form (line 35). Ruby sees a Hash there (line 21) and recurses through `filters_apply?`. Ordinary hashes under ordinary keys are modelled faithfully as `Hash`.
- A `:locations` or `:ids` filter value must be given as `LineIndex` or `IdIndex`. Any other value, including the same hash written as `Hash(...)`, gives false in the model. With a value that is not a hash, the source would raise or misread it.
- The cost of each operation (constant-time registration, the constant-time memo lookup the source's comments describe) is not modelled. Only answers and states are.
