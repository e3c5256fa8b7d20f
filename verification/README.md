# Verified model of Manja's catalog compiler, runtime and release engine

Manja compiles OpenAPI catalogs into immutable, content-addressed snapshots, serves them from a
concurrent runtime, and releases contract revisions through a reviewed state machine. This project
models the parts of it whose correctness is hardest to see and proves what they promise. It needs
only Dafny 4.11: `dafny verify dfyconfig.toml` checks everything.

| file | part of the system |
|---|---|
| `Wrappers.dfy`, `Ordering.dfy` | optional values; byte-wise order of strings, sorting, and when a sort leaves no choice |
| `SchemaEncoding.dfy`, `SchemaGraph.dfy`, `SchemaGraphFinal.dfy` | hash-consing of schema trees and the final renumbering |
| `EditDistance.dfy` | the rolling-row edit distance |
| `CacheModel.dfy`, `CacheProtocol.dfy`, `CacheRuns.dfy`, `CacheAnswers.dfy`, `ByteCache.dfy` | the single-flight byte cache as values, its invariants, its runs, what its callers are served, and the object itself |
| `ExactSearch.dfy`, `TokenSearch.dfy` | the digest-prefix index and the routed posting segments |
| `SchemaValidator.dfy` | the memoised walk over schema summaries |
| `JsonNumber.dfy` | the number normaliser |
| `Greedy.dfy`, `Partition.dfy` | greedy partitions that are as short as any; sharding |
| `RouteTable.dfy`, `RouteRuntime.dfy` | route-table transitions as values and their runs; the runtime object |
| `AdmissionGate.dfy` | the reader/promoter gate |
| `ReleaseTrack.dfy`, `ReleaseService.dfy`, `ReleaseEvidence.dfy` | the release state machine, its transition validator, the coordinating service, and what an accepted release rests on |
| `SpecDiff.dfy`, `SpecDiffMeaning.dfy`, `SpecDiffLoops.dfy` | the contract diff as functions, what it means, and its loops |
| `Policy.dfy`, `Review.dfy`, `ReviewReport.dfy` | policy evaluation, canonical policies, reports and their validation |

How things are modelled:

- Hashing, JSON encoding, canonicalisation of embedded JSON, identity rules and time formatting are
  function values, so every theorem holds for all of them. Where a fact about them is needed it is
  a named hypothesis (`Hashes`, `Additive`, `IsGrowing`, `Fair`, `Sound`, `Agree`). Soundness of interning needs none.
- A section under a mutex is one atomic step. Channels are numbered; a caller parked on an older
  number has been woken. Concurrency is the choice of the next step.
- Objects that the source updates in place are classes whose methods are proved equal to a function
  of the old state; loops are loops with invariants. What the source promises is then proved about
  those functions and about all runs. The methods of `AdmissionGate.CatalogAdmissionGate` and the
  table transitions of `RouteRuntime.Runtime` add nothing beyond that equality and have no rows
  below; the rows of `RouteRuntime` are the members that say more.
- A library sort is any sorted permutation: the sorting function here is one, and `OneSortedForm`
  and the `…AreTold` lemmas show that there is no other.
- Times are integers with 0 for the zero time; reals are exact decimal values.

Two places where the code does not do what its comments or its purpose suggest:

- The size preflight of exact search segments (`application/catalog/search_model.go:391`) is two
  bytes short, because the brackets of the entry list stay. A bucket that is one or two bytes over
  the limit is therefore refused at line 311 rather than split, contrary to the comment at lines
  309-310. `ExactSearch.BuildFailsIff` states exactly when building fails.
- Keys of the diff join method and path with a space and location and name with a colon
  (`domain/specdiff.go:244-271`), and snapshot validation allows a space inside a method and a
  colon inside a location. Two operations, or two parameters, can then share a key, and a removal
  or a newly required parameter goes unreported (`SpecDiffMeaning.SharedKeyHidesRemoval`,
  `SharedKeyHidesParameter`). `SpecDiffMeaning.RightIffKeysTell` gives the exact condition.

## Model

| member | source | states |
|---|---|---|
| `SchemaEncoding.PreimageInjective` | application/projection/schema_graph.go:117-185 | Two nodes with the same preimage are the same node (given child digests), so the byte encoding can be told apart field by field |
| `SchemaGraph.SchemaGraphBuilder.Lookup` | application/projection/schema_graph.go:92-100 | A digest hit with an equal preimage is a ref of the very same schema tree; a reported collision means that an interned tree has another preimage but the same digest, both of them digests of trees and not of the builder; a miss means the tree was never interned and the new draft keeps the builder consistent |
| `SchemaGraph.SchemaGraphBuilder.Append` | application/projection/schema_graph.go:107-114 | Appending adds exactly one draft under the next ref and keeps the index, the digests and the edge count consistent |
| `SchemaGraph.SchemaGraphBuilder.InternNode` | application/projection/schema_graph.go:92-115 | Interning a node returns the ref of its tree, appends nothing for a tree already present, and fails only where an interned tree with another preimage takes its digest or the node or edge budget is exhausted, leaving the builder unchanged |
| `SchemaGraph.SchemaGraphBuilder.InternProperties` | application/projection/schema_graph.go:55-70 | Properties are interned in source order under refs of their canonical trees; a repeated name is the only failure of its own |
| `SchemaGraph.SchemaGraphBuilder.InternItems` | application/projection/schema_graph.go:72-79 | The item schema, if any, becomes the single item with the ref of its canonical tree |
| `SchemaGraph.SchemaGraphBuilder.Intern` | application/projection/schema_graph.go:42-115 | On success the ref stands for the canonical tree of the source, for any hash function; only sub-schemas of the source are added; a failure is due to the source itself or to a schema nested in it that is not interned yet and is blocked by a clashing interned tree or a used-up budget; re-interning a known schema succeeds and adds nothing |
| `SchemaGraph.SchemaGraphBuilder.InternAll` | application/projection/schema_graph.go:42-115 | After interning a list of sources the builder holds exactly their sub-schemas; a failure is justified by one of the sources |
| `SchemaGraph.RefsUnfold` | application/projection/schema_graph.go:42-115 | Unfolding an interned ref gives back exactly its schema tree |
| `SchemaGraph.UnfoldsOnce` | application/projection/schema_graph.go:42-115 | A ref unfolds to one tree only |
| `SchemaGraph.SameRefIffSameTree` | application/projection/schema_graph.go:92-100 | Two refs are equal if and only if they unfold to equal canonical trees |
| `SchemaGraph.TreesDistinct` | application/projection/schema_graph.go:94-100 | No tree is interned twice |
| `SchemaGraph.HitIsSameTree` | application/projection/schema_graph.go:94-100 | Equal preimages in one builder mean equal trees, without assuming that the hash is injective |
| `SchemaGraph.InternedIsHit` | application/projection/schema_graph.go:92-94 | A tree that is already interned is always found again under its digest |
| `SchemaGraph.NodeIdInjective` | application/projection/schema_graph.go:108 | Different digests give different node identities |
| `SchemaGraph.DraftOfTree` | application/projection/schema_graph.go:92-153 | Preimage and digest of a draft are functions of its tree alone, whatever else was interned |
| `SchemaGraph.FailureIsEarned` | application/projection/schema_graph.go:42-115 | A justified failure of a build means that the sources, the hash or the budgets do not allow it to succeed |
| `SchemaGraph.SuccessIsEarned` | application/projection/schema_graph.go:42-115 | A build that holds exactly the sub-schemas of its sources is one that sources, hash and budgets allow |
| `SchemaGraph.OneTreeIff` | application/projection/schema_graph.go:42-79 | Two sources have one canonical tree, and so one ref, exactly when they differ at most in the spelling of embedded JSON |
| `SchemaGraph.CanonicalIsItself` | application/projection/schema_graph.go:42-79 | Where embedded JSON is in canonical form the canonical tree is the source itself |
| `SchemaGraphFinal.Renumber` | application/projection/schema_graph.go:187-205 | Sorting drafts by identity yields a permutation and its inverse |
| `SchemaGraphFinal.Finalize` | application/projection/schema_graph.go:187-235 | Every ref in nodes, operation details and schema details is renamed by that permutation, and the nodes come out strictly sorted by identity |
| `SchemaGraphFinal.RewriteSlices` | application/projection/schema_graph.go:199-233 | Overwriting refs in place, in slices that are pairwise different and in whatever order they are visited, renames every ref in every slice exactly once |
| `SchemaGraphFinal.RewrittenIsFinal` | application/projection/schema_graph.go:199-210 | A slice that held the child refs of a draft then holds those of its finished node |
| `SchemaGraphFinal.CompileGraph` | application/projection/schema_graph.go:33-235 | A whole build succeeds if and only if every source has acceptable JSON and distinct property names, the hash tells the preimages of their nested schemas apart and, under resource limits, the nested schemas and their edges are within both budgets; then the result is a finished build that holds exactly those schemas |
| `SchemaGraphFinal.CompiledUnfolds` | application/projection/schema_graph.go:42-235 | A build gives every source a final ref that unfolds to its canonical tree |
| `SchemaGraphFinal.CompilingIgnoresOrder` | application/projection/schema_graph.go:42-235 | Two builds of the same sources, in any order and with repetitions, give the same nodes, refs that unfold to the canonical trees, and equal final refs if and only if equal canonical trees |
| `SchemaGraphFinal.RenumberingPreservesMeaning` | application/projection/schema_graph.go:187-235 | The old ref and the renamed ref unfold to the same trees |
| `SchemaGraphFinal.FinalAcyclic` | application/projection/schema_graph.go:187-235 | The finished graph is acyclic |
| `SchemaGraphFinal.DigestOfTree` | application/projection/schema_graph.go:117-153 | The digest of a tree does not depend on the builder or on the order of interning |
| `SchemaGraphFinal.FinalNodesDependOnSchemasOnly` | application/projection/schema_graph.go:187-235 | The finished node list depends only on the set of interned schemas |
| `SchemaGraphFinal.InterningOrderIrrelevant` | application/projection/schema_graph.go:42-235 | Interning the same sources in any order gives the same node list and the same final ref for each source |
| `EditDistance.BoundedDamerauLevenshtein` | application/catalog/search.go:523-553 | The three rolling rows compute the optimal-string-alignment distance; the pair is accepted exactly when the distance is within the limit, so the early exit on lengths rejects only what is too far |
| `EditDistance.FillRow` | application/catalog/search.go:533-550 | One pass of the inner loop turns two distance rows into the next one |
| `EditDistance.FillCell` | application/catalog/search.go:535-548 | One cell of the row holds the recursive distance of its two prefixes |
| `EditDistance.DistanceIsLeastCost` | application/catalog/search.go:523-553 | The recursive distance is the least cost of any edit script of insertions, deletions, substitutions and swaps of neighbours in which no rune is edited twice |
| `EditDistance.NoScriptIsCheaper` | application/catalog/search.go:523-553 | No edit script costs less than the distance |
| `EditDistance.BestScript` | application/catalog/search.go:523-553 | Some edit script costs exactly the distance |
| `EditDistance.DistanceSymmetric` | application/catalog/search.go:523-553 | The distance is symmetric in its two arguments |
| `EditDistance.OsaAtLeastLengthDifference` | application/catalog/search.go:524-526 | The distance is at least the difference in length |
| `EditDistance.DistanceZero` | application/catalog/search.go:523-553 | The distance is zero exactly for equal texts |
| `CacheModel.LoadedIsAuthentic` | application/catalog/cache.go:189-232 | What an execution delivers was decoded from bytes whose length and digest match the key, and weighs no more than was reserved |
| `CacheProtocol.ShrinkFacts` | application/catalog/cache.go:279-288 | The eviction loop keeps a prefix of the LRU list, ends within both limits and never drops the front entry while that alone is within them |
| `CacheProtocol.AdmitKeepsStore` | application/catalog/cache.go:267-289 | Admission keeps the LRU list a permutation of the entries, the byte count equal to the sum of weights and both within limits, and the admitted entry stays |
| `CacheProtocol.AdmittedWeight` | application/catalog/cache.go:267-289 | While a new entry is being admitted the byte count never exceeds twice the limit |
| `CacheProtocol.HitKeepsStore` | application/catalog/cache.go:133-139 | A hit only moves the entry to the front |
| `CacheProtocol.EvictKeepsStore` | application/catalog/cache.go:308-326 | Eviction removes exactly the entries of the snapshot and keeps the count of bytes right |
| `CacheRuns.StepKeepsSafe` | application/catalog/cache.go:117-326 | Every load, wake-up, completion, departure and eviction keeps the invariant of the protocol |
| `CacheRuns.RunsAreSafe` | application/catalog/cache.go:101-326 | Over every interleaving: flight counters equal the count and reservation sum of all unfinished executions, attached or detached, within limits; cached bytes equal the sum of weights within limits; the LRU list is a permutation of the entries |
| `CacheRuns.EvictionIsBarrier` | application/catalog/cache.go:308-326 | After an eviction, whatever is cached or attached for the snapshot was started later |
| `CacheRuns.StaleFinishIsHarmless` | application/catalog/cache.go:234-260 | An execution from before the eviction changes neither entries nor attached flights nor any other flight when it completes |
| `CacheRuns.StaleLeaveIsHarmless` | application/catalog/cache.go:291-306 | A caller leaving such an execution neither unregisters nor cancels a replacement flight |
| `CacheRuns.NoLostWakeUp` | application/catalog/cache.go:145-186 | A caller parked on the current channel still lacks capacity, and then some execution is live |
| `CacheRuns.GuardsNeverNeeded` | application/catalog/cache.go:291-306 | The guards against waiter underflow are never needed |
| `CacheRuns.HitsAreAuthentic` | application/catalog/cache.go:117-139 | A value served from the cache was decoded from bytes matching the key |
| `CacheRuns.StepKeepsOutcomes` | application/catalog/cache.go:189-260 | Over every step, what a flight loaded is authentic |
| `CacheRuns.JoinsForItsKey` | application/catalog/cache.go:145-176 | A caller that joins waits for a flight of the key it asked for |
| `CacheRuns.WaitersGetAuthentic` | application/catalog/cache.go:178-185 | What a waiting caller receives from its flight was decoded from bytes of the right length and digest |
| `CacheRuns.LoadKeepsInv` | application/catalog/cache.go:117-187 | The locked section of Load, in each of its cases, keeps the invariant |
| `CacheRuns.FinishKeepsInv` | application/catalog/cache.go:234-260 | Completion keeps the invariant |
| `CacheRuns.LeaveKeepsInv` | application/catalog/cache.go:291-306 | Releasing a waiter keeps the invariant |
| `CacheRuns.EvictKeepsInv` | application/catalog/cache.go:308-326 | Eviction keeps the invariant |
| `CacheAnswers.LoadAnswers` | application/catalog/cache.go:133-176 | A load is a hit exactly of a cached key with its value, joins the flight under way, is refused exactly if it could never be admitted, parks exactly if it cannot be admitted now, and otherwise starts one flight for just this request |
| `CacheAnswers.FreshCacheStarts` | application/catalog/cache.go:101-112 | Flight limits that are not given are those of the cache: a fresh cache starts every load within its byte limit |
| `CacheAnswers.HitRefreshes` | application/catalog/cache.go:133-139 | A hit moves its entry to the front of the LRU list and changes the order of no others |
| `CacheAnswers.ExecutionSucceedsIff` | application/catalog/cache.go:189-232 | An execution succeeds exactly on bytes of the right length and digest that decode within the promised weight, and delivers what they decode to |
| `CacheAnswers.DeliveredIsServed` | application/catalog/cache.go:234-260 | Once an attached flight has delivered a value within the cache limits, the next load of its key is a hit of that value |
| `CacheAnswers.DeliveryDropsOnlyWhatItMust` | application/catalog/cache.go:248-289 | The delivered entry is followed by the most recent of the others in their order; keeping any entry that is dropped would have exceeded a limit |
| `CacheAnswers.OtherwiseNothingIsStored` | application/catalog/cache.go:234-260 | A completion that failed, was detached or is too heavy changes no entries |
| `CacheAnswers.OnlyItsFlightEnds` | application/catalog/cache.go:234-260 | Every completion records its outcome, detaches its own flight and leaves all others as they are |
| `CacheAnswers.LastOneCancels` | application/catalog/cache.go:291-306 | A departing caller leaves a flight running for the other waiters; the last one detaches and cancels an attached flight |
| `CacheAnswers.EvictionIsExact` | application/catalog/cache.go:308-326 | An eviction removes exactly the entries and flights of its snapshot, cancels exactly those flights, and leaves all others as they are |
| `ByteCache.ByteCache.constructor` | application/catalog/cache.go:101-112 | A new cache is empty, with flight limits defaulting to the cache limits |
| `ByteCache.ByteCache.LoadLocked` | application/catalog/cache.go:132-176 | The locked section of Load: hit, join a flight, start one, or park for capacity |
| `ByteCache.ByteCache.AdmitEntry` | application/catalog/cache.go:267-289 | Admission in place does what the protocol says, including every eviction |
| `ByteCache.ByteCache.CompleteFlight` | application/catalog/cache.go:234-260 | Completion in place: detach, admit only if still attached, and signal capacity |
| `ByteCache.ByteCache.Release` | application/catalog/cache.go:291-306 | Releasing a waiter in place, abandoning an unwaited flight only if it is attached |
| `ByteCache.ByteCache.Evict` | application/catalog/cache.go:308-326 | Eviction in place: entries dropped one by one, flights detached and cancelled one by one |
| `ExactSearch.EmitHolds` | application/catalog/search_model.go:292-353 | Every emitted bucket holds entries that were put in, under a prefix of their digests, sorted and within the limit |
| `ExactSearch.EmitFinds` | application/catalog/search_model.go:292-353 | Every entry put in is in some emitted bucket |
| `ExactSearch.EmitPrefixFree` | application/catalog/search_model.go:336-352 | Bucket prefixes come out strictly sorted and none is the beginning of another |
| `ExactSearch.BuildIndexes` | application/catalog/search_model.go:354-363 | When building succeeds the buckets index exactly the given map |
| `ExactSearch.BuildSegments` | application/catalog/search_model.go:259-377 | The build loops produce those buckets or fail exactly where the recursion fails |
| `ExactSearch.EmitSegments` | application/catalog/search_model.go:292-353 | The recursive emit closure, terminating on the remaining nibbles |
| `ExactSearch.EmitByNibble` | application/catalog/search_model.go:336-351 | Splitting by the next nibble keeps order and content |
| `ExactSearch.SortIsIdle` | application/catalog/search_model.go:364-369 | The final sort of the artifacts never changes anything |
| `ExactSearch.RankedIsCanonical` | application/catalog/search_model.go:271-279 | The ranked matches of a key come by priority and then by record, and do not depend on the iteration order of the map |
| `ExactSearch.FindBucket` | application/catalog/search.go:410-421 | Longest-prefix search finds the one bucket whose prefix begins the digest, or none exists |
| `ExactSearch.Lookup` | application/catalog/search.go:374-403 | Lookup returns exactly the matches stored for a key, and nothing for an absent key |
| `ExactSearch.BuildFailsIff` | application/catalog/search_model.go:292-353 | Building fails if and only if, for some entry and prefix length, the entries that share this prefix make a segment one or two bytes over the limit, or share the whole digest and exceed it |
| `ExactSearch.CutsAreNeeded` | application/catalog/search_model.go:292-353 | Segments are cut only as deep as size requires: for every shorter start, of at least one nibble, of the prefix of a bucket, the entries that share it are over the limit together |
| `ExactSearch.EstimateIsTwoShort` | application/catalog/search_model.go:383-406 | The size preflight is two bytes less than the JSON it predicts |
| `ExactSearch.SplittableBucketRefused` | application/catalog/search_model.go:299-313 | Hence two entries that would each fit are refused instead of split when their common segment is one byte over the limit |
| `TokenSearch.BuildPostings` | application/catalog/search_model.go:141-167 | Posting lists invert the records: a record is listed under a token exactly when it carries it, in increasing order |
| `TokenSearch.SegmentEnd` | application/catalog/search_model.go:421-442 | The longest run of entries within both segment limits, or the first entry alone is too large |
| `TokenSearch.BuildSegments` | application/catalog/search_model.go:416-461 | The segments concatenate to the sorted entries, keep both limits, and each key is routed to the segment that holds it; building fails if and only if no division into as many segments as ordinals can number keeps the limits |
| `TokenSearch.BuildDirectory` | application/catalog/search_model.go:408-463 | The directory serves exactly the posting lists of the records; its segments concatenate to their inverted index, and building fails if and only if no division of that index into numbered segments keeps the limits |
| `TokenSearch.Union` | application/catalog/search.go:759-776 | Merging two increasing lists gives the increasing list of their union |
| `TokenSearch.Intersect` | application/catalog/search.go:778-792 | Merging two increasing lists gives the increasing list of their intersection |
| `TokenSearch.PostingRoutes` | application/catalog/search.go:736-749 | The key itself if it is routed, otherwise exactly the routes whose keys it begins |
| `TokenSearch.FuzzyRoutes` | application/catalog/search.go:481-521 | Fuzzy matching finds the close routes without repetition, ordered by distance and then key, up to the limit; below the limit none is missing, and what the limit cuts off comes after all that is taken |
| `TokenSearch.FuzzyTakesTheClosest` | application/catalog/search.go:481-521 | The routes taken are near, no more than the limit, and no near route that is left out is closer than one taken |
| `TokenSearch.FuzzyIsExact` | application/catalog/search.go:481-521 | The declarative choice is that one: routes with the first rune of a token of at least four runes within one edit, or two from eight runes on; none for shorter tokens |
| `TokenSearch.FuzzyTokenMeans` | application/catalog/search.go:429-466 | By a token that only fuzzy matching resolves, a record is found only if it carries a close token and, below the limit on routes, whenever it does |
| `TokenSearch.OneIndex` | application/catalog/search_model.go:141-167 | Records have exactly one sorted inverted index |
| `TokenSearch.ResolveToken` | application/catalog/search.go:431-451 | A token resolves to its key, else to the keys it begins, else to the near ones |
| `TokenSearch.ResolveAll` | application/catalog/search.go:429-452 | The segments asked for are exactly those that the tokens lead to, and the search ends early exactly when some token resolves to nothing |
| `TokenSearch.LoadPostings` | application/catalog/search.go:555-591 | Every posting of the chosen segments is loaded unchanged |
| `TokenSearch.GroupCandidates` | application/catalog/search.go:463-466 | The candidates of a token are the union of its posting lists |
| `TokenSearch.Combine` | application/catalog/search.go:458-478 | Intersection over the tokens, stopping early, selects exactly the records that satisfy every token |
| `TokenSearch.Candidates` | application/catalog/search.go:423-479 | Candidates are strictly increasing and are exactly the selected records; without fuzzy matching they are those that, for each query token, carry it if it is indexed and otherwise some token it begins; the query is refused exactly when the needed segments are too many or too costly |
| `TokenSearch.SelectedWithoutFuzzy` | application/catalog/search.go:423-479 | The selection agrees with a naive scan of the records |
| `SchemaValidator.Validator.ValidateValue` | domain/spec_validation.go:338-394 | Verdict and height are those of the memo-free tree walk unless the node budget ran out; whatever the verdict, at most the summaries expanded by value and once those behind newly entered pointers are charged, and on success exactly these |
| `SchemaValidator.Validator.ValidateProperties` | domain/spec_validation.go:370-383 | The loop over properties agrees with the tree walk of each property and charges no more than they cost |
| `SchemaValidator.Validator.ValidatePointer` | domain/spec_validation.go:396-422 | An active pointer is refused only where the tree walk would never end; a memoised height decides exactly as walking again would and is free of charge |
| `SchemaValidator.Validator.ValidateRoot` | domain/spec_validation.go:333-336 | A root is accepted exactly when all paths from it are short enough and meet only canonical names, unless the budget ran out |
| `SchemaValidator.ValidateRoots` | domain/spec_validation.go:285-331 | One memo for all roots: accepted if and only if every path from every root has fewer than 64 steps and meets only canonical names and, under the node budget, the roots cost at most 100,000 summaries; the counter never exceeds that cost, and equals it on acceptance |
| `SchemaValidator.FitsIffBounded` | domain/spec_validation.go:338-394 | The tree walk accepts exactly when every path has fewer than 64 steps and reaches only canonical names |
| `SchemaValidator.AcceptedIsAcyclic` | domain/spec_validation.go:401-403 | In what is accepted nothing can be reached again from itself |
| `SchemaValidator.CyclesNeverFit` | domain/spec_validation.go:401-403 | Nothing on a cycle is accepted at any depth |
| `SchemaValidator.FitsIffHeightFits` | domain/spec_validation.go:404-412 | A summary that fits somewhere fits exactly where there is room for its height, which is what the memo compares |
| `SchemaValidator.RoomIsIrrelevant` | domain/spec_validation.go:404-412 | Height and cost of a summary do not depend on the depth at which it was measured, so memoised heights stay valid across roots |
| `SchemaValidator.OwnCountsPaths` | domain/spec_validation.go:350-383 | What a summary costs by value is the number of paths of fewer than 64 steps from property to property |
| `SchemaValidator.PointersAreMet` | domain/spec_validation.go:384-422 | The pointers that are charged once are exactly the items of summaries within the depth limit |
| `SchemaValidator.EnteredCost` | domain/spec_validation.go:404-421 | Pointers entered without repetition cost at most what a set holding them costs, and the same if they are all of it |
| `JsonNumber.NormalizeJsonNumber` | application/projection/embedded_json.go:171-238 | The method computes the canonical text or refuses, for every input string |
| `JsonNumber.TrimZeros` | application/projection/embedded_json.go:206-208 | The loop trims trailing zeros only behind the decimal point |
| `JsonNumber.ReadSpelled` | application/projection/embedded_json.go:171-199 | Reading a spelled numeral gives back its parts |
| `JsonNumber.ReadSpells` | application/projection/embedded_json.go:171-199 | Whatever is read is well formed and spells the input |
| `JsonNumber.ValueIsPreserved` | application/projection/embedded_json.go:171-238 | The text denotes exactly the decimal value of the input |
| `JsonNumber.EqualValuesGetOneText` | application/projection/embedded_json.go:171-238 | Two numerals of equal value with readable exponents get the same answer |
| `JsonNumber.OneTextOneValue` | application/projection/embedded_json.go:171-238 | Different values never share a text |
| `JsonNumber.NormalIsIdempotent` | application/projection/embedded_json.go:171-238 | Normalising again changes nothing |
| `JsonNumber.TextIsPlainJson` | application/projection/embedded_json.go:220-237 | The text is a number of section 6 of RFC 8259 without exponent or superfluous zeros |
| `JsonNumber.PredictedLengthIsExact` | application/projection/embedded_json.go:209-219 | For nonzero values the predicted length is the length of the text without its sign |
| `JsonNumber.AnsweredIffReadable` | application/projection/embedded_json.go:171-199 | Without the limit there is a text exactly for numerals whose exponent fits 32 bits |
| `JsonNumber.LimitRefusesLongTexts` | application/projection/embedded_json.go:209-219 | With the limit the answer is the same text, refused exactly when it is longer than the limit without its sign |
| `Greedy.GreedyStaysAhead` | application/catalog/partition.go:136-173 | After any number of shards the greedy partition has covered at least as much as any other |
| `Greedy.GreedyIsOptimal` | application/catalog/partition.go:136-173 | No partition that fits has fewer shards |
| `Greedy.StuckMeansNone` | application/catalog/partition.go:144-148 | An element that does not fit alone leaves no partition that fits |
| `Greedy.FullMeansNone` | application/catalog/search_model.go:444-446 | Greedy segments that do not reach the end cannot be beaten with as many |
| `Partition.LongestRun` | application/catalog/partition.go:137-152 | The inner loop finds the longest run within both limits; it makes no progress exactly when the record limit is zero or the first record is too large |
| `Partition.Shards` | application/catalog/partition.go:136-173 | Succeeds if and only if some partition keeps both limits; then the shards concatenate to the input, keep the limits and are as few as possible; the error says which record is too large, or that a zero record limit allows no progress |
| `Partition.CanShardIff` | application/catalog/partition.go:136-155 | Some partition keeps the limits if and only if there are no records, or the record limit is positive and no single record exceeds the byte limit |
| `Partition.EncodingsAreAdditive` | application/catalog/partition.go:186-191 | Starting one record later lengthens the envelope of a schema-node shard by at most a digit |
| `Partition.WithinNarrows` | application/catalog/partition.go:186-191 | Hence a shard within the limits stays within them when records are left out at its ends, although its envelope may spell a longer ordinal |
| `Partition.PartitionDetails` | application/catalog/partition.go:132-175 | Besides, every identity is mapped to the path of the shard that holds the last record with it |
| `Partition.PartitionNodes` | application/catalog/partition.go:177-228 | Ordinals must count up; then each lies in exactly one referenced range, and the ranges are an optimal partition |
| `RouteTable.StepKeepsInv` | application/catalog/runtime.go:146-523 | Every transition keeps the table sound and the reference counts right |
| `RouteTable.RunsKeepInv` | application/catalog/runtime.go:146-523 | In every reachable state no mount is both served and tombstoned, everything served is valid, and each reference count is the number of unreleased admissions |
| `RouteTable.OnlyReauthorizationRevives` | application/catalog/runtime.go:309-351 | Restores apart, a tombstoned mount that serves again was reauthorised against that very tombstone, with its catalog and a different snapshot |
| `RouteTable.TombstoneStep` | application/catalog/runtime.go:146-410 | One step keeps a tombstone unchanged or is such a reauthorisation |
| `RouteTable.BothOrNeither` | application/catalog/runtime.go:196-203 | A durable step changes the persisted and the published table to the same one, or neither; a failed store changes nothing |
| `RouteTable.DurableRunsAgree` | application/catalog/runtime.go:146-410 | If all steps are durable, memory and store agree throughout |
| `RouteTable.OneMountAtATime` | application/catalog/runtime.go:146-410 | A transition of one mount leaves the generation and all other mounts alone; a stale generation changes nothing |
| `RouteTable.GenerationsRise` | application/catalog/runtime.go:216-244 | Restores apart, generations never fall and rise only when all routes are replaced |
| `RouteTable.OneActivationWins` | application/catalog/runtime.go:146-212 | Of two activations expecting the same old snapshot only the first takes effect |
| `RouteTable.FallbackUndoesActivation` | application/catalog/runtime.go:377-410 | Falling back from a new snapshot restores the one it replaced |
| `RouteTable.WithdrawnStaysDown` | application/catalog/runtime.go:249-304 | The tombstone records the snapshot and catalog that were served, and neither activation nor route replacement brings the mount back |
| `RouteTable.RestoreWaitsForReaders` | application/catalog/runtime.go:459-464 | While an admission is open no table is restored |
| `RouteTable.MovesArePublished` | application/catalog/runtime.go:196-203 | A transition that moves is carried out unless the store refuses; any other leaves everything as it was |
| `RouteTable.ActivateMoves` | application/catalog/runtime.go:146-212 | An activation succeeds exactly on a mount that is not tombstoned and serves what was expected; the candidate then serves and what served before is retained |
| `RouteTable.ReplaceMoves` | application/catalog/runtime.go:216-244 | A replacement succeeds exactly with a newer generation, the expected one current and valid routes to mounts without tombstones; then just these serve |
| `RouteTable.WithdrawMoves` | application/catalog/runtime.go:249-304 | A withdrawal succeeds exactly on a mount that serves the expected snapshot with a tombstone that fits it; the mount is gone and the tombstone names snapshot and catalog |
| `RouteTable.ReauthorizeMoves` | application/catalog/runtime.go:309-351 | A reauthorisation succeeds exactly on a tombstoned mount with another snapshot of the catalog named; that one serves then, with nothing retained |
| `RouteTable.FallbackMoves` | application/catalog/runtime.go:377-410 | A fallback succeeds exactly on a mount that serves the corrupt snapshot; the retained one serves then if it is wanted and there is one, otherwise the mount is gone |
| `RouteTable.SelectedMeans` | application/catalog/runtime.go:481-505 | Without a name the active snapshot is selected, with one a snapshot of that name, and none exactly where there is none |
| `RouteRuntime.Runtime.RestoreTable` | application/catalog/runtime.go:431-466 | Succeeds exactly for a sound table while every admission has been released |
| `RouteRuntime.Runtime.Admit` | application/catalog/runtime.go:481-516 | Hands out the active snapshot, or the active or retained one of the name asked for, counted once; nothing exactly when there is none |
| `RouteRuntime.Runtime.Release` | application/catalog/runtime.go:506-523 | The first release gives the reference back, later ones do nothing |
| `RouteRuntime.Runtime.ReferenceCount` | application/catalog/runtime.go:525-529 | The count is the number of unreleased admissions of the snapshot |
| `AdmissionGate.StepKeepsInv` | renderer/server.go:377-481 | Every locked section keeps the invariant of the gate |
| `AdmissionGate.RunsKeepInv` | renderer/server.go:365-481 | The invariant holds over every interleaving of callers |
| `AdmissionGate.PromotionIsExclusive` | renderer/server.go:420-467 | Between a successful beginPromotion and endPromotion nobody is inside |
| `AdmissionGate.ReadersAreEntersMinusLeaves` | renderer/server.go:382-418 | The counter is the number of successful enters less the number of leaves |
| `AdmissionGate.ParkedWaitsForSomeone` | renderer/server.go:377-481 | Whoever is parked on the current channel waits for somebody: a reader for a promoter, a promoter or closer for a reader |
| `AdmissionGate.StepKeepsParked` | renderer/server.go:377-481 | A waiter parked on the current channel always has a false wake condition |
| `AdmissionGate.CloseIsFinal` | renderer/server.go:469-481 | Once closeAdmissions has returned nobody is inside and nobody enters again |
| `AdmissionGate.NoPanic` | renderer/server.go:408-467 | The panics of leave and endPromotion are never reached |
| `AdmissionGate.EnterAnswers` | renderer/server.go:382-406 | A caller gets in exactly when its context lives, the gate is open and nobody promotes, and is parked exactly when somebody does |
| `AdmissionGate.PromotionAnswers` | renderer/server.go:420-456 | A promotion is granted exactly when it is not cancelled, may begin, and nobody is inside; while somebody is, the promoter waits |
| `AdmissionGate.CloseAnswers` | renderer/server.go:469-481 | Closing shuts the gate and returns exactly when nobody is inside |
| `AdmissionGate.DepartureWakes` | renderer/server.go:408-467 | The end of a promotion wakes every parked reader, the last leave every waiting promoter and closer |
| `ReleaseTrack.TransitionsAreExactly` | domain/release.go:300-333 | The transition validator accepts exactly: no change, an effective decision, or a pinned promotion |
| `ReleaseTrack.StepIsTransition` | domain/release.go:98-219 | Every step keeps validity and identity, is accepted by the validator, and raises the generation by one exactly when anything changes |
| `ReleaseTrack.RunsStayValid` | domain/release.go:236-295 | Every run of steps keeps track validity |
| `ReleaseTrack.GenerationCountsChanges` | domain/release.go:149-219 | The generation counts the effective steps |
| `ReleaseTrack.LastIsLatest` | domain/release.go:149-184 | The last decision is the latest-evaluated of all those considered |
| `ReleaseTrack.LastWasConsidered` | domain/release.go:149-184 | The last decision is the initial one or one that was considered |
| `ReleaseTrack.DecisionsMoveForward` | domain/release.go:166-173 | Recorded decisions never go back in time |
| `ReleaseTrack.CurrentWasApproved` | domain/release.go:175-219 | Over any run the current revision is the initial one or that of an accepted passing decision |
| `ReleaseTrack.ReplayIsIdle` | domain/release.go:156-208 | Considering or promoting again changes nothing |
| `ReleaseTrack.LegacyAcceptanceStands` | domain/release.go:98-138 | Once the legacy helper has accepted a revision, nothing it is asked later changes the track |
| `ReleaseTrack.ConsiderAnswers` | domain/release.go:149-184 | A valid decision takes effect exactly when it is newer than the last one, dated, and a generation is left; older ones are passed over, a different one of the same time is refused |
| `ReleaseTrack.DecisionEffect` | domain/release.go:175-184 | On a pinned track an effective decision leaves the current revision and makes its own the candidate; on a following track an accepted one makes its revision current and any other only the candidate |
| `ReleaseTrack.PromotionAnswers` | domain/release.go:187-219 | A pinned track promotes exactly the revision of its accepted last decision, once, and after that as a repetition |
| `ReleaseTrack.PinnedStep` | domain/release.go:149-219 | The current revision of a pinned track changes only by a promotion, and only to its accepted candidate |
| `ReleaseTrack.PinnedStands` | domain/release.go:149-219 | Over any run of a pinned track the current revision stands while nothing is promoted |
| `ReleaseTrack.FollowingStep` | domain/release.go:175-184 | On a following track the current revision is that of the last decision if it was accepted and stands if it was not |
| `ReleaseTrack.FreshTrackIsValid` | domain/release.go:236-264 | A track without decisions is valid exactly in one of the two modes |
| `ReleaseTrack.LegacyAnswers` | domain/release.go:98-138 | While only its own rejections are recorded, the legacy helper decides on any revision like a newer decision |
| `ReleaseService.Service.Coordinate` | application/release.go:67-219 | Either fails and leaves the store alone, or returns the stored track unchanged, or commits one step: generation up by one, one audit event, one message, and publication exactly when the candidate was accepted and became current; replays succeed whatever the clock says, and anything else only within the clock skew and before any applied exception expires |
| `ReleaseService.Service.Transact` | application/release.go:134-211 | The transaction body with its order of checks |
| `ReleaseService.Service.Write` | application/release.go:184-210 | All writes succeed together or the call fails |
| `ReleaseService.Service.CheckExceptions` | application/release.go:221-234 | Succeeds exactly when no applied exception has expired |
| `ReleaseService.Service.CoordinateTwice` | application/release.go:131-211 | Repeating an effective call changes nothing and returns the same track, whatever the clock says |
| `ReleaseService.RepeatIsReplay` | application/release.go:149-155 | What an effective call commits makes its own repetition a replay |
| `ReleaseService.SaveAccepts` | application/release.go:184-186 | A store that validates transitions never refuses what the service saves |
| `ReleaseService.SelectedIff` | application/release.go:307-344 | Evidence serves a command exactly when command, review and sync are those that a valid authorization names and, for an accepting command, the review passed and the sync succeeded |
| `ReleaseService.BoundIff` | application/release.go:79-127 | Evidence is bound exactly when both revisions are stored under the authorized names with their own snapshots and the review and its report are about just these |
| `ReleaseService.EffectiveIff` | application/release.go:163-183 | A call moves an authorized track on exactly when its released revision is the reviewed baseline and the decision is valid, dated, newer, and a generation is left |
| `ReleaseService.CommitMeans` | application/release.go:184-210 | A commit on a pinned track neither changes the released revision nor publishes another one; on a following track an accepting one releases and publishes the candidate and any other does neither |
| `ReleaseEvidence.AcceptanceIsEarned` | application/release.go:67-130 | A command that accepts gets past the checks only if no layer of the reviewed policy objects, without an excuse, to any change between the stored snapshots of baseline and candidate |
| `ReleaseEvidence.CommitIsEarned` | application/release.go:67-211 | A commit that changes the current revision was an acceptance of the authorised candidate, and was earned in that sense |
| `ReleaseService.HistoryBalances` | application/release.go:131-211 | Over any run each track has risen by as many generations as audit events and messages were recorded for it |
| `SpecDiffLoops.DiffSnapshots` | domain/specdiff.go:70-138 | The loops compute the sorted changes; wherever keys tell identities apart these are exactly the breaking and exactly the additive changes, none breaking exactly when the candidate is compatible, none additive exactly when nothing is new |
| `SpecDiffLoops.OperationBreakingChanges` | domain/specdiff.go:161-216 | Parameter, body and status changes of one operation, in order |
| `SpecDiffLoops.StatusChanges` | domain/specdiff.go:197-233 | Exactly the statuses that the other operation lacks |
| `SpecDiffLoops.MatchedOperations` | domain/specdiff.go:76-93 | What is found under each key of the baseline |
| `SpecDiffLoops.AddedOperations` | domain/specdiff.go:94-106 | Exactly the operations that are new under their keys |
| `SpecDiffLoops.SchemaDifferences` | domain/specdiff.go:108-133 | Exactly the schema names missing on the other side |
| `SpecDiffMeaning.BreakingIsExact` | domain/specdiff.go:70-216 | Where keys tell, a change is reported as breaking if and only if something that was there is gone or something is newly required |
| `SpecDiffMeaning.AdditiveIsExact` | domain/specdiff.go:70-234 | Where keys tell, a change is reported as additive if and only if something is there that was not |
| `SpecDiffMeaning.RightIffKeysTell` | domain/specdiff.go:236-271 | The diff is right on all contents over the identities of two snapshots if and only if, across the two, equal operation keys mean the same operation and equal parameter keys of one operation mean the same parameter |
| `SpecDiffMeaning.SharedKeyHidesRemoval` | domain/specdiff.go:236-246 | For any two different operations with one key, losing one of them is not reported |
| `SpecDiffMeaning.SharedKeyHidesParameter` | domain/specdiff.go:261-271 | For any two different parameters with one key, a newly required one is not reported |
| `SpecDiffMeaning.SpaceSharesKey` | domain/specdiff.go:244-246 | A space inside a method, which snapshot validation admits, makes two operations share a key |
| `SpecDiffMeaning.ColonSharesKey` | domain/specdiff.go:269-271 | A colon inside a parameter location makes two parameters share a key |
| `SpecDiffMeaning.PlainKeysTell` | domain/specdiff.go:236-271 | Without spaces in methods and colons in locations keys always tell |
| `SpecDiffMeaning.NothingBreaksIffCompatible` | domain/specdiff.go:70-216 | Where keys tell, there is no breaking change if and only if every operation has a compatible namesake and no schema is missing |
| `SpecDiffMeaning.NothingAddedIffNothingNew` | domain/specdiff.go:70-234 | Where keys tell, there is no additive change if and only if every operation, status and schema was there before |
| `SpecDiff.ChangesAreNatural` | domain/specdiff.go:140-159 | Everything about a change follows from its rule and subject |
| `SpecDiff.NaturalChangesAreTold` | domain/specdiff.go:305-315 | Sorting changes by rule, subject and identity leaves no distinguishable ties |
| `Policy.MergePolicy` | domain/policy.go:96-130 | Merging succeeds exactly for one valid repository layer followed by valid server layers that weaken nothing, and yields the completed layers |
| `Policy.MergeTwice` | domain/policy.go:96-130 | Merging what was merged changes nothing |
| `Policy.ServersDoNotWeaken` | domain/policy.go:92-130 | In a merged policy no server layer is milder on a rule than the repository |
| `Policy.EvaluateFindings` | domain/policy.go:134-186 | The verdict fails exactly when some layer says fail about some finding and no running, complete exception of that layer covers it; every exception that excused something is applied once; every exception gets its right disposition; decisions come finding by finding and layer by layer |
| `Policy.JudgeFinding` | domain/policy.go:155-183 | All layers judge one finding |
| `Policy.MatchingExceptions` | domain/policy.go:303-319 | Exactly the valid, unexpired exceptions about the finding or its rule |
| `Policy.ListDispositions` | domain/policy.go:139-153 | Every exception gets one disposition that its index finds again |
| `Policy.LayersOnlyTighten` | domain/policy.go:92-95 | More layers never let pass what fewer layers fail |
| `Policy.VerdictIff` | domain/policy.go:155-183 | The verdict in plain terms: the level is the layer’s own or, in the repository layer, fail for a breaking change by default; the exception names the finding or its rule |
| `Policy.ExpiredExcusesNothing` | domain/policy.go:303-319 | A server layer that says fail fails the verdict if all its exceptions about the finding have expired |
| `Policy.DecisionsMean` | domain/policy.go:155-169 | The decisions are just what the layers say about the findings, marked with whether an exception covers them |
| `Policy.DispositionsMean` | domain/policy.go:139-178 | An exception is reported as applied exactly if it covers a finding that its layer speaks about and, otherwise, as expired exactly if its time is over |
| `Policy.MergesIff` | domain/policy.go:96-130 | Layers merge exactly when a repository layer is followed by server layers, all valid, and no server level is less strict than the repository’s own or default one |
| `Policy.ExceptionsAreTold` | domain/review.go:674-691 | No two different exceptions are tied |
| `Policy.DecisionsAreTold` | domain/review.go:536-552 | No two different decisions are tied |
| `Policy.DispositionsAreTold` | domain/review.go:556-568 | No two different dispositions are tied |
| `Policy.OneSortedResult` | domain/review.go:536-569 | Evaluation has one sorted result whatever order its loops and sorts use |
| `Review.ProjectionKeepsLayer` | domain/review.go:648-665 | A layer survives projection into the report and back |
| `Review.LayersAreTold` | domain/review.go:623-633 | No two different layers are tied |
| `Review.CanonicalTwice` | domain/review.go:605-646 | Canonicalising twice is canonicalising once |
| `Review.CanonicalIgnoresOrder` | domain/review.go:605-646 | The order in which layers come does not matter |
| `Review.CanonicalSettles` | domain/review.go:345-376 | A canonical policy merges into itself, with its repository layer first |
| `Review.CanonicalKeepsLayers` | domain/review.go:605-646 | Canonicalising loses no layer, adds none, and reorders only exceptions within them |
| `Review.CanonicalKeepsVerdict` | domain/review.go:605-646 | Canonicalising a policy changes no verdict |
| `ReviewReport.EvaluateReview` | domain/review.go:412-472 | Succeeds exactly for an acceptable request, with the comparisons and the verdict that belong to it |
| `ReviewReport.EvaluateComparison` | domain/review.go:511-526 | The findings and the sorted evaluation of two snapshots |
| `ReviewReport.RequestIff` | domain/review.go:412-447 | A request is reviewed exactly when it is dated and canonically named, every snapshot compared is valid and of its contract, and its policy merges, states its baseline demand and has it met |
| `ReviewReport.ReportVerdict` | domain/review.go:456-470 | A report fails exactly when, for some change of the pull request or since the release, some layer of the merged policy says fail and does not cover it |
| `ReviewReport.CanonicalReviewPolicy` | domain/review.go:605-646 | The loops compute the canonical policy and its projection |
| `ReviewReport.ValidateReport` | domain/review.go:254-343 | Evaluating again and comparing accepts exactly the well-formed reports whose comparison is the canonical one |
| `ReviewReport.OwnReviewIsAccepted` | domain/review.go:254-472 | A report of EvaluateReview, cut down to its release comparison and that verdict, is always accepted against the same snapshots |
| `ReviewReport.ProjectionIsCanonical` | domain/review.go:345-376 | Canonicalisation is idempotent through projection and back |
| `ReviewReport.OneComparison` | domain/review.go:511-526 | A comparison comes out the same in every evaluation |
| `ReviewReport.OneListOfFindings` | domain/specdiff.go:305-315 | Any sorted permutation of the changes is the list of findings |
| `ReviewReport.AcceptedIsForced` | domain/review.go:254-292 | Policy, time and engine leave no choice about what is accepted |
| `ReviewReport.AcceptedVerdict` | domain/review.go:282-291 | An accepted report passes exactly when no layer of its policy objects to any change |
| `ReviewReport.PolicyIgnoresLayerOrder` | domain/review.go:605-646 | Requests that differ in the order of server layers get the same canonical policy |

## Left out

- HTTP handlers, static export, HTML rewriting, WASM bridge, command-line programs and the development launcher.
- Filesystem, Git and archive code, and the catalog store, catalog JSON, OpenAPI and web adapters; a store is a callback that accepts or fails, or a value that a transaction replaces as a whole.
- SHA-256, hexadecimal digests of children, JSON bytes and Unicode folding: function values, as said above.
- Cancellation checkpoints, search deadlines, timing fields and error texts; several error kinds that the source distinguishes only in their text are one value here.
- Widths of unsigned integers where no claim depends on them: schema refs, record ordinals, segment ordinals and cache counters are natural numbers. The release generation keeps its 64-bit end, exponents keep their 32 bits.
- Hit, miss, bypass and peak counters of the cache, and the usage records of search and sharding.
- Trigram postings, and reading record segments by ordinal in `application/catalog/search.go:593-650`: the same shape as token postings and shards, only easier.
- Ranking and match-kind flags of search answers; the candidates are what is ranked.
- Decoding and emitting embedded JSON values other than numbers.
- Admission and release of search reservations: the read budget of a query is an arbitrary predicate on the segments asked for.
- Field-by-field validation of snapshots, commands and authorisations: opaque predicates.
- Building contract snapshots from parsed indexes; the diff starts from snapshots.
- Time zones and monotonic clocks.
- Store commits with unknown outcome; a transaction commits or does not.
- Waiting inside the methods of the admission gate: a method is one locked turn, and the callers of the state machine do the waiting.
- Partition.Shards: takes the encoded size of a shard to be envelope, entries and commas, as JSON arrays are written.
