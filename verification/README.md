# Verified model of the graph traversal, graph indexes, excerpts and comment extraction

This project models four pieces of the repository in Dafny and proves what they promise. Each works in a
bounded or optimised form, and each is proved equal to, or sound for, a simple description of its result.

1. **Bounded graph traversal** (`src/graph/neighborhood.js` and its helpers). `GraphTraversal.Traversal` is a class
   with the variables of `buildGraphNeighborhood` as fields and its local functions and loops as methods.
   `Reachability` says what a query means: walks from the seeds over each node's candidate list after the fanout cut,
   and shortest distances. `SearchInvariants` describes one step of the search and what every step keeps,
   `SearchOutcome` what a run leaves, stopped or not, and what each recorded cap means. `WitnessPaths` has the walk
   along parent links, `EdgeMerge` and `EdgePolicy` the windowed sort, merge and deduplication, `WorkBudgets` the
   work counter, and `Neighborhood` the whole run. `Refs`, `StoredKeys` and `AliasPaths` treat keys that normalising
   changes, `EdgeNames` and `EnvelopeKeys` edges that share an edge key, `CountedEdges` edges that share a cap key,
   and `QueryTerms` says what a result means in terms of the query's fields alone. A node's candidate list is a
   function of the node, and the clock is an arbitrary function.
2. **Graph indexes** (`src/graph/indexes.js`): id tables, adjacency lists, the forward CSR and its counting-sort
   transpose on arrays of 32-bit entries, and the front-coded string table.
3. **Excerpts, caches and risk selection** (`src/context-pack/assemble.js`): UTF-8 safe trimming (sections 3 and 4 of
   RFC 3629), slicing under byte and token caps, the bounded file read, the LRU cache, the greedy flow selection.
4. **Comments** (`src/index/comments.js`): the scanner against a reference lexer that reads one character at a
   time, line stripping with exact source offsets, fenced configuration segments, and the whole extraction.

Loops and state changes of the source are methods with loops, arrays and fields; each is proved against a
specification function or predicate, and the lemmas say what that specification means.

## What the proofs found

- **Node test before normalisation.** The candidate loop looks up a target's key as written in a map of normalised
  keys. While no candidate is written with a key that another node is stored under (`Query.KeysApart`), distances are
  shortest and unstopped runs complete. Otherwise both can fail although no cap is recorded. The failing queries are
  receivable, as the code builds them (`StoredKeys.Receivable`): a file offers the edges of an import graph, looked
  up under its normal path, each target normalised once, in ascending order.
  - *Missed nodes.* Runs that record no cap find everything within the depth, for all such queries whose other keys
    are final, exactly when normalising the key twice is normalising it once (`StoredKeys.CompleteWhenFinal`;
    `StoredKeys.RunSelfNaming` is a failing run: the seed's file is imported under the key the seed is stored under).
  - *Wrong distances.* A node to which the short way is lost is given the length of a detour. In `StoredKeys.Detour`
    the seed's file imports itself under the key the seed is stored under, and a first file; the first imports a
    second, and that one the file at the end. The end is at most two steps from the seed and gets distance three, for
    every key that changes again when normalised again (`StoredKeys.RunDetour`). Distances are shortest, for all such
    queries whose other keys are final, exactly when the key does not change again
    (`StoredKeys.DistancesShortestWhen`).
  - *Which keys.* Without a repository root these are the keys of paths that start with `./` twice and go on
    (`Refs.NormalizeTwiceRelative`), with one also those whose normal path is again absolute inside the root
    (`Refs.KeyNormalizedTwice`).
- **Parent links under the key as written.** Parents and path targets are kept under the un-normalised key. The path
  built for a node is a true one exactly when every node but a seed on its parent chain was entered by its own key
  (`WitnessPaths.PathExact`). Two things go wrong otherwise, with no cap recorded:
  - *Missing paths.* A found node named only by another key has no path (`AliasPaths.AliasHasPathWhen`). Every node
    beyond the seeds has a true path, for all receivable queries whose other targets are written with their normal
    keys, exactly when the key is normal (`AliasPaths.PathsCompleteWhen`); `Refs.KeyNormal` says which keys those
    are.
  - *Wrong paths.* A node beyond such a node gets a path that starts there, not at a seed, and whose distance is too
    small: in `AliasPaths.Relay` chunk a mentions a file under a key that is not normal, the file imports another,
    and the path to that one, at distance two, has distance one (`AliasPaths.RelayPathWrong`).
- **Edge keys joined with `|`.** Among the edges the traversal makes, an edge's key names its ends alone exactly when
  nothing in it can be read as another split (`EdgeNames.MadeKeyNamesEndsWhen`): for the three graphs whose edges
  have one type, when the text between source and target, such as `|call|chunk:`, stands neither behind a source
  within the source nor before a name within the target; for symbol edges, when a `|` stands in the source only first
  in its name, in the type only last, and in the target before nothing that is itself a target. Exactly then the edge
  is kept beside every other one (`EdgeNames.MadeBothKeptWhen`): of two edges with one key the deduplication drops
  one. Over arbitrary edge values, with any graph name and type, the condition is that no part holds a `|`
  (`EdgePolicy.KeyNamesEndsWhen`, `EdgePolicy.BothKeptWhen`). The pass keeps one edge a key exactly when equal keys
  stand together in the sorted list (`EdgePolicy.OnePerKeyWhen`); that every edge is covered by one at least as good
  holds in any case.
- **Edge cap and cap keys.** The cap counts cap keys. There are at least as many of these as edges, for every list
  that comes out with one edge a key, exactly when only equal edge keys share a cap key
  (`CountedEdges.EdgeCountWhen`). With a graph index they do not: imports `././u` and `u` of one file have one cap
  key and two edge keys, so a run with an edge cap of one returns two edges and records nothing about it
  (`CountedEdges.RunTwoNames`).
- **Work limits.** A budget stops when the units used reach the limit, so a limit of n lets n - 1 candidates through,
  and limits 0 and 1 let none through (`WorkBudgets.WorkBudget.FreshLetsThrough`).
- **Transposing twice.** It sorts each row of a well-formed CSR exactly when every target is in range
  (`CsrTranspose.TransposeTwice`).
- **Negative byte caps.** The bounded read gives the excerpt of the full read exactly when the byte cap is not
  negative (`Excerpts.BoundedReadAgreesWhen`): a negative cap shortens the read but cuts and reports nothing. Four
  slack bytes are the fewest that suffice (`Excerpts.SlackNeeded`).

## Model

| member | source | states |
|---|---|---|
| Ordering.UnitsInjective | src/shared/sort.js:1-7 | strings with equal UTF-16 code units are equal, so comparing units tells strings apart |
| Ordering.CompareStringsOrder | src/shared/sort.js:1-7 | comparison by code units is a total order: zero only for equal strings, antisymmetric, transitive |
| Ordering.CompareStringsMeans | src/shared/sort.js:1-7 | a string is less exactly when, at the first place where the code units differ, it has ended or has the smaller unit |
| Ordering.EdgeOrder | src/graph/ordering.js:102-114 | the edge comparison is total and transitive, and edges between the same ends stay together under it |
| Ordering.EdgeOrderMeans | src/graph/ordering.js:102-114 | edges are ordered by source, type, graph and target, then those without confidence, then by falling confidence |
| Refs.NodeKeyInjective | src/graph/ordering.js:19-31 | a node key names exactly one reference |
| Refs.ChangesMeans | src/graph/indexes.js:6-19 | the paths that normalisation changes into a path: absolute inside the root, not posix, or with a leading `./`, and not left empty |
| Refs.WithinIsRoot | src/graph/indexes.js:6-19 | taking a directory off the front of absolute paths meets what is asked of a repository root |
| Refs.NormalizeTwice | src/graph/indexes.js:6-27 | normalising a file reference twice equals normalising it once, except exactly when its normal path is changed again |
| Refs.NormalizeTwiceRelative | src/graph/indexes.js:6-27 | without a root, exactly the paths with two leading `./` and more |
| Refs.KeyOfNormalized | src/graph/indexes.js:21-27 | normalising a reference and taking its key is normalising its key, so the search may run on keys |
| Refs.KeyOfSource | src/graph/neighborhood.js:380-381 | the id under which a file's imports are looked up is the path of its normal key, unless it is empty |
| Refs.KeyNormalizedTwice | src/graph/indexes.js:6-27 | the same exact exception, on keys |
| Refs.KeyNormal | src/graph/indexes.js:6-27 | which keys are their own normal form, both directions |
| Reachability.FinalKeysApart | src/graph/neighborhood.js:578-584 | when normalising is final no candidate is written with another node's stored key |
| Reachability.NewNodeShortest | src/graph/neighborhood.js:399-602 | a node first seen from the level being expanded is at shortest distance one more |
| Reachability.AllFound | src/graph/neighborhood.js:399-602 | when the queue runs out with nothing refused, the found nodes are exactly those within the depth |
| SearchInvariants.AdmitKeeps | src/graph/neighborhood.js:583-600 | admitting a node with its parent link, path target and queue entry keeps every invariant of the search, under any caps |
| SearchInvariants.AdmitStaysOpen | src/graph/neighborhood.js:583-600 | while nothing was refused its distance is shortest, and nothing already expanded becomes incomplete |
| SearchInvariants.DealtRecords | src/graph/neighborhood.js:289-297 | the node cap stays recorded exactly when a seed or visited target is missing, and then it is met |
| SearchInvariants.DealtKeeps | src/graph/neighborhood.js:570-600 | one candidate, however it is dealt with, keeps what every step keeps |
| SearchInvariants.AmidNext | src/graph/neighborhood.js:559-601 | after one more candidate the visited ones are the next prefix of the lists of the nodes expanded |
| SearchInvariants.AmidEnd | src/graph/neighborhood.js:559-602 | when a node's list is done, one more queue entry is settled |
| SearchOutcome.HeadEnds | src/graph/neighborhood.js:399-602 | a queue used up leaves every promise, complete and with shortest distances |
| SearchOutcome.AmidStops | src/graph/neighborhood.js:562-577 | a stop leaves them too: the lists visited up to it, and exactly the cap that caused it recorded |
| SearchOutcome.ExploredEmits | src/graph/neighborhood.js:559-577 | the edges of the visited candidates are offered by expanded nodes, and all of those unless stopped |
| SearchOutcome.TargetsMet | src/graph/neighborhood.js:578-600 | unless stopped or refused, the target of every expanded node is found or written with a found key |
| SearchOutcome.UncappedRecordsNothing | src/graph/neighborhood.js:265-602 | with no caps and a budget that did not stop, nothing is recorded |
| StoredKeys.UnstableTargetMissed | src/graph/neighborhood.js:578-584 | for every key that is changed again every promised result of a receivable query misses a node one step away |
| StoredKeys.CompleteWhenFinal | src/graph/neighborhood.js:578-602 | results without a record of a cap are complete, for all receivable queries whose other keys are final, if and only if the key is not changed again |
| StoredKeys.ImportingFollows | src/graph/neighborhood.js:468-500 | a file's steps over an import graph lead from its normal path to the keys of its neighbours, normalised again |
| StoredKeys.RunSelfNaming | src/graph/neighborhood.js:578-602 | a run of that query records no cap and misses the node |
| StoredKeys.DetourTooFar | src/graph/neighborhood.js:578-602 | a node at most two steps from the seed is given distance three, in every promised result that finds it |
| StoredKeys.DistancesShortestWhen | src/graph/neighborhood.js:578-602 | distances are shortest, for all receivable queries whose other keys are final, if and only if the key is not changed again |
| StoredKeys.RunDetour | src/graph/neighborhood.js:578-602 | the detour is a receivable query, and its run records no cap, finds the node, and gives it distance three |
| GraphTraversal.Traversal.AddNode | src/graph/neighborhood.js:285-314 | a node is added exactly when it has a key, is new and fits the cap; a refusal by the cap is recorded and nothing else changes |
| GraphTraversal.Traversal.AddEdge | src/graph/neighborhood.js:316-337 | an edge is appended unless the distinct-key cap, then met exactly, refuses it; after a refusal the edge list is as long as the cap |
| GraphTraversal.Traversal.Keep | src/graph/neighborhood.js:327-331 | an edge let in is appended, and its cap key remembers it exactly when there was none or it is better |
| GraphTraversal.Traversal.Spill | src/graph/neighborhood.js:332-335 | spilling sorts and empties the buffer and loses no edge and no order of arrival |
| GraphTraversal.Traversal.AddSeeds | src/graph/neighborhood.js:362-364 | after the seeds the search invariants hold, all at distance 0, and the cap is recorded exactly when it refused one |
| GraphTraversal.Traversal.Reach | src/graph/neighborhood.js:578-600 | the new state is the old one with the candidate's target admitted, refused or already found |
| GraphTraversal.Traversal.Visit | src/graph/neighborhood.js:570-600 | the candidate is dealt with and its confident edge emitted; it stops exactly when the met edge cap refuses that edge |
| GraphTraversal.Traversal.CutFanout | src/graph/neighborhood.js:549-557 | the list is cut to the fanout cap, and the cut is recorded exactly when something was cut |
| GraphTraversal.Traversal.Step | src/graph/neighborhood.js:559-601 | one candidate costs one unit; it is dealt with, or the queue ends at the current node with the cause of the stop recorded |
| GraphTraversal.Traversal.VisitAll | src/graph/neighborhood.js:559-601 | all offered candidates are visited in order, or the run is over with its cause |
| GraphTraversal.Traversal.Expand | src/graph/neighborhood.js:399-602 | a node is expanded in full, so one more queue entry is settled, or the run is over with its cause |
| GraphTraversal.Traversal.Run | src/graph/neighborhood.js:399-602 | the queue loop ends for every query with every promise of an ended search, one unit for each candidate visited |
| GraphTraversal.Traversal.MergeEdges | src/graph/neighborhood.js:605-631 | for every window size the merged list is one stable sort of the emitted edges |
| GraphTraversal.Traversal.BuildPathForNode | src/graph/neighborhood.js:339-360 | path building ends with the reversed walk along parent links, at most 5000 steps; a key that is no found node yields none |
| GraphTraversal.Traversal.BuildPaths | src/graph/neighborhood.js:640-653 | a path for each kept target, and the cap recorded exactly when there are more targets |
| WitnessPaths.PathExact | src/graph/neighborhood.js:339-360 | the path built for a found node is true, as long as its distance, if and only if its whole chain was entered by its own keys |
| WitnessPaths.PathsExact | src/graph/neighborhood.js:640-653 | every returned path goes to a found node beyond the seeds, and is true under just that condition |
| WitnessPaths.OwnNamedHasPath | src/graph/neighborhood.js:640-653 | a node named by its own key, with all nodes up to its distance so named, has a true path unless capped |
| WitnessPaths.TargetsAreNonSeeds | src/graph/neighborhood.js:595-598 | with normal candidate keys the targets are exactly the found nodes beyond the seeds, nearest first |
| WitnessPaths.PathsOfTargets | src/graph/neighborhood.js:640-653 | then there is one true path for each, and the cap never keeps a farther target than one it drops |
| AliasPaths.AliasHasPathWhen | src/graph/neighborhood.js:586-598 | for every key written, its target is found, and has a path if and only if the key is normal |
| AliasPaths.RunAlias | src/graph/neighborhood.js:586-598 | a run of that query records no cap and shows it |
| AliasPaths.PathsCompleteWhen | src/graph/neighborhood.js:586-653 | every found node beyond the seeds has a true path, for all receivable queries whose other targets are normal, if and only if the key is normal |
| AliasPaths.RelayPathWrong | src/graph/neighborhood.js:339-360 | beyond a node entered by another key the path starts at that node and its distance is one short |
| AliasPaths.RunRelay | src/graph/neighborhood.js:339-360 | a run of that query records no cap and returns the wrong path |
| Neighborhood.DedupedFaithful | src/graph/neighborhood/edge-policy.js:18-35 | whatever the keys, the result is sorted and covers every emitted edge, and holds one edge a key if and only if equal keys stand together |
| Neighborhood.EdgesOfEmitted | src/graph/neighborhood.js:604-632 | sorting and deduplicating the emitted edges gives the promised edge list, within the edge cap by cap keys |
| Neighborhood.Search | src/graph/neighborhood.js:362-602 | the search ends: nodes, order, visited candidates and records as promised, one unit for each candidate |
| Neighborhood.StopsRecorded | src/graph/neighborhood.js:561-569 | a budget that stopped during the run is recorded, as work or as clock, and only then |
| QueryTerms.DepthMeans | src/graph/neighborhood.js:84-86 | below the depth of the search means below the depth asked for and below the one allowed |
| QueryTerms.ConfidentMeans | src/graph/neighborhood.js:570 | the filter lets an edge pass exactly when it has no confidence, none is asked for, or it has as much |
| QueryTerms.OfferedMeans | src/graph/neighborhood.js:549-557 | the candidates dealt with are the first of the list, as many as the fanout cap allows |
| QueryTerms.RouteMeans | src/graph/neighborhood.js:399-602 | walks are the routes the fields of the query describe: from a seed, over listed candidates with allowed edges |
| QueryTerms.NodesInTerms | src/graph/neighborhood.js:399-602 | distances are lengths of routes within both depths; with keys apart no route is shorter, and unless stopped or refused every route within both depths ends at a found node |
| QueryTerms.CandidatesInTerms | src/graph/neighborhood.js:549-577 | the visited candidates are the first of each expanded node's list, list after list, up to the stop |
| QueryTerms.CapsInTerms | src/graph/neighborhood.js:265-557 | depth, fanout and node records say what the fields and lists say |
| Neighborhood.PromisedInTerms | src/graph/neighborhood.js:265-655 | every returned edge passes the filter and is listed at a found node nearer than both depths, and unless stopped all such edges are covered by their key with at least their confidence |
| Neighborhood.BuildGraphNeighborhood | src/graph/neighborhood.js:265-655 | under every mix of caps: seeds in, distances shortest, completeness unless stopped or refused, each record exact, edges the deduplicated sort of those visited, all of it also in terms of the query's fields alone, paths along parent links, the budget's count; without caps and limits nothing recorded and, with keys apart, exactly the nodes within the depth |
| WorkBudgets.WorkBudget.Consume | src/graph/work-budget.js:69-92 | sticky once stopped; stops exactly when the used units reach the limit or a due clock check finds the time over |
| WorkBudgets.ChargedCompose | src/graph/work-budget.js:69-92 | runs of single units compose: units used are units let through, plus the one that stopped |
| WorkBudgets.WorkBudget.FreshLetsThrough | src/graph/work-budget.js:69-92 | a fresh budget lets fewer than max(1, limit) single units through, and once stopped exactly as many as it may |
| EdgePolicy.EdgeKeyNamesEnds | src/graph/ordering.js:93-100 | between edges without a bar in the earlier parts, equal keys mean equal ends, and conversely |
| EdgePolicy.KeyNamesEndsWhen | src/graph/ordering.js:93-100 | over arbitrary edge values, an edge's key names its ends alone if and only if no part of it holds a bar |
| EdgePolicy.SortedIsGrouped | src/graph/neighborhood/edge-policy.js:18-35 | sorting puts equal keys of such edges side by side |
| EdgePolicy.BetterMeans | src/graph/neighborhood/edge-policy.js:1-16 | an edge is replaced exactly when it has less confidence than the other, none being least, or as much and lacks the other's evidence |
| EdgePolicy.DedupeSortedEdges | src/graph/neighborhood/edge-policy.js:18-35 | the pass keeps, for each run of equal keys, its earliest best edge, in list order |
| EdgePolicy.DedupeCovers | src/graph/neighborhood/edge-policy.js:18-35 | so for every edge of any list one with its key is kept that has at least its confidence, and at equal confidence its evidence |
| EdgePolicy.OnePerKeyWhen | src/graph/neighborhood/edge-policy.js:18-35 | one edge a key is kept if and only if equal keys stand together |
| EdgePolicy.BothKeptWhen | src/graph/neighborhood/edge-policy.js:18-35 | over arbitrary edge values, an edge is kept beside every one with other ends if and only if no part of it holds a bar; otherwise one of two is dropped |
| EdgeNames.TypedNamesEnds | src/graph/neighborhood.js:419-500 | of call, usage and import edges an unambiguous one shares its key only with edges of the same ends |
| EdgeNames.SymbolNamesEnds | src/graph/neighborhood.js:503-537 | so does an unambiguous symbol edge |
| EdgeNames.MadeKeyNamesEndsWhen | src/graph/ordering.js:32-100 | among the edges the traversal makes, a key names its edge's ends alone if and only if the edge is unambiguous |
| EdgeNames.MadeBothKeptWhen | src/graph/neighborhood/edge-policy.js:18-35 | among them an edge is kept beside every one with other ends under just that condition; otherwise one of two is dropped |
| EnvelopeKeys.EnvelopeKeysAre | src/graph/ordering.js:33-74 | the keys symbol edges are taken to lead to are exactly the keys of references with a status |
| EnvelopeKeys.MadeEnds | src/graph/neighborhood.js:419-500 | the other edges lead between keys of nodes and have the one type of their graph |
| CountedEdges.EdgeCountWhen | src/graph/neighborhood.js:316-337 | edges, one a key, are never more than the cap keys of the emitted list if and only if equal cap keys mean equal edge keys |
| CountedEdges.ImportCapKeyMeans | src/graph/neighborhood/edge-policy.js:56-64 | numbered import edges share a cap key exactly when they connect the same files |
| CountedEdges.RunTwoNames | src/graph/neighborhood/edge-policy.js:56-64 | a receivable run with an edge cap of one and an index returns two edges without a record of that cap |
| EdgeMerge.PickWindow | src/graph/neighborhood.js:611-624 | the picked window has the least head and is the earliest with it |
| EdgeMerge.MergeStep | src/graph/neighborhood.js:611-628 | taking that head keeps the merge sorted and every class of equals in window order |
| EdgeMerge.MergeWindows | src/graph/neighborhood.js:605-628 | merging sorted windows is one stable sort of their concatenation |
| EdgeMerge.SpillIsOneSort | src/graph/neighborhood.js:332-335 | sorting each window first changes nothing, however the list was cut |
| PrefixTables.SharedPrefix | src/graph/indexes.js:57-61 | the counted prefix is the longest the two strings share |
| PrefixTables.BuildPrefixTable | src/graph/indexes.js:51-67 | every entry stores the longest prefix shared with the previous string, and the rest |
| PrefixTables.ResolvePrefixEntry | src/graph/indexes.js:69-79 | entry i of a table built from any list decodes to its i-th string; outside the table there is none |
| GraphIndexes.BuildIdTable | src/graph/indexes.js:41-49 | ids strictly sorted, and looking an id up inverts the list |
| GraphIndexes.NormalizedNeighbors | src/graph/indexes.js:103-118 | a neighbour list holds each normalised neighbour once, sorted, and nothing else |
| GraphIndexes.MergeSides | src/graph/indexes.js:119-128 | the merged list is the union of both sides, sorted |
| GraphIndexes.BuildEntry | src/graph/indexes.js:99-131 | an entry holds the normalised neighbours of each side asked for, and their union when asked for |
| GraphIndexes.BuildAdjacencyIndex | src/graph/indexes.js:84-134 | one entry for each normalised node id, the last node with it winning |
| GraphIndexes.AppendKnown | src/graph/indexes.js:146-152 | the positions of the known neighbours are appended in list order and the unknown dropped |
| GraphIndexes.BuildAdjacencyCsr | src/graph/indexes.js:139-160 | offsets count the known neighbours of the ids before, and the edges list them row after row |
| GraphIndexes.ForwardRows | src/graph/indexes.js:139-160 | the CSR is well formed, and row i is the known out-neighbours of id i through the id table |
| GraphIndexes.ForwardMeans | src/graph/indexes.js:139-160 | j is in row i exactly when id j is an out-neighbour of id i; rows strictly increase and every edge is in range |
| GraphIndexes.ReverseOfForward | src/graph/indexes.js:139-200 | reversed once, each edge is found once at its target; reversed twice, the forward CSR is back |
| CsrTranspose.CountIndegree | src/graph/indexes.js:175-180 | in-range targets are counted exactly, without overflow |
| CsrTranspose.StartRows | src/graph/indexes.js:181-185 | row starts are prefix sums: monotone from 0 and within the edge count |
| CsrTranspose.ScatterStep | src/graph/indexes.js:191-197 | the cursor of an edge's target has not reached the next row, and writing there disturbs no row |
| CsrTranspose.ScatterRow | src/graph/indexes.js:188-198 | one source's edges are appended to the rows of their targets |
| CsrTranspose.BuildReverseAdjacencyCsr | src/graph/indexes.js:166-200 | the result is the transpose: row t lists the sources of edges into t, ascending; out-of-range targets dropped |
| CsrTranspose.ReverseRows | src/graph/indexes.js:176-199 | s occurs in reverse row t as often as t in forward row s, and reverse rows ascend |
| CsrTranspose.TransposeTwice | src/graph/indexes.js:166-200 | transposing twice sorts every row if and only if every target is in range |
| CsrTranspose.TransposeTwiceIdentity | src/graph/indexes.js:166-200 | so it is the identity on rows already ascending |
| Utf8.MasksAreRanges | src/context-pack/assemble.js:1617-1633 | the byte masks of the source are the ranges the model tests |
| Utf8.ByMasks | src/context-pack/assemble.js:1617-1633 | continuation bytes and announced lengths are as the masks say |
| Utf8.EncodesRow | src/context-pack/assemble.js:1725-1737 | bytes encode a scalar exactly when they fit a row of the table of section 4 of RFC 3629 and the scalar is their payload |
| Utf8.SpelledMeans | src/context-pack/assemble.js:1725-1737 | a text is encoded by one such row for each character and by no other bytes |
| Utf8.DecodeMeans | src/context-pack/assemble.js:1692-1697 | any bytes decode row by row, with one replacement character where no row starts |
| Utf8.BrokenMeans | src/context-pack/assemble.js:1692-1697 | which stands for the longest start of a row found there |
| Utf8.DecodeEncode | src/context-pack/assemble.js:1725-1737 | decoding the encoding of any text gives it back |
| Utf8.FitIsLongest | src/context-pack/assemble.js:1725-1737 | Fit is the length of the longest whole-character prefix within a number of bytes, both directions |
| Utf8.CutTail | src/context-pack/assemble.js:1617-1633 | in any cut of well-formed text the last lead byte and its announced length tell whether the last character is whole |
| Utf8.TrimUtf8Buffer | src/context-pack/assemble.js:1617-1633 | any buffer is cut before its last lead byte if that announces more than follows; a cut of well-formed text is left with its longest whole-character prefix |
| Excerpts.SliceExcerpt | src/context-pack/assemble.js:1725-1748 | computes the byte cut, then the token cut, with their flags, also told from bytes of the encoding table and tokens split off at white space |
| Excerpts.SliceMeans | src/context-pack/assemble.js:1725-1748 | each flag is set exactly when its positive cap is exceeded; one more character would not fit; the first tokens are kept, one space between any two |
| Excerpts.TokensMean | src/context-pack/assemble.js:1739-1744 | there is only one split of a text into tokens and the white space around them |
| Excerpts.JoinMeans | src/context-pack/assemble.js:1739-1744 | joining leaves one U+0020 between two tokens and no other white space |
| Excerpts.FileRangeMeans | src/context-pack/assemble.js:1678-1690 | a range inside a file yields just what stands there; one that reaches out, what is inside |
| Excerpts.TokensOfJoin | src/context-pack/assemble.js:1739-1744 | tokens joined by single spaces split into themselves |
| Excerpts.JoinFits | src/context-pack/assemble.js:1739-1744 | joined tokens take no more bytes than the text they came from |
| Excerpts.SliceMeetsCaps | src/context-pack/assemble.js:1725-1748 | the result meets both caps, the byte cut is longest, and slicing again changes and reports nothing |
| Excerpts.ReadText | src/context-pack/assemble.js:1692-1700 | a range read from a character boundary yields the longest whole-character text of the range |
| Excerpts.ResolveExcerpt | src/context-pack/assemble.js:1773-1783 | for any file the excerpt is the slice of what the bounded read yields, by range or by prefix; for well-formed text, of its whole characters |
| Excerpts.BoundedReadAgrees | src/context-pack/assemble.js:1773-1783 | for every text, range and caps not negative, reading four or more bytes past the cap gives the excerpt and flags of the full read |
| Excerpts.BoundedReadAgreesWhen | src/context-pack/assemble.js:1773-1783 | with the source's slack that holds for all texts and ranges if and only if the byte cap is not negative |
| Excerpts.SlackNeeded | src/context-pack/assemble.js:1639-1639 | for all texts, ranges and positive caps it holds if and only if the slack is at least four |
| LruCaches.Cache.GetCachedValue | src/context-pack/assemble.js:1650-1657 | a hit returns the stored value and makes the key newest; a miss changes nothing |
| LruCaches.Cache.SetCachedValue | src/graph/neighborhood/cache.js:10-21 | the key becomes newest with its value, the oldest beyond the size go, and they are counted |
| LruCaches.TouchNewest | src/context-pack/assemble.js:1650-1667 | a touch on the kept entries and on all entries ever touched leave the same newest |
| LruCaches.CacheHoldsExpected | src/context-pack/assemble.js:1650-1667 | after any sequence of gets and sets the cache holds the most recently touched keys up to its size, in order |
| LruCaches.ValuesAreLastSet | src/context-pack/assemble.js:1650-1667 | each held value is the one its key was last set to |
| RiskSelection.SelectFlows | src/context-pack/assemble.js:1120-1289 | a flow is selected exactly when it fits beside those before it; selected plus omitted is all; caps met; bytes and tokens are recorded exactly when the first flow too big exceeds each |
| RiskSelection.CandidateMeans | src/context-pack/assemble.js:1120-1170 | a candidate has the rank, the first eight steps, and of each the first three call sites of its flow |
| RiskSelection.ChosenMeans | src/context-pack/assemble.js:1120-1289 | the selected flows are made, in order and one each, from exactly the chosen ones |
| RiskSelection.CapsMean | src/context-pack/assemble.js:1120-1289 | five flows, 24576 bytes and 2048 tokens |
| RiskSelection.GreedyIsBest | src/context-pack/assemble.js:1120-1289 | any other choice within the caps first differs by passing over a flow the selection takes |
| RiskSelection.NothingFitsBeside | src/context-pack/assemble.js:1120-1289 | no omitted flow could be added to the final selection within the caps |
| CommentScanner.StylesUsable | src/index/comments.js:24-128 | every comment style has non-empty markers, and line markers without newlines |
| CommentScanner.StyleMarkers | src/index/comments.js:24-128 | which markers and quotes which style has; every end marker mirrors its start |
| CommentScanner.StylesOrdered | src/index/comments.js:24-128 | of two markers that can match at one place the longer is tried first; only slash-star blocks have stars stripped |
| CommentScanner.FirstBlockMeans | src/index/comments.js:373-378 | the block marker taken is the first of the list that starts there |
| CommentScanner.FirstLineMeans | src/index/comments.js:398-402 | so is the line marker |
| CommentScanner.BlockIsWhole | src/index/comments.js:373-397 | jumping to the end marker covers just what the reference lexer reads as one block comment |
| CommentScanner.LineIsWhole | src/index/comments.js:398-419 | jumping to the newline covers just what it reads as one line comment |
| CommentScanner.ScanComments | src/index/comments.js:351-426 | the comments are exactly the reference lexer's: whole, in order, covering every comment character and no other; each has the first marker of its list that starts there, and ends with the first end marker past it |
| CommentScanner.ScannedUnique | src/index/comments.js:351-426 | the reference lexer leaves only one possible list of comments |
| CommentScanner.InterleaveRebuilds | src/index/comments.js:351-426 | putting the comments back between the gaps rebuilds the text |
| CommentScanner.HasPotentialCommentMarkers | src/index/comments.js:428-440 | answers yes exactly when some non-empty marker occurs in the text |
| CommentScanner.PreCheckSound | src/index/comments.js:428-440 | whenever the full scan finds a comment the pre-check answers yes |
| CommentLines.SplitLinesWithOffsets | src/index/comments.js:246-257 | the lines are newline-free and stand where their offsets say, each just past a newline |
| CommentLines.RejoinLines | src/index/comments.js:246-257 | rejoining the lines with newlines gives the raw comment |
| CommentLines.LineStands | src/index/comments.js:246-257 | line k stands in the raw comment at its offset, and the next follows one character later |
| CommentLines.SpaceCodes | src/index/comments.js:276-299 | the white space stripped, by code |
| CommentLines.FrontMeans | src/index/comments.js:283-296 | what comes off a line is its white space, with stars stripped also a star after it and one space after that |
| CommentLines.StripLineComment | src/index/comments.js:259-270 | marker and one space come off, and the offset is where the rest stands |
| CommentLines.StripBlockLine | src/index/comments.js:276-299 | a line is marker, stripped front, content and end marker, and the content starts at its offset |
| CommentLines.StripBlockCommentLines | src/index/comments.js:272-302 | so for every line, start marker on the first only and end marker on the last only |
| CommentLines.StrippedIsPart | src/index/comments.js:272-302 | the content is the part of its line that its offset points at |
| CommentLines.ContentLines | src/index/comments.js:469-485 | the content lines are the stripped lines of the comment, and the source text at each content offset is that content, inside the comment, line after line |
| ConfigSegments.NextFence | src/index/comments.js:513-519 | finds the first fence line after a line, or says there is none |
| ConfigSegments.IsFenceMeans | src/index/comments.js:508-516 | a fence is white space, three backticks and anything |
| ConfigSegments.OpensMeans | src/index/comments.js:508-511 | a fence opens json, yaml or toml exactly when the word after its backticks is that name or yml, in any case |
| ConfigSegments.EnclosesMeans | src/index/comments.js:506-548 | a pair of lines encloses a segment exactly when both are fences, none is between, the language, the span and the parsed block are as the lines say |
| ConfigSegments.SegmentAt | src/index/comments.js:506-548 | a line starts a segment exactly when it opens a language, a later fence closes a non-empty span, and the block parses |
| ConfigSegments.FindSegments | src/index/comments.js:506-548 | all such pairs of consecutive fences are found, in order, each with its language and span |
| ConfigSegments.SegmentsInOrder | src/index/comments.js:506-548 | segments are non-empty, increasing, disjoint and inside their comment |
| ConfigSegments.NoMarkersNoComments | src/index/comments.js:457-459 | a text without markers scans to no comments, so the early return loses none |
| ConfigSegments.ContentTextMeans | src/index/comments.js:469-485 | a comment's text is its content lines joined, without the white space around |
| ConfigSegments.WorkOn | src/index/comments.js:463-549 | one comment gets exact content lines; kept, all its segments in order and inside it; dropped, none |
| ConfigSegments.ExtractComments | src/index/comments.js:442-551 | the comments are the kept ones of a full scan, content lines exact, and all segments together ordered, disjoint and each inside a kept comment |

## Left out

- Traversal result cache: keyed on data that is not part of this model, and stopped runs depend on time.
- Candidate lists: filters, neighbour lookup, symbol resolution and the candidate cap on references are folded into one function from node to candidate list.
- Order of presentation: the found nodes are a map and the paths stay in target order; the final sorts of both are not modelled.
- Node metadata, warnings, statistics and the detail fields of truncation records: a record is only the name of its cap.
- Cap keys of edges: the key used under the edge cap is any function of the edge; `CountedEdges.ImportCapKey` is the indexed one for import edges, with numbers as arbitrary strings.
- Refs.NormalizeTwice: the path relative to the repository root is an arbitrary function on absolute paths inside it, required only to change them.
- Refs.KeyNormalizedTwice: the same.
- Refs.KeyNormal: the same.
- StoredKeys.DistancesShortestWhen: the root is any function that is defined on absolute paths only; `StoredKeys.Receivable` says nothing about the candidates of chunks and symbols.
- Strings with lone surrogates: characters are Unicode scalar values.
- Excerpts.ResolveExcerpt: files read as byte sequences; file system errors, path checks, hashes and the excerpt caches in front of the read are left out.
- RiskSelection.SelectFlows: a flow is its rank and its call sites, and serialized sizes are two arbitrary functions of the candidate; ranking, partial flows, step and call-site records and status codes are left out.
- CsrTranspose.BuildReverseAdjacencyCsr: takes offsets that are monotone from 0 and within the edge array, as the forward builder makes them, and fewer than 2^32 edges and offsets.
- ConfigSegments.ExtractComments: the length, noise and type tests and the JSON, YAML and TOML parsers are arbitrary predicates; the choice of a style by language or extension and line numbers are left out.
- Comment offsets count characters; the source counts UTF-16 code units. The scanner and the strippers never split or combine characters, so the claims are the same on either count.
