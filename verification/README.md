# Verified models of the pro-thesis core

This project models the parts of pro-thesis whose answers rest on an argument, and proves the
arguments. Paths below are relative to the repository's root.

**The linearizability checker** (`cmd/thesis-oracle-linearizable`). `Register` defines what it
means for operations on a last-write-wins register to be linearizable when the register's first
value is unknown. `EventList` and `LinkTable` are the sorted event list and its pointer surgery,
`SearchTree` is the argument about the search tree (what a dead spot is, when a memo hit is safe,
why reaching a return means backtracking), and `Searcher` is the search itself: real nodes with
`prev` and `next` pointers, the stack, the bit array (`Bitset`) and the bounded memo (`Memo`, with
an arbitrary hash). `Locality` proves the theorem that justifies searching each key on its own.
`RawHistory` says what a recorded history says about the operations that really happened;
`Operations`, `HistoryEdits` and `Load` are the pairing and the ok / fail / info rules and prove
how far they preserve that meaning, `Clamping` and `ClampWindows` when a clamped completion costs
exactness; `Check` is the loop over the keys with its shared budget of
states. `Json` is the canonical text by which values are compared.

**The clusterings** (`internal/cluster`). `Gower` makes the distance matrices. `Dbscan` is
DBSCAN. `Reachability`, `Prim`, `SpanningPaths` and `SingleLinkage` are HDBSCAN's core
distances, Prim's algorithm and the union-find hierarchy, `CondensedTree` is the walk, `Leaving`
what it records said without walking, `Antichains` and `Selection` the excess-of-mass selection,
and `Hdbscan` the whole run. `Ward` is Ward's agglomeration, `WardDistance` what its distances
are, `Dendrogram` what a list of merges means, `Cuts` the three ways of cutting one.

**The control plane** (`internal/control`, `internal/bisect`). `Bisect` is the binary search with
skips, `SlotPool` the worker slots and a batch of parallel worlds, `WorldRun` one world from BOOT
to TEARDOWN, `Runner` the budget, the world loop and the verdict, `Outcomes` the severity order,
and `PhaseLog` the phase log.

Reading conventions. Distances are real numbers and merge heights are kept squared, so rounding is
not part of the model. Clocks, cancellation, measurements of revisions and everything else outside
the program are parameters: a value per reading or per step, so that a theorem about all parameters
is a theorem about all runs. What Go's library does with numbers and strings is a parameter of
`Json` too, under the assumptions named there.

## Where the code and its comments part

- `internal/bisect/bisect.go:357-368` explains an outcome in which every surviving revision was
  skipped. Once the bad end has measured bad the walk always reaches a revision that answers, so
  that outcome does not occur (`Bisect.CheckedEndAnswers`). What does occur is a range that no test
  narrows any further, because `hi` is measured again and again. Over a monotone history, whatever
  its end measures, the search ends exactly when the revision before the first one that measures
  bad measures good, if there are such revisions (`Bisect.EndsExactlyWhen`); with a bad end that
  measures bad that is also when it finds an answer (`Bisect.FindsExactlyWhenPinned`).
  `Bisect.SkippedNeverEnds` and `Bisect.SkippedAround` are the smallest examples.
- With the endpoint check switched off, the range of a monotone history can close beyond its upper
  end exactly when the trusted bad end would have measured good and the revision before it is
  skipped (`Bisect.EndIsPassedExactly`). `lo` is then one past the last candidate, and
  `candidates[lo]` at `internal/bisect/bisect.go:377` is out of range.
- Clamping a completion to its invoke (`cmd/thesis-oracle-linearizable/load.go:592-597`) is sound
  for violations but not always for ok. Whether it is depends on the recorded times alone: the
  rules are exact for everything that may have been done at those times exactly when the clamps are
  `Harmless`, that is, when no operation that may have happened was invoked inside the time a clamp
  hides, unless the clamped operation was invoked before every other completed one
  (`ClampWindows.ExactWhenHarmless`). Otherwise some choice of names, keys and values at those
  times is accepted and has no explanation (`ClampWindows.SomethingAccepted`). A window that hides
  operations on other keys only does harm too: locality needs intervals that are not turned inside
  out (`ClampWindows.AcrossKeys`).
- `cmd/thesis-oracle-linearizable/value.go:140-144`: two spellings of one integral number agree
  exactly below 2^53 (`Json.SpellingsAgreeBelowLimit`).
- `internal/control/parallel.go:401-403` cannot refuse: a non-positive setting has become the
  default by then (`Slots.Validate`).

## Model

| member | source | states |
|---|---|---|
| Register.CanFinishStep | cmd/thesis-oracle-linearizable/search.go:10-23 | the search's branching is complete: pending operations can all be placed iff none is left, or one that nothing pending must precede can be placed and the rest after it |
| Register.UndeterminedStartIsSomeStart | cmd/thesis-oracle-linearizable/search.go:24-31 | a run is legal from an undetermined register iff some initial value and some choice of applied writes make it a run of the plain register |
| Register.PrecedesEveryMoment | cmd/thesis-oracle-linearizable/search.go:131-142 | an operation has to precede another iff every moment of its interval is before every moment of the other's |
| Locality.LocalityTheorem | cmd/thesis-oracle-linearizable/load.go:394-403 | a history of single-key operations is linearizable iff every key's operations are |
| Locality.Merge | cmd/thesis-oracle-linearizable/load.go:394-403 | real-time orders of the separate keys can always be interleaved into one real-time order of the whole history |
| EventList.ReturnBeforeCall | cmd/thesis-oracle-linearizable/search.go:131-142 | on the initial list a return stands before another operation's call iff it is strictly earlier in real time, with missing ends at minus and plus infinity; an operation's call stands before its own return |
| EventList.TrackOf | cmd/thesis-oracle-linearizable/search.go:150-174 | sorting the events of well-formed operations gives such a list |
| Search.BuildList | cmd/thesis-oracle-linearizable/search.go:176-196 | the built nodes are the sorted events, doubly linked in order, each call paired with its return |
| Search.Node.Lift | cmd/thesis-oracle-linearizable/search.go:85-91 | lifting changes exactly the pointers that unlink the call and its return |
| Search.Node.Unlift | cmd/thesis-oracle-linearizable/search.go:93-99 | unlifting changes exactly the pointers that put the two back |
| LinkTable.LiftThreads | cmd/thesis-oracle-linearizable/search.go:85-99 | after a lift the list is exactly the live events without the operation's two, and the matching unlift restores every pointer |
| LinkTable.UnliftLast | cmd/thesis-oracle-linearizable/search.go:290-296 | undoing lifts in stack order restores the whole table, pointer for pointer |
| SearchTree.AlternativesAreSteps | cmd/thesis-oracle-linearizable/search.go:218-240 | the alternatives tried are exactly the register values the operation can leave |
| SearchTree.PassedIsDead | cmd/thesis-oracle-linearizable/search.go:274-281 | an operation the cursor has passed cannot come next: placing it leads nowhere |
| SearchTree.DeadEnd | cmd/thesis-oracle-linearizable/search.go:283-289 | at the tail, or at the return of an operation not yet placed, no completion of the current choices exists |
| SearchTree.EmptyList | cmd/thesis-oracle-linearizable/search.go:258-260 | the list is empty iff every operation has been placed |
| SearchTree.MemoHit | cmd/thesis-oracle-linearizable/search.go:412-420 | a pair that is already recorded when it is met is dead, never on the current stack, so pruning it loses nothing |
| SearchTree.FullTrail | cmd/thesis-oracle-linearizable/search.go:256-260 | a stack that places every operation is a linearization |
| SearchTree.EmptyTrail | cmd/thesis-oracle-linearizable/search.go:287-289 | a dead end with an empty stack means no linearization exists |
| Memoisation.Memo.Insert | cmd/thesis-oracle-linearizable/search.go:413-429 | for every hash the answer is new iff the pair was not recorded, and a full table records nothing but keeps answering new |
| Bitset.SetBit | cmd/thesis-oracle-linearizable/search.go:355-355 | the set of operations in the words gains exactly that operation |
| Bitset.ClearBit | cmd/thesis-oracle-linearizable/search.go:356-356 | the set loses exactly that operation |
| Bitset.WordsDetermined | cmd/thesis-oracle-linearizable/search.go:364-374 | two bit arrays of one length holding the same operations are equal word by word |
| Search.LastAppliedHolds | cmd/thesis-oracle-linearizable/search.go:245-247 | the write named as having established the register's value was placed and wrote that value |
| Search.LastAppliedIsLast | cmd/thesis-oracle-linearizable/search.go:245-247 | it is the last choice that left the register holding its own write, and none is named iff there is none |
| Search.MemoLimit | cmd/thesis-oracle-linearizable/search.go:400-410 | as many entries as the bytes have room for, between 1024 and 2^30 |
| Search.Searcher.constructor | cmd/thesis-oracle-linearizable/search.go:143-212 | a new search is at the root: full list, empty stack, empty bit array, empty memo of the stated size |
| Search.Searcher.NoteBest | cmd/thesis-oracle-linearizable/search.go:338-349 | the snapshot is of a real partial linearization at least as deep as the current one |
| Search.Searcher.TryFrom | cmd/thesis-oracle-linearizable/search.go:308-334 | it takes an untried alternative and counts one state, or changes nothing and every alternative of the operation is dead here |
| Search.Searcher.Retreat | cmd/thesis-oracle-linearizable/search.go:290-296 | popping undoes list, register, bit array, depth and last write together, and marks the popped alternative as tried |
| Search.Searcher.Run | cmd/thesis-oracle-linearizable/search.go:250-304 | linearizable only with a linearization on the stack, violated only when none exists, exhausted only at a ceiling; at most the permitted states are explored, and with an unfilled memo a ceiling above the bound is never reached |
| Search.TableSize | cmd/thesis-oracle-linearizable/search.go:412-429 | the memo never holds more than the register's values times the subsets of the operations |
| Search.StatesBoundAtMost | cmd/thesis-oracle-linearizable/search.go:17-18 | that is at most 2^n times one more than the operations |
| Counting.SpotsBound | cmd/thesis-oracle-linearizable/search.go:17-18 | there are at most that many pairs of a register value and a set of placed operations |
| HistoryEdits.DropRead | cmd/thesis-oracle-linearizable/load.go:535-541 | dropping a read keeps a linearizable history linearizable |
| HistoryEdits.AddRead | cmd/thesis-oracle-linearizable/load.go:535-541 | a read whose result nobody saw can be added back with some result |
| HistoryEdits.AddMaybe | cmd/thesis-oracle-linearizable/load.go:574-577 | an indeterminate write that may never have happened can be added to any linearizable history |
| HistoryEdits.DecideMaybe | cmd/thesis-oracle-linearizable/load.go:574-577 | an indeterminate write in a linearizable history either can be left out or happened at some time after its invoke |
| HistoryEdits.Replace | cmd/thesis-oracle-linearizable/load.go:584-600 | an operation can give way to one that does the same to its register and of which real time asks no more |
| HistoryEdits.Loosen | cmd/thesis-oracle-linearizable/load.go:584-600 | widening an operation's interval keeps a linearizable history linearizable |
| Operations.RulesLoseNoExplanation | cmd/thesis-oracle-linearizable/load.go:505-603 | a recorded history with an explanation is never turned into operations without one, orphans and clamps included |
| Operations.RefusedExactly | cmd/thesis-oracle-linearizable/load.go:505-575 | on the record fields: an operation is refused iff an ok read's value is unreadable, or what was to be written is unreadable or on neither record |
| Operations.DroppedExactly | cmd/thesis-oracle-linearizable/load.go:505-545 | which operations are dropped: failed ones, reads that did not return, reads that returned nothing |
| Operations.KeptExactly | cmd/thesis-oracle-linearizable/load.go:546-603 | what a kept operation carries: key, times and value of its records, a write's value being the completion's if it has one and else the invoke's |
| Operations.UnclampedIsExplained | cmd/thesis-oracle-linearizable/load.go:505-603 | without clamped completions a linearization of the built operations names what happened in the recorded history |
| Clamping.RulesAreExact | cmd/thesis-oracle-linearizable/load.go:505-603 | when the clamps are harmless the recorded history has an explanation iff the built operations are linearizable |
| ClampWindows.ExactWhenHarmless | cmd/thesis-oracle-linearizable/load.go:592-597 | for given recorded times and completions, the rules are exact whatever names, keys and values were recorded iff the clamps are harmless |
| ClampWindows.SomethingAccepted | cmd/thesis-oracle-linearizable/load.go:592-597 | for every times at which a clamp does harm, some operations at those times are accepted and have no explanation |
| ClampWindows.NeitherOrder | cmd/thesis-oracle-linearizable/load.go:592-597 | two completed operations each recorded as ending before the other began leave no explanation, whatever they did and whatever else happened |
| ClampWindows.AcrossKeys | cmd/thesis-oracle-linearizable/load.go:394-403 | on whatever keys, two completed writes each recorded as ending before the other began are accepted and have no explanation |
| ClampWindows.ClampingIsNotExact | cmd/thesis-oracle-linearizable/load.go:592-597 | there are such histories: a write recorded as ending before it began, and something invoked in between |
| Load.Pair | cmd/thesis-oracle-linearizable/load.go:184-249 | every op id gets its one invoke and its one completion in first-seen order, and records, markers and operations are counted exactly; only unpairable records are refused, or any once the deadline has passed |
| Load.PairedIsPairable | cmd/thesis-oracle-linearizable/load.go:184-249 | nothing unpairable is paired |
| Load.PairsAreHistory | cmd/thesis-oracle-linearizable/load.go:214-239 | what pairing returns is determined by the records: it is the history they record |
| Load.InvokesAre | cmd/thesis-oracle-linearizable/load.go:184-239 | the records that belong to an id |
| RawHistory.NamedByRecords | cmd/thesis-oracle-linearizable/load.go:404-463 | the names and keys of an operation are those on its two records |
| Load.AcceptableIsSingleKeyed | cmd/thesis-oracle-linearizable/load.go:404-463 | an operation passes the precondition iff its records make it a read or a write of exactly one key |
| Load.CheckPrecondition | cmd/thesis-oracle-linearizable/load.go:404-463 | no refusal iff every operation passes |
| Load.BuildOperations | cmd/thesis-oracle-linearizable/load.go:505-610 | the operations kept are exactly those the rules keep, at least one determinate read among them; every count is the number of operations it is named after |
| Check.SharesNeverShrink | cmd/thesis-oracle-linearizable/check.go:335-340 | while every remaining key can have a state, the next share is at least the last one, however much of it was spent |
| Check.Share | cmd/thesis-oracle-linearizable/check.go:359-362 | as many states as an equal share has, rounded down, and never less than one |
| Check.KeyDeadline | cmd/thesis-oracle-linearizable/check.go:363-366 | the last moment within the common deadline and within an equal share of the time left |
| Check.TimeNeverShrinks | cmd/thesis-oracle-linearizable/check.go:335-368 | a key that keeps to its time leaves the next key at least as much |
| Check.Budget.Slice | cmd/thesis-oracle-linearizable/check.go:347-368 | shares are refused exactly when no states or no time are left; a key may run until exactly the moments that are not past the common deadline nor past its equal share of the time left |
| Check.CheckKey | cmd/thesis-oracle-linearizable/check.go:83-87 | one key's answer is a fact about that key; exhaustion needs an expired clock or a ceiling below what the key can need |
| Check.CheckOperations | cmd/thesis-oracle-linearizable/check.go:65-141 | ok and violated are facts about the whole multi-key history, the states spent never exceed the total, and no key is left unfinished when an equal share suffices for each |
| Check.CheckTwice | cmd/thesis-oracle-linearizable/check.go:57-141 | two runs with different ceilings, clocks, memo sizes and hashes never contradict each other |
| Check.CheckHistory | cmd/thesis-oracle-linearizable/check.go:57-141 | from records to answer: violated means the recorded history has no explanation, ok means it has one unless a clamp does harm; an answer is given only about records that pair into buildable operations with a determinate read, and then it is withheld only for time or a ceiling below what the keys can need |
| Json.WriteCanonical | cmd/thesis-oracle-linearizable/value.go:81-136 | the buffer gains the value's canonical text and nothing else |
| Json.CanonicalNumber | cmd/thesis-oracle-linearizable/value.go:145-156 | the text written is the number's text, which the next three rows determine |
| Json.NumberTextExactly | cmd/thesis-oracle-linearizable/value.go:145-156 | 64-bit decimals are written as they are; anything else by its nearest float, which is a decimal iff it is an integer below 2^53 and else no integer's text; and as spelled when no float is near |
| Json.RoundedAlike | cmd/thesis-oracle-linearizable/value.go:149-154 | two numbers that are not 64-bit decimals have one text iff one float is nearest to both |
| Json.PlainAndRounded | cmd/thesis-oracle-linearizable/value.go:146-152 | a 64-bit decimal and another number have one text iff that decimal is below 2^53 and is the float nearest to the other |
| Json.DigitsEvaluate | cmd/thesis-oracle-linearizable/value.go:147-147 | decimal digits evaluate to their number, without leading zeros |
| Json.ObjectText | cmd/thesis-oracle-linearizable/value.go:105-131 | members stand in the order of their keys whatever order they come in |
| Json.TextIsCanonical | cmd/thesis-oracle-linearizable/value.go:12-21 | two values have one text iff they are equal up to the order of object members and the reduction of numbers |
| Json.ParseValue | cmd/thesis-oracle-linearizable/value.go:81-136 | a value's text can be read off the front of any text in one way only |
| Json.ReorderingKeepsText | cmd/thesis-oracle-linearizable/value.go:110-115 | reordering an object's members does not change its text |
| Json.NumbersUnambiguous | cmd/thesis-oracle-linearizable/value.go:138-156 | two numbers have one text iff they reduce to the same number |
| Json.SpellingsAgree | cmd/thesis-oracle-linearizable/value.go:58-59 | every spelling of an integral number below 2^53 gets that integer's decimal text |
| Json.SpellingsAgreeBelowLimit | cmd/thesis-oracle-linearizable/value.go:138-156 | a plain and another spelling of one 64-bit integer agree iff its magnitude is below 2^53 |
| Gower.ComputeRanges | internal/cluster/gower.go:26-49 | in every numeric field some two members of the population differ by the range, and no two by more |
| Gower.RangesOnce | internal/cluster/gower.go:26-49 | that determines the ranges |
| Gower.DistanceIsMetric | internal/cluster/gower.go:70-82 | on its own population the distance is a metric between 0 and 1, and 0 only between equal feature vectors |
| Gower.EveryVariableCounts | internal/cluster/gower.go:70-82 | the distance is the sum of what each variable contributes on its own |
| Gower.NameApart | internal/cluster/gower.go:51-56 | a name that differs contributes an eighth |
| Gower.MeasureApart | internal/cluster/gower.go:58-67 | a measure contributes an eighth of the gap's share of the range |
| Gower.DistanceMatrix | internal/cluster/gower.go:86-101 | every entry is the Gower distance on the population's own ranges; the matrix is symmetric, in [0,1], 0 exactly between equals, and obeys the triangle inequality |
| Distances.SortedNeighbors | internal/cluster/dbscan.go:23-38 | every other point once, by distance and then index |
| Distances.NeighborsWithin | internal/cluster/dbscan.go:50-57 | stopping at the first point farther than eps collects exactly the points within eps |
| Dbscan.Expand | internal/cluster/dbscan.go:74-87 | the queue loop terminates and settles everything reachable from the core point it started with |
| Dbscan.CoreCounts | internal/cluster/dbscan.go:50-57 | a core point has at least minPts points within eps, itself included |
| Dbscan.Cluster | internal/cluster/dbscan.go:42-91 | two core points share a label iff a chain of core points within eps joins them; any other point is noise iff no core point is within eps, and otherwise carries the smallest label among those; clusters are numbered from 0 by their smallest core points |
| Reachability.CoreDistances | internal/cluster/hdbscan.go:70-78 | at least k other points are within the core distance and fewer than k are strictly nearer |
| Prim.NearestOutside | internal/cluster/hdbscan.go:104-112 | the nearest vertex outside the tree, the smallest of equally near ones |
| Prim.SpanningTree | internal/cluster/hdbscan.go:91-125 | all vertices are reached, each by the lightest edge that left the vertices before it |
| SpanningPaths.Chain | internal/cluster/hdbscan.go:91-125 | tree edges no heavier than t already link two vertices when no tree edge added between them is heavier than t |
| SpanningPaths.JoinedMeans | internal/cluster/hdbscan.go:91-125 | whatever a walk of mutual-reachability edges up to t joins, tree edges up to t join |
| SpanningPaths.Separates | internal/cluster/hdbscan.go:166-176 | the tree has no cycle: an edge's ends are on different sides of it, and no other edge crosses |
| SingleLinkage.SortEdges | internal/cluster/hdbscan.go:127-144 | the same edges, by weight, then smaller end, then larger end |
| SingleLinkage.SortedByWeight | internal/cluster/hdbscan.go:128-144 | lighter edges first, ties by the lower and then the upper end |
| SingleLinkage.TwoTrees | internal/cluster/hdbscan.go:166-176 | the two ends of the next edge are never in one tree already |
| SingleLinkage.MeetAt | internal/cluster/hdbscan.go:166-176 | an edge's weight is the smallest possible maximum over all walks between the two trees it joins |
| SingleLinkage.Hierarchy | internal/cluster/hdbscan.go:145-177 | a binary tree over all points: disjoint sides, exact sizes, heights never falling towards the root, every height minimax between its sides |
| Hdbscan.HeightIsMinimax | internal/cluster/hdbscan.go:127-177 | the height at two points' lowest common ancestor is the smallest possible maximum mutual-reachability weight over all walks between them |
| CondensedTree.PointsUnder | internal/cluster/hdbscan.go:179-193 | exactly the points under the node, ascending |
| CondensedTree.ContainsPoint | internal/cluster/hdbscan.go:331-345 | found iff the point is under the node |
| Hdbscan.Condenser.Walk | internal/cluster/hdbscan.go:205-237 | the walk never reaches a leaf; the cluster gains exactly one exit for each point under the node, at the height where the point leaves, no earlier exit changes, and the new clusters are the big sides of the node it ends at |
| CondensedTree.OneLambda | internal/cluster/hdbscan.go:31-38 | exits and births are the inverses of heights, or the literal cap where the height is zero, and that determines them |
| Leaving.LeavesAtIs | internal/cluster/hdbscan.go:206-238 | a point leaves a cluster at the highest join over it at which it does not stay with the only side of at least min points |
| Leaving.EndingIs | internal/cluster/hdbscan.go:206-238 | a cluster ends at the highest join of at least min points with both or neither side that big |
| Hdbscan.Condenser.Condense | internal/cluster/hdbscan.go:195-237 | every cluster of the finished tree has exactly one exit per point under it and the children its last split gives it |
| Selection.KidsBranch | internal/cluster/hdbscan.go:212-220 | clusters inside different children are different |
| Selection.PointsApart | internal/cluster/hdbscan.go:275-292 | two clusters, neither inside the other, share no point |
| Hdbscan.Condenser.Stability | internal/cluster/hdbscan.go:239-247 | the sum over the cluster's points of how long each stays, in whatever order they are visited |
| Selection.StabilityIs | internal/cluster/hdbscan.go:240-247 | the sum of the exits less the birth once per point |
| Hdbscan.Condenser.MarkDeselected | internal/cluster/hdbscan.go:250-256 | exactly the flags inside the cluster are cleared |
| Hdbscan.Condenser.SelectEom | internal/cluster/hdbscan.go:257-273 | the flags set inside the cluster form an antichain worth the returned value, which is the best value of the subtree; it is made of exactly the clusters that are worth at least what can be selected inside them and are inside no other such cluster |
| Antichains.BestIsMost | internal/cluster/hdbscan.go:14-16 | no antichain inside a cluster is worth more than the best value |
| Antichains.TopMostOwn | internal/cluster/hdbscan.go:258-275 | a cluster worth at least what can be had inside it is the only winner that is inside no other; otherwise the choice is its children's |
| Hdbscan.NoneWorthMore | internal/cluster/hdbscan.go:249-273 | no set of clusters, none inside another, is worth more than the selected ones |
| Hdbscan.Condenser.Gather | internal/cluster/hdbscan.go:282-291 | exactly the selected clusters, each once, with their points |
| Selection.SortSelected | internal/cluster/hdbscan.go:292-292 | the same clusters by smallest point |
| Hdbscan.Condenser.ReadExits | internal/cluster/hdbscan.go:294-315 | every member has an exit of its own, so the search of the children is never needed; the largest is found |
| Hdbscan.Condenser.LabelOne | internal/cluster/hdbscan.go:316-326 | exactly the members get the label, with probabilities in (0,1] that are their exits as fractions of the largest |
| Hdbscan.OneLabelEach | internal/cluster/hdbscan.go:294-328 | a point has a label iff it is a point of a selected cluster, and then that one's only; noise has probability 0 |
| Hdbscan.Cluster | internal/cluster/hdbscan.go:53-329 | too few points are all noise; otherwise the labels are those of a most valuable antichain of the condensed single-linkage tree |
| UnionFind.Find | internal/cluster/hierarchy.go:235-242 | path halving returns the representative and changes none, and terminates |
| UnionFind.JoinRoots | internal/cluster/hierarchy.go:246-246 | hanging one root under another joins exactly their two groups and makes no cycle |
| Ward.LessMembers | internal/cluster/hierarchy.go:140-149 | lexicographic order of the concatenated member lists, a shorter prefix first |
| Ward.ClosestPair | internal/cluster/hierarchy.go:62-73 | no active pair is nearer than the one kept, ties decided by member lists |
| Ward.NewRow | internal/cluster/hierarchy.go:79-87 | Lance-Williams distances from the two retiring clusters to every one that stays |
| Ward.LanceWilliamsBound | internal/cluster/hierarchy.go:84-86 | the coefficients sum to one: a merged cluster is no nearer to another than its two parts were to each other |
| WardDistance.UpdateIsWard | internal/cluster/hierarchy.go:79-87 | the Lance-Williams update of Ward distances, in closed form over the distances of the points, is the Ward distance of the union |
| WardDistance.D2IsWard | internal/cluster/hierarchy.go:35-109 | on a symmetric matrix the distance computed for two clusters that are there together is their Ward distance |
| WardDistance.GreedyIsWard | internal/cluster/hierarchy.go:60-108 | every merge joins two clusters nearest in Ward distance, ties by their members, at that distance |
| Ward.GreedyNeverDecreases | internal/cluster/hierarchy.go:60-108 | merging a closest pair at every step of a symmetric matrix, heights never decrease |
| Ward.Ward | internal/cluster/hierarchy.go:35-109 | n-1 merges, each of exactly two clusters then present, each of a closest pair under the recursively defined Ward distance at that distance; on a symmetric matrix heights never decrease |
| Dendrogram.ClustersLeft | internal/cluster/hierarchy.go:216-218 | after k merges of an agglomeration exactly n-k clusters are left |
| Cuts.CutAtThresholdIndex | internal/cluster/hierarchy.go:224-261 | n-k ascending groups by smallest leaf that partition the leaves as the first k merges do |
| Cuts.CutClusters | internal/cluster/hierarchy.go:219-221 | a complete dendrogram is cut into exactly the number of groups asked for, from 1 to n |
| Cuts.AtMostIsDistance | internal/cluster/hierarchy.go:265-271 | it is distances that are compared with the threshold |
| Cuts.CutAtDistance | internal/cluster/hierarchy.go:265-271 | the merges applied are all those up to the first above the threshold, and when heights never decrease exactly those at or below it |
| Bisect.Bisection.Test | internal/bisect/bisect.go:302-320 | a test within the budget is recorded with its verdict; one beyond it is not made |
| Bisect.Bisection.Probe | internal/bisect/bisect.go:391-417 | revisions are asked outward from the middle, each once and only inside the range, until one answers |
| Bisect.WalkAsks | internal/bisect/bisect.go:386-390 | a walk that nothing answers has asked the whole range, and one that the upper end answers has asked everything below it |
| Bisect.OutwardNearestFirst | internal/bisect/bisect.go:391-417 | nearer revisions are asked first, and of two equally near the older one |
| Bisect.Bisection.Run | internal/bisect/bisect.go:350-382 | the loop computes the search function, within its budget of tests |
| Bisect.SearchIsHonest | internal/bisect/bisect.go:350-382 | a revision found measured bad or is the trusted bad end, and the one before it measured good or is the good end; a range given up as skipped was skipped throughout |
| Bisect.RangeHoldsFirst | internal/bisect/bisect.go:350-382 | over a monotone history the surviving range always holds the first bad revision, and a revision found is that one |
| Bisect.EndsExactlyWhen | internal/bisect/bisect.go:353-375 | over every monotone history a search without a budget ends iff the revision before the first that measures bad, if there are such, measures good; otherwise every budget runs out |
| Bisect.FindsExactlyWhenPinned | internal/bisect/bisect.go:353-375 | with a bad end that measures bad it then finds the first bad revision, and otherwise never an answer |
| Bisect.SkippedNeverEnds | internal/bisect/bisect.go:371-372 | one skipped revision before the bad end: no budget suffices |
| Bisect.FastWithoutSkips | internal/bisect/bisect.go:350-376 | without skips the search needs at most log2 of the number of candidates, rounded up |
| Bisect.CheckedEndAnswers | internal/bisect/bisect.go:324-349 | with a bad end that measured bad, the search finds an answer or runs out of budget |
| Bisect.EndIsPassedExactly | internal/bisect/bisect.go:353-377 | over a monotone history the range can close beyond its upper end iff that end measures good and the revision before it is skipped |
| Bisect.Bisect | internal/bisect/bisect.go:322-383 | the search's answer is given iff both ends measured as claimed, or were to be trusted; a wrong end is a false premise and a cancellation stops either test |
| Slots.Validate | internal/control/parallel.go:388-410 | accepted iff the workers fit the networks and the last port is at most 65535; the two network refusals exactly when they apply |
| Slots.NewSlot | internal/control/parallel.go:553-579 | a port for each node the slot's band has room for, consecutive from the band's start |
| Slots.AllocateSlots | internal/control/parallel.go:532-546 | slots are allocated iff the options are valid: one per worker, each with its port for every node its band has room for; no port is used twice, within a slot or by two, and all are between 1 and 65535 |
| Slots.SlotPool.Acquire | internal/control/parallel.go:900-932 | a free slot that nobody holds and was never retired; exhausted only when every slot is retired; waiting only while a world is in flight |
| Slots.SlotPool.Release | internal/control/parallel.go:934-941 | the slot is free again and nothing else changes |
| Slots.SlotPool.Retire | internal/control/parallel.go:945-951 | the slot leaves circulation and nothing else changes |
| Slots.ParallelRun.Dispatch | internal/control/parallel.go:640-663 | exactly one of: the next request starts on the first free slot; it never starts, iff the batch was cancelled; it gets no slot, iff none is free and waiting was cancelled or every slot is retired; or it waits for a world in flight |
| Slots.ParallelRun.Finish | internal/control/parallel.go:664-679 | the slot goes back only after a verified teardown |
| Slots.ParallelRun.Run | internal/control/parallel.go:635-681 | under every schedule every request gets exactly one outcome: it ran, or a cancellation or the retirement of every slot kept it from a slot; no two worlds in flight share a slot, no world is given a slot that an earlier one of this or an earlier batch left with its teardown unverified, and the batch reports an error iff some request got no slot |
| Outcomes.FoldIsWorst | internal/control/outcome.go:81-128 | a fold of outcomes is the worst of them and passes iff all pass |
| Outcomes.FoldAppend | internal/control/outcome.go:121-128 | the order of folding makes no difference |
| Outcomes.WeakestFirst | internal/control/outcome.go:101-119 | the severity order; what nobody declared is worse than anything |
| Outcomes.Outcome.Result | internal/control/outcome.go:138-153 | only a pass is a PASS, only a violation a FAIL; the other verdicts exactly for their outcomes, and no conclusion for the rest |
| WorldRun.FoldFindings | internal/control/runner.go:1575-1581 | folding findings passes iff all are ok and is a violation iff one is |
| WorldRun.World.PerturbAndHeal | internal/control/runner.go:1310-1386 | a perturbation that was compiled is healed in its phase, or left for the clean-up to heal |
| WorldRun.World.QuiesceAndAssert | internal/control/runner.go:1405-1582 | a clean world stays clean iff the driver drained, the world file was written and every oracle said ok, with at least one oracle |
| WorldRun.World.HealLate | internal/control/runner.go:1002-1009 | what is still to be healed is healed once, and failing to is a harness error |
| WorldRun.World.TearDown | internal/control/runner.go:1062-1127 | at most one teardown, skipped only for a project somebody else uses or one kept up with its handoff written; an unverified one is a harness error |
| WorldRun.World.Run | internal/control/runner.go:934-1582 | a world passes iff everything it needed was so, reports a violation iff it ran to its end and an oracle proved one, heals a compiled perturbation exactly once on every path, and stops its driver before its one teardown |
| Runner.BudgetForProfile | internal/control/budget.go:57-69 | a positive world count is what the gate requires; anything else is open-ended |
| Runner.ApplyCliOverrides | internal/control/budget.go:84-95 | what is over the profile's or the command line's limit is over the result's, so that nothing can be widened; any change is recorded as narrowing, and nothing else is |
| Runner.ExpiryOutcome | internal/control/budget.go:319-337 | a clean run that expired passes iff as many worlds finished as the gate requires |
| Runner.BuildVerdict | internal/control/verdict.go:107-163 | PASS iff the outcome is a pass and nothing was narrowed; a narrowed run's lock is never ok, an absent one stays absent |
| Runner.RunWorlds | internal/control/runner.go:485-541 | worlds run exactly as long as the budget, the clock and the context allow and none has proved a violation; the outcome passes iff every world that ran earned it and the run was not cancelled with budget left, and is a violation iff one world proved one |
| Runner.RanOnce | internal/control/runner.go:485-541 | that determines how many worlds run |
| Runner.Run | internal/control/runner.go:446-607 | PASS iff the budget is the profile's own, the run was not cancelled with budget left, every world earned its pass and at least as many finished as the gate requires |
| Phases.PhaseLog.Advance | internal/control/phase.go:100-143 | the refusals exactly when they apply; otherwise the open phase closes and the next opens at one reading, which for DRIVE is the origin |
| Phases.PhaseLog.Nest | internal/control/phase.go:151-176 | the refusals exactly when they apply; otherwise the phase opens inside the open one |
| Phases.PhaseLog.Unnest | internal/control/phase.go:181-196 | exactly the nested window closes, if there is one |
| Phases.PhaseLog.Finish | internal/control/phase.go:200-209 | every open window closes and no closed one changes |
| Phases.PhaseLog.Timings | internal/control/phase.go:254-279 | no timings before DRIVE; then every window in virtual milliseconds, an open one ending now |
| Phases.OrdinalIsPlace | internal/control/phase.go:100-143 | a phase's ordinal is its place in the lifecycle |
| Phases.InMs | internal/control/phase.go:254-279 | whole milliseconds since the origin, rounded down also before it |
| Phases.TimingsAreSound | internal/control/phase.go:85-99 | after any calls each phase is timed at most once and in order, DRIVE starts at 0, nested windows lie inside their primary ones, and primary windows meet exactly unless `Finish` came between |

## Left out

- Reading, decoding and writing: JSON and JSONL decoding, YAML, CSV, files, environment and flags. The models start from decoded records and end at the answer.
- Witness prose and explanation strings (`buildWitness`, `evidenceLine`, refusal texts). The snapshot they are made from is modelled and proved to be a real partial linearization.
- Wall time: clocks are sequences of readings, and the bisect budget is the number of tests it leaves time for.
- Search.Searcher.Run: a deadline may stop the search at any step that looks at the clock; whether it does is a parameter.
- Check.CheckOperations: keys are searched in the order they first occur instead of sorted. The status is the same for every order in which the keys finish; which key is named in a witness is not modelled.
- Load.BuildOperations: line numbers and process names, which only explanations use, are not carried.
- Sorting is insertion sort wherever the source calls its library.
- Floating-point rounding in the clusterings: distances are reals and Ward's heights are squares of the merge distances, so `sqrt` is not modelled.
- Ward.Ward: the inconsistency scores computed after the merges, and the heuristics that read them (`SelectCut`, medians, percentiles), have no sharp specification.
- Cuts.CutAtThresholdIndex: the merges have to be those of an agglomeration, as `Ward` returns them; groups are listed as they are met instead of collected in a map and sorted.
- Hdbscan.Cluster: the matrix has to be square, symmetric and non-negative off the diagonal, which `Gower.DistanceMatrix` provides; with a negative distance the source's marker for an unset key would be ambiguous.
- Hdbscan.Condenser.Walk: a cluster is an entry in one growing table and its children are places in it, instead of separately allocated records; hierarchy nodes are appended instead of preallocated.
- Dbscan.Cluster: the labels before the first cluster is opened, and `AutoEpsilon`, are not modelled.
- Json.WriteCanonical: an object is a list of members with distinct keys in any order, standing for the decoded map; what the library rounds, formats and escapes is a parameter, and theorems about texts assume that formatting and escaping can be read back.
- Bisect.Bisect: git, checkouts, builds, restoring the working tree and the records of the two endpoint tests, which the source does not stop for the wall budget either. A revision is assumed to measure the same each time.
- Slots.ParallelRun.Run: probing networks and ports, the check of ordinals, and sorting outcomes by ordinal. Batches use one pool one after another. Each attempt to acquire a slot is one step under the lock; waiting is trying again later.
- WorldRun.World.Run: what happens inside docker, the driver, telemetry, fault injection and the oracles; each is a step that succeeds or fails. Failures the source ignores are not modelled.
- Runner.Run: calibration arms, violations lists, timelines and writing the verdict file. A run is finite: the context is cancelled at the latest when the given environments run out, which covers every finite prefix of a run.
- Phases.PhaseLog.Advance: the marker's line and wall timestamp; a sink that fails makes the call report an error after the phase has opened, as in the source.
- Consensus labels, diagnosis, the taxonomy and the search engine above the runner: mostly single-loop facts.
