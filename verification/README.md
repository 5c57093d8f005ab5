# UDDSketch and its dictionaries, verified in Dafny

The library keeps a quantile sketch: items are counted in buckets whose ids grow with the logarithm of the value, the
number of buckets is bounded, and when the bound is exceeded buckets are folded together. The sketch for non-negative
values has one store of buckets; the sketch for values of either sign has two that share one mapping and one bound.
Below the store lie the ordered dictionaries (four balanced trees, a treap, a skip list) and an open-addressing hash
table. This project models both halves in the form the C code has, objects updated in place and loops over links, and
proves what they are for.

Three layers recur. A *specification* is a pure function or predicate on values (`Collapsed`, `Inserted`, `Removed` on
a store's state; `Fixed`, `LeftEased`, `Settled` on tree shapes; `WithEntry`, `Remaining` on the entries of a
dictionary). A *class or method* in the source's form is proved to do exactly that. *Lemmas* then say what the
specification means for a client, over every input and every run.

| files | what they hold |
|---|---|
| `Powers`, `BucketIdMapping` | gamma as an exact real, its integer powers, bucket ids without logarithms, the error of a representative |
| `Histogram`, `MapStore` | the map from id to count, its iterators, the three ways of folding, insertion, removal, resizing |
| `Survivors`, `StoreRefinement` | the items still present, and the store as their histogram at the current resolution |
| `PSketch`, `Accuracy`, `OrderIndependence`, `CollapseCounts` | the one-signed sketch, its guarantee over whole runs, what of it does and what does not depend on the order of insertions |
| `GSketch`, `SignedAccuracy` | the two-signed sketch and its guarantee over whole runs |
| `SignedOrder`, `SignedCounts` | the same questions of order for the two-signed sketch |
| `SignedRounds`, `LostRounds` | what the collapse counter of a uniform two-signed sketch counts, and a run that it miscounts |
| `Dictionary`, `StoreDictionary` | what an ordered dictionary does to its entries, and that this is what the store's map needs |
| `TreeCommon`, `TreeRemoval`, `TreeWalk`, `Weights` | nodes with parent links, rotations, descents, taking a node out, stepping, near searches, selection |
| `WbTree`, `HbTree`, `RbTree`, `PrTree`, `TrTree` | weight-balanced, height-balanced, red-black and path-reduction trees, and treaps |
| `HashTable2`, `SkipList` | the open-addressing table and the skip list |
| `Collections` | facts about finite sets |

How the heap is modelled. A tree object carries a ghost value, its *shape*: the tree of nodes with their fields. A
place in the tree is a *focus*: the shape below one link and the *path* above it. `Focused` says that the links, keys
and extra fields of every node on the heap are exactly those of path and shape, so parent links, key order and balance
are statements about values. The extra field is the weight, the balance, the colour or the priority. Freeing a node
means that it is no longer among the tree's nodes.

What the code needs of its callers appears as preconditions and nowhere else: a bound of at least 2 for the uniform
one-signed sketch and at least 4 for the uniform two-signed one, at least 1 and 2 for the low and high modes; a
non-empty store for a removal or for a minimum or maximum; a non-empty sketch for a quantile (an empty one-signed
sketch may be asked for any quantile but 0); `max_link >= 2` for insertion into a skip list.

What came out of the proofs that the code or its comments do not say:

- Whatever the bound, the loop of a uniform store ends exactly when there is a bucket for each occupied side of the gap
  between ids 0 and 1 (`MapStore.UniformLoopEnds`), and that of the two-signed sketch exactly when there is one for each
  of its four groups that is not empty (`GSketch.SignedLoopEnds`). With bound 1 the items 1 and gamma are enough for it
  never to end (`MapStore.BoundOneNeverEnds`), with bound 3 the items 1, gamma, -1 and -gamma
  (`GSketch.BoundThreeNeverEnds`).
- In the low and high modes the number of collapses depends on the order of insertions, although nothing else does. It
  is the same in every order if and only if at most one distinct id is too many
  (`CollapseCounts.CollapseCountOrderIndependent`); otherwise it lies between 1 and the number of ids too many, and
  both ends are reached (`CollapseCountRange`, `CollapseCountExtremes`). For the two-signed sketch the condition is the
  same on either side, with the room that the other side leaves (`SignedCounts.SignedCountOrderIndependent`).
- The collapse counter of a uniform two-signed sketch is the number of times gamma has been squared if and only if there
  is a sign of which some item was present at every overflow (`SignedRounds.CounterIsRounds`), so without removals it
  always is (`SignedRounds.InsertOnlyCounter`). Five negative items that overflow a bound of 4, are removed and are
  followed by five positive ones leave it too low (`LostRounds.CounterLosesRounds`).
- The hash table needs no free slot for a removal: a full table always has a slot that no probe passes over, namely
  the one that was filled last, and that is enough for putting the cluster back in (`HashTable2.HashTable2.Remove`).
- The comment of `tr_tree.c` (lines 31-40) describes a min-heap; the code keeps a max-heap, and so does the model.
- One collapse takes alpha to 2 alpha / (1 + alpha^2) (`BucketIdMapping.AlphaOfSquare`).

## Model

| member | source | states |
|---|---|---|
| BucketIdMapping.BucketIdUnique | libuddsketch/src/dds_bucket_id_mapping.c:52-57 | exactly one id has gamma^(id-1) < v <= gamma^id, so the id is determined without logarithms |
| BucketIdMapping.BucketIdMonotone | libuddsketch/src/dds_bucket_id_mapping.c:52-57 | larger values never get smaller ids |
| BucketIdMapping.BucketIdOfSquare | libuddsketch/src/dds_mapstore.c:129-134 | the id of v under gamma^2 is ceil(id under gamma / 2): folding buckets is the same as changing the mapping |
| BucketIdMapping.BucketIdAfterCollapses | libuddsketch/src/dds_mapstore.c:181-190 | after k collapses the id of every v is its original id halved, rounding up, k times |
| BucketIdMapping.AlphaOfSquare | libuddsketch/src/dds_bucket_id_mapping.c:45-50 | squaring gamma takes alpha to 2 alpha / (1 + alpha^2) |
| BucketIdMapping.BucketValueAccurate | libuddsketch/src/dds_bucket_id_mapping.c:69-74 | the representative of a bucket is within relative error alpha of every value of that bucket |
| BucketIdMapping.AddressableIdIsInt32 | libuddsketch/src/dds_bucket_id_mapping.c:85-115 | the ids of all addressable values fit in 32 bits |
| BucketIdMapping.RangeEnds | libuddsketch/src/dds_bucket_id_mapping.c:85-115 | the addressable minimum is the larger of gamma^INT_MIN and the least double, the maximum the smaller of gamma^INT_MAX and what keeps a representative below the greatest double |
| BucketIdMapping.HalvedOut | libuddsketch/src/dds_mapstore.c:129-130 | any 32-bit id is 0 or 1 after 32 halvings |
| BucketIdMapping.Mapping.constructor | libuddsketch/src/dds_bucket_id_mapping.c:35-43 | alpha and gamma start out describing the same resolution |
| BucketIdMapping.Mapping.Update | libuddsketch/src/dds_bucket_id_mapping.c:45-50 | after an update alpha is the one that belongs to the new gamma |
| BucketIdMapping.Mapping.GetBucketId | libuddsketch/src/dds_bucket_id_mapping.c:52-67 | the id returned is the bucket that holds the value |
| Histogram.Next | libuddsketch/src/dds_mapstore.c:338-358 | the iterator goes to the least key above, or off the end exactly when there is none |
| Histogram.Prev | libuddsketch/src/dds_mapstore.c:316-336 | the iterator goes to the greatest key below, or off the end exactly when there is none |
| Histogram.SumHalve | libuddsketch/src/dds_mapstore.c:123-140 | a uniform collapse loses no count |
| Histogram.HalveOneMore | libuddsketch/src/dds_mapstore.c:125-136 | folding bucket by bucket into a new dictionary gives the whole fold at once |
| Histogram.HalveReducesSpan | libuddsketch/src/dds_mapstore.c:184-189 | with three or more buckets a collapse brings the outermost id strictly closer to {0, 1}: why the loop ends though one collapse may merge nothing |
| MapStore.CollapsedFacts | libuddsketch/src/dds_mapstore.c:73-147 | in every mode a collapse keeps the sum of counts and their positivity, marks the store and lowers the termination measure |
| MapStore.Shrunk | libuddsketch/src/dds_mapstore.c:202-207 | the loop ends within the bound, with the same sum, and marks the store exactly when it collapsed |
| MapStore.ShrunkIsLeast | libuddsketch/src/dds_mapstore.c:202-207 | the loop stops at the first number of collapses that leaves no more than the bound |
| MapStore.UniformLoopEnds | libuddsketch/src/dds_mapstore.c:184-189 | for any bound the uniform loop ends if and only if the occupied sides of the gap between 0 and 1 fit into it |
| MapStore.BoundOneNeverEnds | libuddsketch/src/dds_mapstore.c:184-189 | with bound 1 the items 1 and gamma keep two buckets through any number of rounds, whatever gamma is |
| MapStore.UniformBoundOne | libuddsketch/src/dds_mapstore.c:184-189 | for bound 1 the uniform loop ends if and only if all ids are on one side of the gap between 0 and 1 |
| MapStore.InsertConserves | libuddsketch/src/dds_mapstore.c:149-195 | insertion keeps the total equal to the sum of positive counts and adds exactly its count |
| MapStore.RemoveConserves | libuddsketch/src/dds_mapstore.c:211-276 | a removal takes exactly its count, or, if and only if the bucket holds less, changes nothing |
| MapStore.RemovedFlags | libuddsketch/src/dds_mapstore.c:226-238 | a removal at or beyond the folded end that takes exactly what its bucket holds resets both flags, and no other removal touches either |
| MapStore.MapStore.Collapse | libuddsketch/src/dds_mapstore.c:73-147 | the object's collapse is the specified one |
| MapStore.MapStore.HalvedCopy | libuddsketch/src/dds_mapstore.c:124-138 | the copying loop builds the halved histogram |
| MapStore.MapStore.Insert | libuddsketch/src/dds_mapstore.c:149-195 | the object's insertion is the specified one, and the shared mapping ends at the store's resolution |
| MapStore.MapStore.PlaceNew | libuddsketch/src/dds_mapstore.c:160-180 | a new id beyond the folded end is counted at that end, any other gets its own bucket |
| MapStore.MapStore.Resize | libuddsketch/src/dds_mapstore.c:197-209 | resizing folds down to the new length, or nothing for stores that cannot be resized, and returns the number of buckets |
| MapStore.MapStore.Remove | libuddsketch/src/dds_mapstore.c:211-276 | the object's removal is the specified one; both flags are reset if and only if it drains the folded end |
| MapStore.MapStore.Aim | libuddsketch/src/dds_mapstore.c:216-254 | the bucket a removal takes from, and that the flags are reset exactly when it drains the folded end |
| MapStore.MapStore.GetMinBid | libuddsketch/src/dds_mapstore.c:294-303 | the least id stored |
| MapStore.MapStore.GetMaxBid | libuddsketch/src/dds_mapstore.c:305-314 | the greatest id stored |
| Survivors.CellOfSquare | libuddsketch/src/dds_mapstore.c:123-140 | the items of bucket b under gamma^2 are those of buckets 2b-1 and 2b under gamma |
| Survivors.UptoClamped | libuddsketch/src/dds_mapstore.c:160-180 | clamping ids at an end does not change how many items lie up to a bucket inside |
| Survivors.RankBelow | libuddsketch/src/dds_psketch.c:111-127 | the item of rank r in sorted order has an id of at most b if and only if r is below the cumulated count up to b |
| StoreRefinement.Cumulative | libuddsketch/src/dds_psketch.c:122-127 | cumulated bucket counts are cumulated item counts |
| StoreRefinement.HalveHolds | libuddsketch/src/dds_mapstore.c:123-140 | the halved histogram is the histogram of the same items under gamma^2 |
| StoreRefinement.FoldLowHolds | libuddsketch/src/dds_mapstore.c:78-99 | a low collapse gives the histogram of max(id, first bucket) |
| StoreRefinement.FoldHighHolds | libuddsketch/src/dds_mapstore.c:100-122 | a high collapse gives the histogram of min(id, last bucket) |
| StoreRefinement.ShrunkMatches | libuddsketch/src/dds_mapstore.c:181-190 | however often the loop folds, the store stays the histogram of its items at the mapping's new gamma |
| StoreRefinement.InsertRepresents | libuddsketch/src/dds_mapstore.c:149-195 | inserting an item makes the store the histogram of the items with it added |
| StoreRefinement.RemoveRepresents | libuddsketch/src/dds_mapstore.c:211-276 | removing an item still present, at whatever resolution it came in, makes the store the histogram without it |
| StoreRefinement.RemovedClamp | libuddsketch/src/dds_mapstore.c:222-238 | a removal that drains the folded end leaves a store exact for every item, and any other leaves the end where it was |
| StoreRefinement.EmptyEndIsExact | libuddsketch/src/dds_mapstore.c:226-238 | once nothing is left in the end bucket no surviving item was clamped |
| PSketch.NothingUpdated | libuddsketch/src/dds_psketch.c:36-60 | an update with a value below 0 or above the addressable maximum, or with a count of 0, changes nothing |
| PSketch.RemovalIsExact | libuddsketch/src/dds_psketch.c:36-53 | a removal of more than the zero band or the bucket holds changes nothing; any other takes exactly its count, from that one place |
| PSketch.NewRange | libuddsketch/src/dds_psketch.c:185-187 | the range of a new sketch: the larger of the minimum asked for and the mappable one, and the mappable maximum |
| PSketch.RankOf | libuddsketch/src/dds_psketch.c:111 | the rank is the one integer r with r <= q (n - 1) < r + 1 |
| PSketch.RankOfEmpty | libuddsketch/src/dds_psketch.c:111-115 | an empty sketch computes rank -1 for every positive quantile, hence answers 0 |
| PSketch.AtRankUnique | libuddsketch/src/dds_psketch.c:122-127 | only one bucket has the rank in its cumulated range |
| PSketch.PSketch.constructor | libuddsketch/src/dds_psketch.c:172-190 | a new sketch has the specified initial state |
| PSketch.PSketch.Update | libuddsketch/src/dds_psketch.c:36-53 | the object's update is the specified one: ignored, zero bucket, insertion or removal |
| PSketch.PSketch.BidAtRank | libuddsketch/src/dds_psketch.c:117-127 | cumulating from the lowest bucket finds the bucket that holds the rank |
| PSketch.PSketch.GetQuantile | libuddsketch/src/dds_psketch.c:104-147 | the value and the accuracy flag are those of the bucket at rank floor(q (n-1)), or 0 in the zero bucket |
| Accuracy.UpdateTracks | libuddsketch/src/dds_psketch.c:36-53 | one update keeps the sketch in step with the multiset of items; every value from 0 to the addressable maximum enters it, no other does |
| Accuracy.RunTracks | libuddsketch/src/dds_psketch.c:36-53 | so does every run of insertions and of removals of items still present |
| Accuracy.TrustedIsExact | libuddsketch/src/dds_psketch.c:139-144 | a bucket reported accurate is no folded end, so its items are not clamped |
| Accuracy.TrustedMeans | libuddsketch/src/dds_psketch.c:139-144 | the bucket an item is counted in is reported inaccurate if and only if the id of the item is at or beyond the folded end; otherwise that bucket is its own |
| Accuracy.AnswerAccurate | libuddsketch/src/dds_psketch.c:104-147 | for the rank r with r <= q (n - 1) < r + 1 the answer is the one for item r of the sorted items: 0 in the zero band, else the representative of its own bucket, flagged accurate, within alpha of it; only at or beyond the folded end of a low or high store it is that of the end bucket, flagged inaccurate |
| Accuracy.RunKeepsLevel | libuddsketch/src/dds_mapstore.c:185-187 | over any run gamma is gamma0^(2^k) after k collapses in uniform mode and gamma0 in the others |
| Accuracy.SketchGuarantee | libuddsketch/src/dds_psketch.c:36-147 | main theorem: after any run from a new sketch the bound holds, the total is the number of items, and every quantile is answered for the item of rank r with r <= q (n - 1) < r + 1, exactly as above, an accurate answer within alpha of it: the alpha asked for outside uniform mode, in uniform mode that of gamma0^(2^k) after at most 32 collapses, where as in unbounded mode every answer is accurate |
| Accuracy.ExtremeQuantiles | libuddsketch/src/dds_psketch.c:104-147 | quantile 0 answers for the least item, quantile 1 for the greatest |
| Accuracy.FewBuckets | libuddsketch/src/dds_mapstore.c:181-190 | after 32 collapses at most two buckets can be left |
| Accuracy.RunCollapsesAtMost32 | libuddsketch/src/dds_mapstore.c:181-190 | a uniform sketch with 32-bit ids collapses at most 32 times in its life |
| OrderIndependence.KeepsTheEnd | libuddsketch/src/dds_mapstore.c:78-122 | the ids a low store drops are all below those it keeps, a high store's all above |
| OrderIndependence.CanonicalIsUnique | libuddsketch/src/dds_mapstore.c:149-195 | two sketches that are canonical for the same items have the same buckets, totals, flags and gamma |
| OrderIndependence.RunKeepsCanonical | libuddsketch/src/dds_mapstore.c:149-195 | every insert-only run is canonical for its items |
| OrderIndependence.AddKeepsEnd | libuddsketch/src/dds_mapstore.c:160-180 | placing an item opens a bucket only for an id never seen; an id that was given up is counted at the folded end |
| OrderIndependence.ShrunkKeepsEnd | libuddsketch/src/dds_mapstore.c:78-122 | folding down to a bound keeps exactly that many ids, gives up one a fold, and marks the store exactly when some are given up |
| OrderIndependence.OrderDoesNotMatter | libuddsketch/src/dds_mapstore.c:73-195 | insert-only runs with the same items end in the same state, collapse counter included unless in low or high mode two or more distinct ids are too many |
| OrderIndependence.InsertOnlyStore | libuddsketch/src/dds_mapstore.c:73-195 | uniform mode ends at the least level whose ids fit the bound, low mode keeps the highest ids, high mode the lowest |
| CollapseCounts.CollapseCountRange | libuddsketch/src/dds_mapstore.c:145-189 | a low or high insert-only run folds not at all when its ids fit, and else at least once and at most once for each id too many |
| CollapseCounts.InsertCountsFolds | libuddsketch/src/dds_mapstore.c:145-190 | in low and high mode an insertion raises the counter by exactly the buckets that its collapses do away with |
| CollapseCounts.CollapseCountExtremes | libuddsketch/src/dds_mapstore.c:145-189 | both ends of that range are reached by the same items, in an order with the folded end last or first |
| CollapseCounts.CollapseCountOrderIndependent | libuddsketch/src/dds_mapstore.c:145-189 | all orders of the same items give the same collapse counter if and only if at most one distinct id is too many |
| CollapseCounts.CollapseCountDependsOnOrder | libuddsketch/src/dds_mapstore.c:145-146 | the smallest example: one bucket and three items in two orders |
| GSketch.FoldedBothFacts | libuddsketch/src/dds_gsketch.c:90-102 | a round over the bound brings the ids of the two stores together strictly closer to {0, 1}: the loop ends |
| GSketch.SignedLoopEnds | libuddsketch/src/dds_gsketch.c:90-102 | for any bound the uniform loop over two stores ends if and only if the occupied sides of both fit into it |
| GSketch.BoundThreeNeverEnds | libuddsketch/src/dds_gsketch.c:90-102 | with a bound of at most 3 the items 1, gamma, -1 and -gamma keep four buckets through any number of rounds |
| GSketch.FittedAll | libuddsketch/src/dds_gsketch.c:90-102 | the uniform loop leaves at most max_sketch_size buckets in the two stores together |
| GSketch.FittedPair | libuddsketch/src/dds_gsketch.c:73-89 | in low and high mode the far store gives way first and the pair ends within the bound |
| GSketch.Fitted | libuddsketch/src/dds_gsketch.c:69-107 | after the enforcement the bound holds in every mode |
| GSketch.NothingUpdatedSigned | libuddsketch/src/dds_gsketch.c:43-68 | an update with an absolute value above the addressable maximum, or with a count of 0, changes nothing |
| GSketch.SignedRemovalIsExact | libuddsketch/src/dds_gsketch.c:43-68 | a removal of more than the zero band or the bucket holds changes nothing; any other takes exactly its count and touches one store at most |
| GSketch.NewSignedRange | libuddsketch/src/dds_gsketch.c:256-258 | the range of a new sketch in absolute values |
| GSketch.RankToBid | libuddsketch/src/dds_gsketch.c:126-149 | from either end the loop stops at the bucket whose cumulated range holds the rank |
| GSketch.GSketch.Update | libuddsketch/src/dds_gsketch.c:43-108 | the object's update is the specified one, on both stores and the shared mapping |
| GSketch.GSketch.Fit | libuddsketch/src/dds_gsketch.c:69-107 | so is its enforcement of the bound |
| GSketch.GSketch.FitPair | libuddsketch/src/dds_gsketch.c:73-89 | so is the resizing of the far and then the near store in low and high mode |
| GSketch.GSketch.FitAll | libuddsketch/src/dds_gsketch.c:90-102 | so is its uniform loop, in which an empty store sits a round out and the mapping does not |
| GSketch.GSketch.Round | libuddsketch/src/dds_gsketch.c:92-101 | one round of that loop, and the number of buckets it leaves |
| GSketch.GSketch.GetNumCollapses | libuddsketch/src/dds_gsketch.c:202-208 | the larger of the two stores' counters in uniform mode, their sum in the others |
| GSketch.GSketch.GetQuantile | libuddsketch/src/dds_gsketch.c:151-189 | mirrored rank among the negatives, 0 in the zero band, shifted rank in the positives |
| SignedAccuracy.PlacedMirrors | libuddsketch/src/dds_gsketch.c:43-68 | an update keeps both stores and the zero band in step with the signed items |
| SignedAccuracy.RoundRepresents | libuddsketch/src/dds_gsketch.c:93-101 | a round leaves each store, folded or empty, the histogram of its items at the squared gamma |
| SignedAccuracy.FittedAllMirrors | libuddsketch/src/dds_gsketch.c:90-102 | after any number of rounds both stores are histograms at the gamma of the shared mapping, and there are at most 32 rounds |
| SignedAccuracy.NegativesFirst | libuddsketch/src/dds_gsketch.c:160-164 | a sorted listing of signed items starts with the negative ones, absolute values descending |
| SignedAccuracy.StoreAnswer | libuddsketch/src/dds_gsketch.c:159-186 | the bucket of a store that holds a rank answers for the item of that rank, and is reported accurate if and only if its id is inside the folded end |
| SignedAccuracy.SignedAnswerAccurate | libuddsketch/src/dds_gsketch.c:151-189 | for the rank r with r <= q (n - 1) < r + 1 the answer is the one for item r of all signed items in order: 0 in the zero band, else plus or minus the representative of its own bucket, flagged accurate, within alpha of it; only at or beyond the folded end of its store it is that of the end bucket, flagged inaccurate |
| SignedAccuracy.SignedRunTracks | libuddsketch/src/dds_gsketch.c:43-108 | every run keeps the two stores in step with the signed items |
| SignedAccuracy.SignedGuarantee | libuddsketch/src/dds_gsketch.c:43-189 | main theorem: after any run the bound holds, both stores are histograms at one gamma, the counts add up to the items, and every quantile is answered for the item of rank r with r <= q (n - 1) < r + 1, exactly as above, an accurate answer within alpha of it, the alpha asked for outside uniform mode; uniform and unbounded answers are always accurate |
| SignedAccuracy.ExtremeSignedQuantiles | libuddsketch/src/dds_gsketch.c:151-189 | quantile 0 answers for the least of all signed items, quantile 1 for the greatest |
| SignedRounds.FittedRounds | libuddsketch/src/dds_gsketch.c:90-102 | over the rounds of one update a store folds in every round or, while it is empty, in none, and gamma is squared in all of them |
| SignedRounds.FittedIsLeast | libuddsketch/src/dds_gsketch.c:90-102 | the loop stops at the first number of rounds after which the buckets of both stores fit |
| SignedRounds.RunCounts | libuddsketch/src/dds_gsketch.c:43-108 | over any run a store's counter grows by the number of rounds if and only if items of its sign were present at every overflow |
| SignedRounds.CounterIsRounds | libuddsketch/src/dds_gsketch.c:202-208 | the reported counter never exceeds the number of squarings and equals it if and only if there is a sign with items present at every overflow |
| SignedRounds.InsertOnlyCounter | libuddsketch/src/dds_gsketch.c:202-208 | without removals gamma is gamma0^(2^k) for the reported counter k |
| LostRounds.CounterLosesRounds | libuddsketch/src/dds_gsketch.c:202-208 | a run of fifteen updates after which the reported counter is too low |
| SignedOrder.PairStaysCanonical | libuddsketch/src/dds_gsketch.c:73-89 | after any insertion the far store keeps as many ids as the near one leaves room for, and at least one |
| SignedOrder.CanonicalIsUniqueSigned | libuddsketch/src/dds_gsketch.c:43-108 | canonical sketches of the same signed items have the same buckets, totals, zero band and gamma, and outside uniform mode the same folded ends |
| SignedOrder.RunKeepsCanonicalSigned | libuddsketch/src/dds_gsketch.c:43-108 | every insert-only run ends canonical for its items |
| SignedOrder.SignedOrderDoesNotMatter | libuddsketch/src/dds_gsketch.c:43-108 | insert-only runs with the same signed items end with the same buckets, totals, zero band and gamma, and in uniform mode the same reported counter |
| SignedOrder.InsertOnlyStores | libuddsketch/src/dds_gsketch.c:69-107 | uniform mode ends at the least round at which the ids of both signs fit; low and high mode drop ids from the folded end of the far side, down to one bucket, before the near side |
| SignedCounts.ItemSpends | libuddsketch/src/dds_gsketch.c:69-89 | what an insertion at an end of the ids adds to the folds of its own store, and that it leaves folds plus buckets of the other as they were |
| SignedCounts.InsertionCounts | libuddsketch/src/dds_gsketch.c:69-89 | outside uniform mode an insertion raises the reported counter by exactly the buckets that enforcing the bound does away with |
| SignedCounts.SignedCountRange | libuddsketch/src/dds_gsketch.c:202-208 | the reported counter starts at 0 and is the number of folds made over an insert-only run: none when the ids of both signs fit, else at least one and at most one for each id too many |
| SignedCounts.SignedCountOrderIndependent | libuddsketch/src/dds_gsketch.c:202-208 | in low and high mode all orders of the same signed items give the same reported counter if and only if neither side has more than one id too many for the room the other leaves it |
| Dictionary.EraseUndoesInsert | libuddsketch/include/dict/dict.h:70-90 | removing the entry just inserted gives back the entries there were |
| StoreDictionary.InsertIsUpdate | libuddsketch/src/dds_mapstore.c:56-65 | inserting into the ordered entries is updating the store's map |
| StoreDictionary.RemoveIsMinus | libuddsketch/src/dds_mapstore.c:262 | removing from the ordered entries is taking the key out of the map, and reports the count it had |
| StoreDictionary.StepsAgree | libuddsketch/src/dds_mapstore.c:316-358 | stepping through the ordered entries is what the store's iterators do |
| StoreDictionary.EndsAgree | libuddsketch/src/dds_mapstore.c:294-314 | the first and last entry are the least and greatest id |
| TreeCommon.LeftRotationOrder | libuddsketch/src/dict/tree_common.c:45-59 | a left rotation keeps the entries in order and the set of nodes |
| TreeCommon.DoubleLeftOrder | libuddsketch/src/dict/wb_tree.c:173-195 | so does a right-left rotation |
| TreeCommon.RotLeft | libuddsketch/src/dict/tree_common.c:45-59 | the relinking gives the rotated tree, with all parent links, in the place of the old one |
| TreeCommon.RotRight | libuddsketch/src/dict/tree_common.c:61-75 | the mirror image |
| TreeCommon.RotRightLeft | libuddsketch/src/dict/wb_tree.c:176-190 | the inlined double rotation gives a right rotation of the child followed by a left one of the node |
| TreeCommon.RotLeftRight | libuddsketch/src/dict/wb_tree.c:210-224 | the mirror image |
| TreeCommon.Locate | libuddsketch/src/dict/tree_common.c:127-141 | the descent ends at the node of the key, or at the one empty link where the key belongs |
| TreeRemoval.MaxBelow | libuddsketch/src/dict/tree_common.c:116-125 | the last node in order of a subtree |
| TreeRemoval.MinBelow | libuddsketch/src/dict/tree_common.c:105-114 | the first node in order of a subtree |
| TreeRemoval.Splice | libuddsketch/src/dict/wb_tree.c:293-298 | a node with at most one child gives way to that child and leaves the tree |
| TreeRemoval.TakeOut | libuddsketch/src/dict/wb_tree.c:277-299 | trading entries with the in-order neighbour and splicing takes exactly one entry out and keeps the rest in order |
| TreeWalk.SeatsDistinct | libuddsketch/src/dict/tree_common.c:77-103 | no node has two places in the order |
| TreeWalk.Next | libuddsketch/src/dict/tree_common.c:91-103 | the step goes from the node at place i to the node at place i + 1, or to null at the end |
| TreeWalk.Prev | libuddsketch/src/dict/tree_common.c:77-89 | the step goes from the node at place i to the node at place i - 1, or to null at the start |
| TreeWalk.StepsInvert | libuddsketch/src/dict/tree_common.c:77-103 | stepping forward and stepping back are mutual inverses, each node being met once |
| TreeWalk.Select | libuddsketch/src/dict/tree_common.c:270-293 | stepping in from the nearer end reaches the entry of rank n |
| TreeWalk.SearchLe | libuddsketch/src/dict/tree_common.c:150-167 | the last node whose key is not above the given one, or null |
| TreeWalk.SearchLt | libuddsketch/src/dict/tree_common.c:176-191 | the last node whose key is below the given one, or null |
| TreeWalk.SearchGe | libuddsketch/src/dict/tree_common.c:200-218 | the first node whose key is not below the given one, or null |
| TreeWalk.SearchGt | libuddsketch/src/dict/tree_common.c:227-242 | the first node whose key is above the given one, or null |
| Dictionary.RankMeaning | libuddsketch/src/dict/tree_common.c:150-242 | in a sorted sequence the places below the rank of a key are exactly those of smaller keys |
| Weights.ExactWeight | libuddsketch/src/dict/wb_tree.c:399-401 | a stored weight that is exact is the number of nodes plus one |
| Weights.SelectByWeight | libuddsketch/src/dict/wb_tree.c:327-354 | the descent guided by weights ends at the entry of rank n, the one stepping finds |
| WbTree.SingleRestores | libuddsketch/src/dict/wb_tree.c:163-172 | weights one update away from the band, below the 293 threshold and below 586 on the child, are in the band after one rotation |
| WbTree.DoubleRestores | libuddsketch/src/dict/wb_tree.c:173-195 | the same at or above 586, after a double rotation |
| WbTree.FixupRestoresBalance | libuddsketch/src/dict/wb_tree.c:158-232 | one fixup: both assertions hold, and one single or double rotation brings every node into the band with exact weights |
| WbTree.FixupChooses | libuddsketch/src/dict/wb_tree.c:158-232 | which node comes to the top, told by true weights alone: the root inside 293/707, the child below 586/1000 of its side, else the inner grandchild |
| WbTree.StepDisturbs | libuddsketch/src/dict/wb_tree.c:265-270 | each ancestor of the change is, when it is reached, exactly one update away from its band |
| WbTree.Fixup | libuddsketch/src/dict/wb_tree.c:158-232 | the relinking and reweighting on the heap is the specified fixup |
| WbTree.Climb | libuddsketch/src/dict/wb_tree.c:303-308 | the climb to the root leaves the whole tree balanced, with the same entries |
| WbTree.Insert | libuddsketch/src/dict/wb_tree.c:234-275 | insertion keeps order, links, count, exact weights and the 292/708 band, and adds exactly the missing key |
| WbTree.Remove | libuddsketch/src/dict/wb_tree.c:277-321 | removal keeps the same and takes exactly that key, reporting its datum |
| WbTree.Select | libuddsketch/src/dict/wb_tree.c:327-354 | selection by weight on a balanced tree |
| HbTree.AvlSize | libuddsketch/src/dict/hb_tree.c:542-570 | a tree of height h has at least Fib(h + 2) - 1 nodes |
| HbTree.LeftEasedAvl | libuddsketch/src/dict/hb_tree.c:190-277 | the repair of a node too tall on the left makes every stored balance true again and tells the height it leaves |
| HbTree.RightEasedAvl | libuddsketch/src/dict/hb_tree.c:165-245 | the mirror image |
| HbTree.GrownStep | libuddsketch/src/dict/hb_tree.c:312-351 | an even ancestor passes the growth on, an uneven one absorbs it: only the lowest uneven ancestor needs repair |
| HbTree.ShrunkStep | libuddsketch/src/dict/hb_tree.c:395-447 | the climb of a removal goes on exactly while the subtree came out one lower |
| HbTree.RotateR | libuddsketch/src/dict/hb_tree.c:190-213 | the rotation sets both balances and returns whether the child was even |
| HbTree.RotateL | libuddsketch/src/dict/hb_tree.c:165-188 | the mirror image |
| HbTree.RotateLR | libuddsketch/src/dict/hb_tree.c:247-277 | the double rotation sets all three balances |
| HbTree.RotateRL | libuddsketch/src/dict/hb_tree.c:215-245 | the mirror image |
| HbTree.Descend | libuddsketch/src/dict/hb_tree.c:286-296 | the descent also finds the lowest uneven ancestor |
| HbTree.Grow | libuddsketch/src/dict/hb_tree.c:312-351 | the upward loop and the repair at q leave every balance true |
| HbTree.Shrink | libuddsketch/src/dict/hb_tree.c:395-447 | the climb of a removal leaves every balance true |
| HbTree.Insert | libuddsketch/src/dict/hb_tree.c:279-355 | insertion keeps order, links, count and bal = height(right) - height(left) in {-1, 0, 1} at every node |
| HbTree.Remove | libuddsketch/src/dict/hb_tree.c:363-460 | removal keeps the same and takes exactly that key |
| RbTree.EqualBlacks | libuddsketch/src/dict/rb_tree.c:537-540 | every way from the root to a null link meets as many black nodes, not only the ways to leaves |
| RbTree.HeightBound | libuddsketch/src/dict/rb_tree.c:508-546 | the height is at most 2 log2(n + 1) |
| RbTree.RecolourStep | libuddsketch/src/dict/rb_tree.c:223-228 | a red uncle: recolouring moves the clash two levels up and nothing else |
| RbTree.InnerLeft | libuddsketch/src/dict/rb_tree.c:230-234 | a rotation brings an inner clash to the outer side |
| RbTree.OuterLeft | libuddsketch/src/dict/rb_tree.c:235-240 | a rotation with two recolourings ends an outer clash |
| RbTree.RedSiblingRight | libuddsketch/src/dict/rb_tree.c:313-319 | a red sibling is rotated away, leaving a black one |
| RbTree.SiblingTurnsRed | libuddsketch/src/dict/rb_tree.c:320-325 | a black sibling with black children turns red and the parent is what is short now |
| RbTree.NearToFarRight | libuddsketch/src/dict/rb_tree.c:327-332 | a red near child is rotated to the far side |
| RbTree.FarRightSettles | libuddsketch/src/dict/rb_tree.c:333-341 | a red far child makes good the missing black node |
| RbTree.FixLeft | libuddsketch/src/dict/rb_tree.c:221-241 | one round of the insertion loop on the heap, left side |
| RbTree.FixRight | libuddsketch/src/dict/rb_tree.c:242-263 | one round, right side |
| RbTree.InsertFixup | libuddsketch/src/dict/rb_tree.c:216-268 | the loop ends with a red-black tree and a black root over the same entries |
| RbTree.MendLeft | libuddsketch/src/dict/rb_tree.c:312-342 | one round of the removal loop on the heap, left side |
| RbTree.MendRight | libuddsketch/src/dict/rb_tree.c:343-374 | one round, right side |
| RbTree.DeleteFixup | libuddsketch/src/dict/rb_tree.c:307-380 | the loop ends with a red-black tree and a black root over the same entries |
| RbTree.Insert | libuddsketch/src/dict/rb_tree.c:179-214 | insertion keeps order, links, count and colours, and adds exactly the missing key |
| RbTree.Remove | libuddsketch/src/dict/rb_tree.c:270-305 | removal keeps the same and takes exactly that key |
| PrTree.PathLengthIs | libuddsketch/src/dict/tree_common.c:365-378 | the sum of levels is the sum of subtree sizes, shifted by the starting level |
| PrTree.ThirdOnEachSide | libuddsketch/src/dict/pr_tree.c:136-142 | each side of a reduced node holds at least a third of the weight |
| PrTree.LeftTurnShortens | libuddsketch/src/dict/pr_tree.c:170-171 | a single rotation made by fixup strictly lowers the path length |
| PrTree.RightLeftTurnShortens | libuddsketch/src/dict/pr_tree.c:177-201 | so does a double rotation |
| PrTree.StaysWhenNothingShortens | libuddsketch/src/dict/pr_tree.c:133-249 | fixup leaves a node alone if and only if none of the four rotations possible there shortens the paths |
| PrTree.Fixed | libuddsketch/src/dict/pr_tree.c:133-249 | fixup terminates and returns exact weights, the same size and no longer paths |
| PrTree.DoubleReady | libuddsketch/src/dict/pr_tree.c:203-205 | the new root of a double rotation, which is not revisited, stays reduced whatever becomes of its two subtrees |
| PrTree.FixedReduces | libuddsketch/src/dict/pr_tree.c:133-249 | over reduced subtrees fixup gives a reduced tree, and its heaviest child is no heavier than before |
| PrTree.FixedKeeps | libuddsketch/src/dict/pr_tree.c:133-249 | fixup keeps the entries in order and the set of nodes |
| PrTree.Fixup | libuddsketch/src/dict/pr_tree.c:133-249 | the recursive relinking on the heap is the specified fixup |
| PrTree.Climb | libuddsketch/src/dict/pr_tree.c:318-323 | the climb to the root leaves the whole tree reduced |
| PrTree.Insert | libuddsketch/src/dict/pr_tree.c:251-290 | insertion keeps order, links, count, exact weights and the path-reduction condition at every node |
| PrTree.Remove | libuddsketch/src/dict/pr_tree.c:292-336 | removal keeps the same and takes exactly that key |
| PrTree.Select | libuddsketch/src/dict/pr_tree.c:346-373 | selection by weight |
| TrTree.TreapIsUnique | libuddsketch/src/dict/tr_tree.c:244-268 | when no two keys share a priority there is exactly one treap on a set of keys |
| TrTree.RemoveUndoesInsert | libuddsketch/src/dict/tr_tree.c:138-205 | removing the key just inserted restores the same tree: entries, priorities and form |
| TrTree.SiftStep | libuddsketch/src/dict/tr_tree.c:169-177 | a rotation of the insertion moves the one possible violation up a level |
| TrTree.SinkStep | libuddsketch/src/dict/tr_tree.c:188-194 | a rotation of the removal keeps all but the sinking node in heap order and makes its subtree smaller |
| TrTree.SiftUp | libuddsketch/src/dict/tr_tree.c:168-177 | the loop ends with a treap |
| TrTree.SinkDown | libuddsketch/src/dict/tr_tree.c:187-194 | the loop ends with at most one child below the node |
| TrTree.Insert | libuddsketch/src/dict/tr_tree.c:138-182 | insertion keeps order, links, count and the max-heap on priorities |
| TrTree.Remove | libuddsketch/src/dict/tr_tree.c:184-216 | removal keeps the same and takes exactly that key |
| HashTable2.OccupiedIsSize | libuddsketch/src/dict/hashtable2.c:400-415 | the number of occupied slots is the size of the dictionary |
| HashTable2.ProbeDecides | libuddsketch/src/dict/hashtable2.c:203-220 | a probe that reaches an unoccupied slot proves the key absent |
| HashTable2.Filled | libuddsketch/src/dict/hashtable2.c:155-177 | filling the first unoccupied slot of a probe adds one entry and keeps every probe unbroken |
| HashTable2.PatchStep | libuddsketch/src/dict/hashtable2.c:246-264 | putting one entry back leaves only later entries of the cluster cut off from their homes |
| HashTable2.PatchEnd | libuddsketch/src/dict/hashtable2.c:246-264 | when the loop stops, at an unoccupied slot or at the removed key's home, no entry is cut off |
| HashTable2.PutBack | libuddsketch/src/dict/hashtable2.c:255-258 | the assertions of remove_cleanup: the entry always goes back in, into a slot without datum |
| HashTable2.RehashInserts | libuddsketch/src/dict/hashtable2.c:382-395 | rehashing never meets a key twice and never runs out of room, so its failure branch is dead |
| HashTable2.PrimeFrom | libuddsketch/src/dict/hashtable_common.c:30-48 | the size chosen is the least table entry that is at least the size asked for, or the largest when none is |
| HashTable2.Probe | libuddsketch/src/dict/hashtable2.c:206-219 | the probing loop finds the key's slot, or an unoccupied one with only other entries before it, or comes full circle |
| HashTable2.InsertSlot | libuddsketch/src/dict/hashtable2.c:155-177 | the key's slot, the first unoccupied one filled, or no room |
| HashTable2.HashTable2.constructor | libuddsketch/src/dict/hashtable2.c:105-126 | a new table is empty and valid |
| HashTable2.HashTable2.Search | libuddsketch/src/dict/hashtable2.c:202-220 | a slot is found if and only if the key is in the dictionary, and holds its datum |
| HashTable2.HashTable2.Insert | libuddsketch/src/dict/hashtable2.c:186-200 | adds exactly a missing key; there is room, and a free slot left, unless the size is the largest prime and every slot is used; the table grows to the next prime exactly when two thirds are used |
| HashTable2.HashTable2.RemoveCleanup | libuddsketch/src/dict/hashtable2.c:243-265 | reinserting the rest of the cluster, around the end of the array if need be, restores every probe and changes no entry |
| HashTable2.HashTable2.Remove | libuddsketch/src/dict/hashtable2.c:267-302 | takes exactly that key out, in a full table too, and reports its datum |
| HashTable2.HashTable2.Resize | libuddsketch/src/dict/hashtable2.c:356-398 | the same dictionary at the new size, refused exactly when it holds more entries than that |
| HashTable2.HashTable2.Store | libuddsketch/src/dict/hashtable2.c:164-168 | writing through a returned datum pointer changes that key's datum only |
| SkipList.LevelHolds | libuddsketch/src/dict/skiplist.c:182-203 | following the links of a level visits, in order, exactly the towers that reach above it |
| SkipList.LevelsNest | libuddsketch/src/dict/skiplist.c:182-203 | each level is a sublist of every level below it |
| SkipList.NextMonotone | libuddsketch/src/dict/skiplist.c:182-203 | a link of a higher level goes at least as far as one of a lower level |
| SkipList.NextAfterInsert | libuddsketch/src/dict/skiplist.c:174-178 | a new tower changes only the links that pass over it on its own levels |
| SkipList.SkipList.SkipLevel | libuddsketch/src/dict/skiplist.c:195-196 | levels whose link leads to the node just compared need no second comparison |
| SkipList.SkipList.constructor | libuddsketch/src/dict/skiplist.c:110-132 | a new list is empty and valid |
| SkipList.SkipList.Find | libuddsketch/src/dict/skiplist.c:212-324 | the shared search loop finds the key's node, or its two neighbours |
| SkipList.SkipList.Search | libuddsketch/src/dict/skiplist.c:212-232 | found if and only if present |
| SkipList.SkipList.SearchLe | libuddsketch/src/dict/skiplist.c:234-254 | the last node whose key is not above the given one |
| SkipList.SkipList.SearchLt | libuddsketch/src/dict/skiplist.c:256-276 | the last node whose key is below the given one |
| SkipList.SkipList.SearchGe | libuddsketch/src/dict/skiplist.c:278-300 | the first node whose key is not below the given one |
| SkipList.SkipList.SearchGt | libuddsketch/src/dict/skiplist.c:302-324 | the first node whose key is above the given one |
| SkipList.SkipList.Trace | libuddsketch/src/dict/skiplist.c:182-203 | the descent notes, on every level, the one node whose link passes over the new key |
| SkipList.SkipList.NodeInsert | libuddsketch/src/dict/skiplist.c:157-180 | all forward and backward links and top_link are set as the new tower asks, and the assertions hold |
| SkipList.SkipList.Insert | libuddsketch/src/dict/skiplist.c:182-210 | for every tower height insertion keeps all levels, prev, top_link and count right and adds exactly the missing key |
| SkipList.SkipList.TraceAll | libuddsketch/src/dict/skiplist.c:364-385 | the descent of a removal notes the predecessors on every level and tells whether the key is there |
| SkipList.SkipList.Unlink | libuddsketch/src/dict/skiplist.c:389-395 | the unlinking loop stops exactly above the removed tower, and its assertions hold |
| SkipList.SkipList.Trim | libuddsketch/src/dict/skiplist.c:402-403 | top_link ends at the height of the tallest tower left |
| SkipList.SkipList.Remove | libuddsketch/src/dict/skiplist.c:361-406 | removal keeps all levels, prev, top_link and count right and takes exactly that key |

## Left out

- Rounding: values are exact reals and gamma^i an exact power, where the source uses doubles, log, exp and pow; DBL_MIN
  and DBL_MAX are parameters of the addressable range.
- Machine integers: counts are unbounded where the source has long, and weights and heights where it has unsigned; ids
  are shown to fit in 32 bits, counts are not bounded.
- The LOG_LOWER mapping, which neither sketch uses (libuddsketch/src/dds_psketch.c:179, libuddsketch/src/dds_gsketch.c:231).
- Memory: malloc failures, free, leaked iterators and the destroy functions.
- The vtables, `void*` keys and comparison functions: keys and data are integers, ordered as integers; the hash
  function and the treap's priority are arbitrary.
- Packing a balance or a colour into the low bits of a parent pointer: they are fields of their own. A skip node's
  links are a sequence in the node, as the flexible array of the source is part of the node.
- `rotation_count`, which no operation reads.
- The order in which a red-black or AVL rotation writes colours, balances and links: the model relinks first and
  writes the extra fields afterwards, so states inside one rotation are not modelled.
- The store's dictionary object: the store works on a map; that the ordered dictionaries do to their entries what the
  store does to its map is proved apart from it (`StoreDictionary`), and the move from the weight-balanced to the
  height-balanced tree in a uniform collapse is therefore not visible.
- Clearing and freeing a dictionary, traversal with a callback, iterator objects, `nextn` and `prevn`.
- The chained hash table, the splay tree and the string hash.
- The command-line programs, timing, benchmarks and printing, and the second copy of the dictionaries under `libdict`.
