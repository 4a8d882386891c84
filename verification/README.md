# Tangram read-pair detection core, in Dafny

Tangram finds structural variants from paired-end alignments. It works in four stages:

1. **Pair builder.** It sorts every aligned pair into a read-pair type. The types are long, short, reversed, inverted, cross and special. A special pair is one whose mate maps to a mobile-element reference named in its ZA tag. A mapping-quality filter drops weak pairs. Each remaining pair goes into the array of its type, and the names of the special references are interned.
2. **Attribute arrays.** Each pair becomes a two-coordinate point (an *attribute*). The points are routed to one array per type and sorted. Each array has a table of per-read-group bounds.
3. **Cluster engine.** It groups the points of one array by density.
   - Each point counts the neighbours inside its bounds.
   - Each point is linked to the densest neighbour in its window.
   - The links form rings, one ring per cluster.
   - Each ring becomes a cluster element with a count, mean, deviation, min and max.
   - Elements that fail the filters are lazily deleted, and elements are merged.
4. **Detection.**
   - Special (retrotransposon) events are made by walking a cluster's ring. They are sorted, and nearby 3' and 5' events are merged in one scan, which also connects their clusters.
   - Deletion events are found by walking each live element of the long-pair clustering. Each candidate is built from medians, corrected for repeats, and then merged into the previous event or kept.
   - A LIFO job stack feeds the detection threads.

The model also covers the reference helpers the detector uses:
- the layout of the concatenated special references, with padding between them;
- the lookup from a position in that concatenation back to a reference and an offset;
- the processing of a FASTA line;
- the reference-name table.

The model's form follows the source file by file:
- Objects whose fields the source updates are classes: the cluster, the attribute array, the read-pair table, the job stack, the assist buffers and the reference loader and header.
- Loops are methods with invariants.
- The logic they are proved against is pure functions and lemmas.
- Rings are described by a ghost ring decomposition of the `next` array (ring id and position of every point). `Connect` is proved to splice two rings into one.
- A deviation is held as its exact square: `Std = NaN | Root(square)`. So `sqrt` needs no approximation, and NaN is the negative case.

## Model

| member | source | states |
|---|---|---|
| Numeric.SqrtOf | src/TGM_Detect/TGM_Cluster.c:290 | sqrt is NaN exactly for a negative argument, otherwise a root whose square is the argument |
| Numeric.CDiv | src/TGM_Detect/TGM_ReadPairDetect.c:821-828 | C int division: truncates toward zero, the sign follows the dividend, and the magnitude is the floor of the magnitudes |
| Numeric.Round | src/TGM_Detect/TGM_ReadPairDetect.c:854-855 | rounding to the nearest int lies within 1/2 of the value and keeps its sign |
| Numeric.Trunc | src/TGM_Detect/TGM_ReadPairDetect.c:811 | the `(int)` cast of a non-negative double is its floor |
| Numeric.RoundSqrt | src/TGM_Detect/TGM_ReadPairDetect.c:854-855 | the rounded square root r of q satisfies (r-1/2)^2 <= q < (r+1/2)^2 |
| Numeric.RoundStdError | src/TGM_Detect/TGM_ReadPairDetect.c:854-855 | the rounded standard error std/sqrt(n) is non-negative, and its half-up square exceeds the variance over n |
| Numeric.ToInt32 | src/TGM_Common/TGM_Reference.h:266-272 | storing a value in an int32 reduces it modulo 2^32 into the signed range, and keeps values already in range |
| Numeric.Grown | src/TGM_Detect/TGM_Cluster.c:55-58 | a doubling array that must hold `need` items ends with a capacity of at least `need` and at least its start |
| Numeric.GrownStep | src/TGM_Detect/TGM_Cluster.c:55-58 | one more item doubles the capacity exactly when the array is full, and keeps it otherwise |
| Sorting.SortBy | src/TGM_Detect/TGM_ReadPairDetect.c:523 | the sort result is a permutation of its input |
| Sorting.SortBySorted | src/TGM_Detect/TGM_ReadPairDetect.c:523 | with a total comparator, the sort result is sorted |
| Sorting.SortBySortedUnchanged | src/TGM_Detect/TGM_ReadPairAttrbt.c:130 | sorting a list that is already sorted leaves it unchanged |
| Sorting.InsertSorted | src/TGM_Detect/TGM_ReadPairDetect.c:523 | inserting into a sorted list keeps it sorted |
| Sorting.Median | src/TGM_Detect/TGM_ReadPairDetect.c:799 | the median is one of the values |
| Sorting.MedianBetween | src/TGM_Detect/TGM_ReadPairDetect.c:799 | the median lies between the least and greatest value |
| Rings.IdentityDecomposes | src/TGM_Detect/TGM_Cluster.c:154-159 | the initial links (every point its own successor) form singleton rings |
| Rings.SingletonRings | src/TGM_Detect/TGM_Cluster.c:154-159 | the decomposition of the identity links has ring i = [i] |
| Rings.DecompositionIsPermutation | src/TGM_Detect/TGM_Cluster.c:228-246 | links that decompose into rings form a permutation of the points |
| Rings.RingIdIsMember | src/TGM_Detect/TGM_Cluster.c:228-246 | a point's ring id is a point of that ring, at position 0 |
| Rings.Rotate | src/TGM_Detect/TGM_Cluster.c:238-242 | a ring listed from position p holds the same points cyclically shifted by p |
| Rings.WalkStep | src/TGM_Detect/TGM_Cluster.c:238-242 | walking `next` from s stays on s's ring, follows its listing, and is back at s only after a full turn |
| Rings.WalkReaches | src/TGM_Detect/TGM_Cluster.c:238-242 | every point of s's ring is reached from s, after its offset along the ring |
| Rings.SplicedNext | src/TGM_Detect/TGM_Cluster.c:244-245 | the relinked array has the same length as the old one |
| Rings.SpliceDecomposes | src/TGM_Detect/TGM_Cluster.c:228-246 | splicing two different rings gives a ring decomposition of the new links |
| Rings.SpliceMembers | src/TGM_Detect/TGM_Cluster.c:228-246 | each member of a spliced ring carries that ring's id and its position in it |
| Rings.SplicePoints | src/TGM_Detect/TGM_Cluster.c:228-246 | every point is listed on its new ring at its new position |
| Rings.SpliceSteps | src/TGM_Detect/TGM_Cluster.c:228-246 | after splicing, each point's successor is the next member of its ring |
| Rings.Joined | src/TGM_Detect/TGM_Cluster.c:228-246 | the joined ring is as long as the two rings together |
| Rings.JoinedListing | src/TGM_Detect/TGM_Cluster.c:228-246 | the joined ring lists c's ring up to c, then m's ring from m, then the rest of c's ring |
| Rings.JoinedInner | src/TGM_Detect/TGM_Cluster.c:238-242 | a point of m's ring before the last one walked keeps its successor |
| Rings.JoinedLast | src/TGM_Detect/TGM_Cluster.c:244-245 | the last point walked takes c's old successor |
| Rings.CountOf | src/TGM_Detect/TGM_Cluster.c:259-279 | a count over the first i entries never exceeds i |
| Rings.CountOfIsCard | src/TGM_Detect/TGM_Cluster.c:259-279 | the count of v is the size of the set of positions holding v |
| Rings.RingSizeIsCount | src/TGM_Detect/TGM_Cluster.c:259-279 | the number of points with ring id r equals the length of ring r |
| RingWalk.WalkAt | src/TGM_Detect/TGM_Cluster.c:238-242 | the t-th point of the walk is a point on the start's ring |
| RingWalk.Reach | src/TGM_Detect/TGM_Cluster.c:238-242 | the number of steps before the walk of `Connect` stops is less than the length of m's ring |
| RingWalk.Stretched | src/TGM_Detect/TGM_Cluster.c:238-242 | every label after `Connect` is either c's label or the point's own old label |
| RingWalk.WalkStarts | src/TGM_Detect/TGM_Cluster.c:238 | the walk starts at m having relabelled nothing |
| RingWalk.WalkContinues | src/TGM_Detect/TGM_Cluster.c:238-242 | while the redirected links do not lead back to m, the walk is not finished and moves to the next point of m's ring |
| RingWalk.RelabelStep | src/TGM_Detect/TGM_Cluster.c:239-241 | each step of the walk relabels exactly one more point |
| RingWalk.WalkEnds | src/TGM_Detect/TGM_Cluster.c:244-245 | when the links lead back to m, the walk is at its end; relinking the last point either restores `next` (one ring) or splices the two rings |
| RingWalk.StretchEnds | src/TGM_Detect/TGM_Cluster.c:238-245 | the labels written at the end of the walk are the stretch |
| RingWalk.StretchedRingIds | src/TGM_Detect/TGM_Cluster.c:228-246 | labels that are ring ids stay ring ids after `Connect` |
| RingWalk.RingsAfterConnect | src/TGM_Detect/TGM_Cluster.c:228-246 | the rings left by `Connect` decompose the new links |
| RingWalk.ConnectOnlyMerges | src/TGM_Detect/TGM_Cluster.c:228-246 | `Connect(c, m)` puts c and m on one ring and only merges rings |
| ClusterWindow.Advance | src/TGM_Detect/TGM_Cluster.c:172-175 | the skip loop passes exactly the points below i, stops at the first point not below i, and never passes i |
| ClusterWindow.Low | src/TGM_Detect/TGM_Cluster.c:172-175 | i's window starts at or before i |
| ClusterWindow.WindowEnd | src/TGM_Detect/TGM_Cluster.c:177-186 | the window loop runs over exactly the points within i's first bound, up to the first point outside it or the end |
| ClusterWindow.CountNear2 | src/TGM_Detect/TGM_Cluster.c:177-186 | a window count never exceeds the window's width |
| ClusterWindow.LowMonotone | src/TGM_Detect/TGM_Cluster.c:172-175 | the window start never moves backwards |
| ClusterWindow.LowSkipsBelow | src/TGM_Detect/TGM_Cluster.c:172-175 | on sorted points, every point before the window start is below i |
| ClusterWindow.WindowIsFirstNeighbourhood | src/TGM_Detect/TGM_Cluster.c:172-186 | on sorted points with one first bound, k is within i's first bound exactly when k lies in i's window |
| ClusterWindow.NeighbourCountSplit | src/TGM_Detect/TGM_Cluster.c:177-186 | counting i's neighbours among the first hi points equals counting second-bound matches in the window, cut at hi |
| ClusterWindow.DensityIsNeighbourCount | src/TGM_Detect/TGM_Cluster.c:162-188 | `Make`'s density of i is the number of points within both of its bounds, and it is at least 1 (i itself) |
| ClusterWindow.CenterScanPicksDensest | src/TGM_Detect/TGM_Cluster.c:205-222 | the center scan picks the first neighbour of greatest positive count, or (0, 0) when none has a positive count |
| ClusterWindow.CenterIsDensestNeighbour | src/TGM_Detect/TGM_Cluster.c:200-222 | `Build`'s center for i is, over the whole window, the first densest neighbour within the first bound, or 0 |
| ClusterWindow.SkipBelow | src/TGM_Detect/TGM_Cluster.c:172-175 | the skip loop computes `Advance` |
| ClusterWindow.WindowCount | src/TGM_Detect/TGM_Cluster.c:177-186 | the window loop counts the second-bound matches in the window |
| ClusterWindow.DensityAt | src/TGM_Detect/TGM_Cluster.c:167-186 | one pass of `Make` yields i's window start and density |
| ClusterWindow.WindowCenter | src/TGM_Detect/TGM_Cluster.c:205-222 | the window scan of `Build` yields the scan's pick |
| ClusterWindow.CenterAt | src/TGM_Detect/TGM_Cluster.c:195-222 | one pass of `Build` yields i's window start and its center |
| ClusterStats.AccOfSummary | src/TGM_Detect/TGM_Cluster.c:259-279 | a running element exists for label L exactly when some point carries L; it counts them, starts at the first, and its min and max enclose them |
| ClusterStats.AccOfSums | src/TGM_Detect/TGM_Cluster.c:31-49 | a running element holds the sums of its points' attributes and of their squares |
| ClusterStats.UpdateCoord | src/TGM_Detect/TGM_Cluster.c:31-49 | `UpdateElmnt` adds one point to the count, both sums and the min/max envelope |
| ClusterStats.AccOfSpread | src/TGM_Detect/TGM_Cluster.c:31-49 | the variance held by a running element is never negative |
| ClusterStats.SpreadStep | src/TGM_Detect/TGM_Cluster.c:31-49 | adding a point keeps the variance non-negative |
| ClusterStats.MeanStdFacts | src/TGM_Detect/TGM_Cluster.c:283-292 | the mean of values in [lo, hi] lies in [lo, hi], and a non-negative variance gives a real deviation |
| ClusterStats.FinishedCoord | src/TGM_Detect/TGM_Cluster.c:283-292 | a finished element's mean lies between its min and max, and its deviation is real |
| ClusterStats.FinishedElmnt | src/TGM_Detect/TGM_Cluster.c:249-293 | the element `Finalize` makes for a carried label counts its points, starts at the first, encloses them, has its mean inside the envelope and a real deviation |
| ClusterStats.DefaultMinStdDropsOnlyNaN | src/TGM_Detect/TGM_Cluster.c:120-124 | with the default minimum deviation -1, an element is dropped exactly when its count is too small or a deviation is NaN |
| ClusterStats.RebuiltSquareSum | src/TGM_Detect/TGM_Cluster.c:350-351 | rebuilding the square sum from the mean and deviation gives the square sum back |
| ClusterStats.PooledMean | src/TGM_Detect/TGM_Cluster.c:355 | the merged mean is the mean over both point sets |
| ClusterStats.PooledStd | src/TGM_Detect/TGM_Cluster.c:350-363 | the corrected merged deviation is the deviation over both point sets |
| ClusterStats.MergeIsPooled | src/TGM_Detect/TGM_Cluster.c:338-366 | merging two finished elements gives the element one pass over both point sets would give |
| ClusterStats.MergedStdAsWrittenIsWrong | src/TGM_Detect/TGM_Cluster.c:350-351 | as written, two one-point elements at 3.0 merge to a NaN deviation where the pooled deviation is 0 |
| ClusterEngine.IdentityArrays | src/TGM_Detect/TGM_Cluster.c:154-159 | the init loop makes every point its own successor, label and ring, with count 0 |
| ClusterEngine.ConnectWalk | src/TGM_Detect/TGM_Cluster.c:228-246 | the link walk splices m's ring into c's (leaves `next` unchanged on a shared ring) and relabels the stretch with c's label |
| ClusterEngine.ConnectedRings | src/TGM_Detect/TGM_Cluster.c:228-246 | the decomposition after `Connect` describes the new links and merges c's and m's ring ids |
| ClusterEngine.ConnectPoints | src/TGM_Detect/TGM_Cluster.c:228-246 | `Connect` on the link arrays keeps them a union of labelled rings, related to the old ones as the walk says |
| ClusterEngine.RingsOnlyMerge | src/TGM_Detect/TGM_Cluster.c:228-246 | after `Connect(c, m)`, c and m share a ring, rings only merge, and ring-id labels stay ring ids |
| ClusterEngine.Densities | src/TGM_Detect/TGM_Cluster.c:162-188 | `Make`'s loop adds every point's density to its count and leaves the counts past the size unchanged |
| ClusterEngine.BuildLinks | src/TGM_Detect/TGM_Cluster.c:190-226 | `Build`'s loop puts every point on its center's ring, and rings only merge. They merge no further than that: every grouping that keeps the old rings together and each point with its center keeps the new rings together, so the new rings are the old rings joined by the center links. Ring-id labels stay ring ids |
| ClusterEngine.ConnectStaysFiner | src/TGM_Detect/TGM_Cluster.c:228-246 | `Connect(c, m)` merges no more than it must: a grouping that keeps the old rings together and puts c with m keeps the new rings together |
| ClusterEngine.ConnectedLinks | src/TGM_Detect/TGM_Cluster.c:228-246 | after `Connect(c, m)` the links are m's ring spliced after c, or unchanged when c and m share a ring, and the rings are the old ones with c's and m's merged |
| ClusterEngine.BuildMergesNoFurther | src/TGM_Detect/TGM_Cluster.c:190-226 | connecting point i's center to i merges no further than the links from the first i + 1 points to their centers force |
| ClusterEngine.BuildAdvances | src/TGM_Detect/TGM_Cluster.c:190-226 | one pass of `Build`'s loop keeps the loop's state: rings, joined centers, only-merging and merging no further all carry past point i |
| ClusterEngine.CollectStep | src/TGM_Detect/TGM_Cluster.c:259-279 | one pass of `Finalize`'s first loop keeps the collection invariant and the doubled capacity |
| ClusterEngine.Collect | src/TGM_Detect/TGM_Cluster.c:259-279 | `Finalize`'s first loop opens one running element per kept label, in first-point order, relabels each kept point with its element and grows the array by doubling |
| ClusterEngine.FinishAll | src/TGM_Detect/TGM_Cluster.c:283-292 | `Finalize`'s second loop finishes every running element |
| ClusterEngine.FinalizeArrays | src/TGM_Detect/TGM_Cluster.c:249-293 | `Finalize` on values gives the finalized elements as the whole used part, with a doubled capacity |
| ClusterEngine.FinalizedPoints | src/TGM_Detect/TGM_Cluster.c:249-293 | each kept point's new label is an element that counts, starts at and encloses every point of its old label |
| ClusterEngine.DropCount | src/TGM_Detect/TGM_Cluster.c:302-313 | no more elements are dropped than are examined |
| ClusterEngine.LiveCount | src/TGM_Detect/TGM_Cluster.c:302-313 | no more elements are live than are examined |
| ClusterEngine.Cleaned | src/TGM_Detect/TGM_Cluster.c:302-313 | cleaning keeps the array's length |
| ClusterEngine.CleanElmnts | src/TGM_Detect/TGM_Cluster.c:295-316 | `Clean`'s loop zeroes the dropped elements and counts the size down once per drop |
| ClusterEngine.CleanedIdempotent | src/TGM_Detect/TGM_Cluster.c:295-316 | cleaning twice is cleaning once |
| ClusterEngine.CleanedLive | src/TGM_Detect/TGM_Cluster.c:295-316 | after cleaning live elements, the live ones are exactly those kept, and their number is the new size |
| ClusterEngine.MergedElmnts | src/TGM_Detect/TGM_Cluster.c:338-366 | after a merge, dst counts both elements' pairs, src is emptied, and every other element is unchanged. dst's deviation is the corrected pooled deviation (see Findings), not the formula written at lines 350-351 |
| ClusterEngine.MergeKeepsPairTotal | src/TGM_Detect/TGM_Cluster.c:338-366 | merging keeps the total pair count of the array |
| ClusterEngine.Cluster.constructor | src/TGM_Detect/TGM_Cluster.c:83-104 | allocation gives empty arrays, the default element capacity and minimum deviations of -1 |
| ClusterEngine.Cluster.SetMinStd | src/TGM_Detect/TGM_Cluster.c:120-124 | sets the minimum deviations |
| ClusterEngine.Cluster.Init | src/TGM_Detect/TGM_Cluster.c:126-160 | takes the points, empties the elements, doubles a too-small capacity past the size, and makes every point a singleton ring with count 0 |
| ClusterEngine.Cluster.Make | src/TGM_Detect/TGM_Cluster.c:162-188 | adds every point's density to its count |
| ClusterEngine.Cluster.Connect | src/TGM_Detect/TGM_Cluster.c:228-246 | splices m's ring into c's and relabels, keeping the ring invariant |
| ClusterEngine.Cluster.Build | src/TGM_Detect/TGM_Cluster.c:190-226 | every point shares a ring with its center, and rings only merge. They merge no further: every grouping that keeps the old rings together and each point with its center keeps the new rings together. Ring-id labels stay ring ids |
| ClusterEngine.Cluster.Finalize | src/TGM_Detect/TGM_Cluster.c:249-293 | one finished element per kept label; kept points are relabelled with their element |
| ClusterEngine.Cluster.Clean | src/TGM_Detect/TGM_Cluster.c:295-316 | lazily deletes failing elements, records the old size as the length and returns it |
| ClusterEngine.Cluster.Merge | src/TGM_Detect/TGM_Cluster.c:338-366 | connects the first points, pools src into dst, empties src, counts the size down by one (unsigned) and returns dst's new count. The pooling uses the corrected deviation (see Findings) |
| ReadPairAttrbt.CompareAttrbt | src/TGM_Detect/TGM_ReadPairAttrbt.c:25-52 | returns -1 exactly when x's key (first, second, read group) is at most y's, else 1; never 0 |
| ReadPairAttrbt.CompareAttrbtAntisymmetric | src/TGM_Detect/TGM_ReadPairAttrbt.c:25-52 | swapping different keys flips the answer; equal keys give -1 both ways |
| ReadPairAttrbt.CompareAttrbtConnex | src/TGM_Detect/TGM_ReadPairAttrbt.c:25-52 | the comparator is total |
| ReadPairAttrbt.SortedFirstUpTo | src/TGM_Detect/TGM_ReadPairAttrbt.c:120 | after sorting, first attributes never decrease |
| ReadPairAttrbt.SortAttrbtFacts | src/TGM_Detect/TGM_ReadPairAttrbt.c:120 | the attribute sort is sorted, a permutation, and ordered by first attribute |
| ReadPairAttrbt.InvertedDest | src/TGM_Detect/TGM_ReadPairAttrbt.c:176 | every inverted pair goes to array 0 or 1 |
| ReadPairAttrbt.SpecialDest | src/TGM_Detect/TGM_ReadPairAttrbt.c:225 | every special pair goes to one of the special arrays |
| ReadPairAttrbt.RoutedCount | src/TGM_Detect/TGM_ReadPairAttrbt.c:173-193 | each point appears once in the array it is routed to and in no other |
| ReadPairAttrbt.RoutedOnly | src/TGM_Detect/TGM_ReadPairAttrbt.c:173-193 | every routed point is one of the input points and was routed to that array |
| ReadPairAttrbt.RoutedAll | src/TGM_Detect/TGM_ReadPairAttrbt.c:109-118 | when every point goes to one array, that array holds all of them in order |
| ReadPairAttrbt.FillBounds | src/TGM_Detect/TGM_ReadPairAttrbt.c:122-128 | the bounds loop fills every read group's row with its bound |
| ReadPairAttrbt.ReadyToCluster | src/TGM_Detect/TGM_ReadPairAttrbt.c:102-131 | a built array satisfies what the cluster engine needs: every point has a bound row, first bounds are non-negative, and points are sorted by first attribute |
| ReadPairAttrbt.MakeLocalPoints | src/TGM_Detect/TGM_ReadPairAttrbt.c:109-118 | slot i gets the point of pair i |
| ReadPairAttrbt.MakeCrossPoints | src/TGM_Detect/TGM_ReadPairAttrbt.c:140-147 | slot i gets the point of cross pair i |
| ReadPairAttrbt.MakeSpecialBuckets | src/TGM_Detect/TGM_ReadPairAttrbt.c:222-244 | each special array gets, in pair order, the points routed to it |
| ReadPairAttrbt.InvertedSlotsAsWritten | src/TGM_Detect/TGM_ReadPairAttrbt.c:173-193 | as written, each inverted pair takes two slots of its array |
| ReadPairAttrbt.InvertedAsWrittenCountsTwice | src/TGM_Detect/TGM_ReadPairAttrbt.c:181-192 | as written, one inverted pair gives an array of size 2 whose second slot is never written |
| ReadPairAttrbt.AttrbtArray.constructor | src/TGM_Detect/TGM_ReadPairAttrbt.c:55-74 | an empty array of the default capacity with one bound row per read group |
| ReadPairAttrbt.AttrbtArray.ReInit | src/TGM_Detect/TGM_ReadPairAttrbt.c:87-100 | empties the array; the capacity only grows |
| ReadPairAttrbt.AttrbtArray.MakeLocal | src/TGM_Detect/TGM_ReadPairAttrbt.c:102-131 | the array holds every local pair's point, sorted, with the local bound table |
| ReadPairAttrbt.AttrbtArray.MakeCross | src/TGM_Detect/TGM_ReadPairAttrbt.c:133-157 | the array holds every cross pair's point, sorted, with the cross bound table |
| ReadPairAttrbt.SortTwice | src/TGM_Detect/TGM_ReadPairAttrbt.c:120-130 | sorting again finds the array sorted and gives the one sort |
| ReadPairAttrbt.LocalArrayFacts | src/TGM_Detect/TGM_ReadPairAttrbt.c:102-131 | the local array holds every pair's point exactly once, sorted |
| ReadPairAttrbt.CrossArrayFacts | src/TGM_Detect/TGM_ReadPairAttrbt.c:133-157 | the cross array holds every pair's point exactly once, sorted |
| ReadPairAttrbt.Fill | src/TGM_Detect/TGM_ReadPairAttrbt.c:173-193 | the fill loop appends each point to its array, doubling a full array |
| ReadPairAttrbt.InvertedArrays | src/TGM_Detect/TGM_ReadPairAttrbt.c:173-196 | the two inverted arrays hold their routed points, sorted, within their doubled capacities |
| ReadPairAttrbt.MakeInverted | src/TGM_Detect/TGM_ReadPairAttrbt.c:159-207 | with one slot per pair, each inverted array holds its pairs sorted; both share the inverted bound table |
| ReadPairAttrbt.InvertedArrayFacts | src/TGM_Detect/TGM_ReadPairAttrbt.c:159-207 | each inverted array holds exactly the pairs of its type, each once, sorted |
| ReadPairAttrbt.SpecialArrays | src/TGM_Detect/TGM_ReadPairAttrbt.c:222-251 | each special array's contents are its routed points, sorted |
| ReadPairAttrbt.MakeSpecial | src/TGM_Detect/TGM_ReadPairAttrbt.c:209-263 | array 2*specialID+slot holds its special pairs' points, sorted, with array 0's bound table and a doubled capacity |
| ReadPairAttrbt.SpecialArrayFacts | src/TGM_Detect/TGM_ReadPairAttrbt.c:209-263 | each special array holds exactly the pairs routed to it, each once, sorted |
| ReadPairBuild.CheckReadPairType | src/TGM_Detect/TGM_ReadPairBuild.c:89-195 | a ZA tag naming special references makes a pair special 3 (anchor forward), special 5 (anchor reverse) or unknown; otherwise the orientation table decides |
| ReadPairBuild.Filtered | src/TGM_Detect/TGM_ReadPairBuild.c:1411-1432 | a non-special pair with a mate below the minimum mapping quality becomes unknown; special pairs pass |
| ReadPairBuild.LowQualityNotStored | src/TGM_Detect/TGM_ReadPairBuild.c:1401-1432 | a pair the ZA tag does not decide and whose mate maps below the minimum is never stored |
| ReadPairBuild.Pushed | src/TGM_Detect/TGM_ReadPairBuild.c:199-255 | storing a pair appends it and counts it on its chromosome only |
| ReadPairBuild.Appended | src/TGM_Detect/TGM_ReadPairBuild.c:199-255 | the appenders double a full array and add exactly the pair |
| ReadPairBuild.AppendedValid | src/TGM_Detect/TGM_ReadPairBuild.c:199-363 | appending a pair of the array's kind keeps its counters counting |
| ReadPairBuild.CountsSumToSize | src/TGM_Detect/TGM_ReadPairBuild.c:199-255 | the chromosome counters add up to the number of pairs |
| ReadPairBuild.Emptied | src/TGM_Detect/TGM_ReadPairBuild.c:1364-1398 | clearing removes every pair, zeroes every counter and keeps the capacity |
| ReadPairBuild.LocalPairOf | src/TGM_Detect/TGM_ReadPairBuild.c:199-313 | a local pair records its type, fragment length, read group, mode, reference and positions as the appenders fill them |
| ReadPairBuild.CrossPairOf | src/TGM_Detect/TGM_ReadPairBuild.c:315-363 | a cross pair records both references and positions and the invalid quality marker |
| ReadPairBuild.NameBufferAsWritten | src/TGM_Detect/TGM_ReadPairBuild.c:369-377 | as written, a full name table doubles its slots but makes the buffer one byte per name |
| ReadPairBuild.NameBufferOverrun | src/TGM_Detect/TGM_ReadPairBuild.c:369-377 | as written, the first growth leaves a buffer too small for the names already in it |
| ReadPairBuild.DefaultNameBufferOverrun | src/TGM_Detect/TGM_ReadPairBuild.c:538-564 | with the default capacity 10, the eleventh name overruns the 20-byte buffer |
| ReadPairBuild.NameBuffer | src/TGM_Detect/TGM_ReadPairBuild.c:369-377 | the corrected growth always leaves room for the next name at three bytes per name |
| ReadPairBuild.Interned | src/TGM_Detect/TGM_ReadPairBuild.c:396-411 | interning gives a name's existing id or the next id; old ids are kept, and the table grows exactly for a new name |
| ReadPairBuild.InternedAgain | src/TGM_Detect/TGM_ReadPairBuild.c:396-411 | interning is idempotent |
| ReadPairBuild.NamesDistinct | src/TGM_Detect/TGM_ReadPairBuild.c:396-411 | no two slots hold the same name |
| ReadPairBuild.SpecialPairOf | src/TGM_Detect/TGM_ReadPairBuild.c:449-468 | a special pair records its type, its special id and the anchor's reference first |
| ReadPairBuild.SpecialUpdatedStores | src/TGM_Detect/TGM_ReadPairBuild.c:366-474 | the special mate's name is interned, and the pair is added to the array its anchor selects exactly when the fragment window keeps it |
| ReadPairBuild.SpecialUpdatedValid | src/TGM_Detect/TGM_ReadPairBuild.c:366-474 | storing a special pair keeps the special table well formed |
| ReadPairBuild.SpecialCleared | src/TGM_Detect/TGM_ReadPairBuild.c:476-482 | clearing empties both special arrays and keeps the names |
| ReadPairBuild.IdString | src/TGM_Detect/TGM_ReadPairBuild.c:484-499 | the special reference ID lists each interned name's two characters, in id order |
| ReadPairBuild.IdStringInterned | src/TGM_Detect/TGM_ReadPairBuild.c:396-411 | interning a new name extends the ID by that name; a known name leaves it unchanged |
| ReadPairBuild.GetID | src/TGM_Detect/TGM_ReadPairBuild.c:484-499 | there is no ID for a missing or empty table; otherwise the ID string |
| ReadPairBuild.Dispatched | src/TGM_Detect/TGM_ReadPairBuild.c:1434-1467 | normal and unknown pairs leave the tables unchanged |
| ReadPairBuild.DispatchedValid | src/TGM_Detect/TGM_ReadPairBuild.c:1434-1467 | storing a pair keeps every array of the table well formed |
| ReadPairBuild.DispatchedStoresOne | src/TGM_Detect/TGM_ReadPairBuild.c:1434-1467 | a pair adds exactly one entry when its array exists and it is kept, and none otherwise |
| ReadPairBuild.SpecialStoresOne | src/TGM_Detect/TGM_ReadPairBuild.c:428-473 | a special pair adds one entry exactly when a special table exists and the fragment window keeps it |
| ReadPairBuild.ClearedTables | src/TGM_Detect/TGM_ReadPairBuild.c:1364-1398 | after clearing, the tables store nothing |
| ReadPairBuild.ClearedValid | src/TGM_Detect/TGM_ReadPairBuild.c:1364-1398 | clearing keeps the tables well formed |
| ReadPairBuild.ReadPairTable.constructor | src/TGM_Detect/TGM_ReadPairBuild.c:582-633 | one empty array per detected class, and an empty special table when retrotransposons are detected |
| ReadPairBuild.ReadPairTable.Update | src/TGM_Detect/TGM_ReadPairBuild.c:1401-1467 | classifies, filters and stores the pair as `Dispatched` does, keeping the table well formed |
| ReadPairBuild.ReadPairTable.Clear | src/TGM_Detect/TGM_ReadPairBuild.c:1364-1398 | empties every array and keeps the special names |
| DetectEvents.LexCompare | src/TGM_Detect/TGM_ReadPairDetect.c:80-141 | lexicographic comparison answers 0 exactly on equal keys |
| DetectEvents.LexTransitive | src/TGM_Detect/TGM_ReadPairDetect.c:80-141 | "at most" under the comparison is transitive |
| DetectEvents.CompareDelEvents | src/TGM_Detect/TGM_ReadPairDetect.c:80-112 | deletion events compare by reference, position, length and quality, and are equal only when all four agree |
| DetectEvents.CompareSpecialEvents | src/TGM_Detect/TGM_ReadPairDetect.c:114-141 | special events compare by reference, position and length, and are equal only when all three agree |
| DetectEvents.DelCompareIsLex | src/TGM_Detect/TGM_ReadPairDetect.c:80-112 | the deletion comparator is the lexicographic order of its keys |
| DetectEvents.SpecialCompareIsLex | src/TGM_Detect/TGM_ReadPairDetect.c:114-141 | the special comparator is the lexicographic order of its keys |
| DetectEvents.DelOrderIsTotal | src/TGM_Detect/TGM_ReadPairDetect.c:80-112 | the deletion comparator is antisymmetric, transitive and total |
| DetectEvents.SpecialOrderIsTotal | src/TGM_Detect/TGM_ReadPairDetect.c:114-141 | the special comparator is antisymmetric, transitive and total |
| DetectEvents.SortedDelEvents | src/TGM_Detect/TGM_ReadPairDetect.c:870 | sorting deletion events gives a sorted permutation |
| DetectEvents.SortedSpecialEvents | src/TGM_Detect/TGM_ReadPairDetect.c:523 | sorting special events gives a sorted permutation |
| DetectEvents.MergeSpecial | src/TGM_Detect/TGM_ReadPairDetect.c:664-703 | the merged event's counts add up; a link is made exactly when both events support one side; the position uncertainty is undefined (division by zero) exactly when no forward pairs remain |
| DetectEvents.MergeSpecialSpans | src/TGM_Detect/TGM_ReadPairDetect.c:666-693 | the spans of the shared side are unioned and the link joins that side's clusters; otherwise they come from the right event |
| DetectEvents.MergeKeepsIdsValid | src/TGM_Detect/TGM_ReadPairDetect.c:664-703 | merging keeps the supported sides' cluster ids valid, and the link names valid points |
| DetectEvents.ScanFromKeeps | src/TGM_Detect/TGM_ReadPairDetect.c:525-551 | every merge removes one event, and merging pools the fragment counts |
| DetectEvents.MergeScanPreserves | src/TGM_Detect/TGM_ReadPairDetect.c:525-551 | the scan never drops events: kept events plus merges equal the input, and both count sums are kept |
| DetectEvents.MergeScanIdsValid | src/TGM_Detect/TGM_ReadPairDetect.c:525-551 | the scan leaves events that name valid clusters, and links between valid points |
| DetectEvents.ScanHead | src/TGM_Detect/TGM_ReadPairDetect.c:527-550 | one pass of the scan merges the head into the tail slot or copies it after the tail, as one scan step |
| DetectEvents.MergeScan | src/TGM_Detect/TGM_ReadPairDetect.c:525-551 | the array's prefix becomes the scan's events, with the new size and the connections the merges made |
| SpecialMake.WalkFrom | src/TGM_Detect/TGM_ReadPairDetect.c:588-635 | the walk starts at the element's first point |
| SpecialMake.WalkFollowsNext | src/TGM_Detect/TGM_ReadPairDetect.c:588-635 | the walk follows `next` through distinct points until it is back at the start |
| SpecialMake.WalkCoversRing | src/TGM_Detect/TGM_ReadPairDetect.c:588-635 | the walk visits exactly the points of the start's ring |
| SpecialMake.BoundsBracket | src/TGM_Detect/TGM_ReadPairDetect.c:588-635 | the walk's bounds enclose every visited span (as unsigned) |
| SpecialMake.BoundsAttained | src/TGM_Detect/TGM_ReadPairDetect.c:588-635 | each bound is one of the visited spans' values |
| SpecialMake.EventFromSides | src/TGM_Detect/TGM_ReadPairDetect.c:637-661 | a special-3 event sits at the 5' span's end with forward support, any other at the 3' span's start with reverse support; its spans are the bounds and its length is 0 |
| SpecialMake.UnsignedRoundTrip | src/TGM_Detect/TGM_ReadPairDetect.c:637-661 | an unsigned value stored in an int reads back unchanged as unsigned |
| SpecialMake.MakeSpecialEvent | src/TGM_Detect/TGM_ReadPairDetect.c:573-662 | the made event is the event of the walk once round the element's ring |
| SpecialMake.ConnectLink | src/TGM_Detect/TGM_ReadPairDetect.c:674-693 | connecting a link changes the clustering it names exactly as `Connect` does (`ConnectedAs`), and leaves the other clustering unchanged |
| SpecialMake.ApplyLinks | src/TGM_Detect/TGM_ReadPairDetect.c:674-693 | after the scan's connections, every link's points share a ring and rings have only merged. In each clustering they merge no further: a grouping that keeps its old rings together and each of its links' points together keeps its new rings together |
| SpecialMake.LinkMergesNoFurther | src/TGM_Detect/TGM_ReadPairDetect.c:674-693 | applying link k keeps each clustering merged no further than its first k + 1 links force |
| SpecialMake.LinksStayJoined | src/TGM_Detect/TGM_ReadPairDetect.c:674-693 | applying link k keeps the earlier links joined, joins link k, and only merges rings |
| SpecialMake.LinkApplied | src/TGM_Detect/TGM_ReadPairDetect.c:674-693 | applying link k as `Connect` does carries the loop's state past link k |
| SpecialMake.StaysJoined | src/TGM_Detect/TGM_ReadPairDetect.c:674-693 | joined points stay joined when rings only merge |
| FindDeletions.DelWalkOf | src/TGM_Detect/TGM_ReadPairDetect.c:754-797 | after k points, the walk has buffered k values of each kind, and a last pair exactly when k > 0 |
| FindDeletions.DelWalkBuffers | src/TGM_Detect/TGM_ReadPairDetect.c:754-797 | the buffers hold each visited pair's deviation and mapping qualities, in walk order |
| FindDeletions.DelWalkDiffRange | src/TGM_Detect/TGM_ReadPairDetect.c:754-797 | the walk's least and greatest deviation bracket its buffer |
| FindDeletions.DelWalkSpans | src/TGM_Detect/TGM_ReadPairDetect.c:754-797 | once a pair has been seen, each span's least position is at most its greatest |
| FindDeletions.WalkElement | src/TGM_Detect/TGM_ReadPairDetect.c:754-797 | the walk goes round element i's ring from its first point and collects `DelWalkOf` of it |
| FindDeletions.Quality | src/TGM_Detect/TGM_ReadPairDetect.c:811 | the quality of an event is below 100 |
| FindDeletions.QualityRatio | src/TGM_Detect/TGM_ReadPairDetect.c:811 | the quality ratio n*100/(n+10) is 100 - 1000/(n+10), in [0, 100) |
| FindDeletions.QualityMonotone | src/TGM_Detect/TGM_ReadPairDetect.c:811 | more pairs never lower the quality |
| FindDeletions.SpanUnion | src/TGM_Detect/TGM_ReadPairDetect.c:50-78 | the merged span takes the least start and the greatest ends of the two spans |
| FindDeletions.StepResult | src/TGM_Detect/TGM_ReadPairDetect.c:799-864 | visiting element i keeps the array's length and leaves the elements after i untouched |
| FindDeletions.CandidateIntervals | src/TGM_Detect/TGM_ReadPairDetect.c:803-831 | a candidate's confidence intervals lie around 0 |
| FindDeletions.CorrectedIntervals | src/TGM_Detect/TGM_ReadPairDetect.c:846-856 | the repeat correction keeps the intervals around 0 and changes only position, length and their intervals |
| FindDeletions.CandidateHolds | src/TGM_Detect/TGM_ReadPairDetect.c:803-856 | the corrected candidate of an element with enough pairs records that element |
| FindDeletions.MergedHolds | src/TGM_Detect/TGM_ReadPairDetect.c:50-78 | a merged event records the merged element's count |
| FindDeletions.StepKeepsEvents | src/TGM_Detect/TGM_ReadPairDetect.c:799-864 | visiting an element keeps every kept event true of its element, and moves the bound past i |
| FindDeletions.EventsIncrease | src/TGM_Detect/TGM_ReadPairDetect.c:858-864 | the kept events' element numbers strictly increase |
| FindDeletions.StepKeepsTotal | src/TGM_Detect/TGM_ReadPairDetect.c:858-864 | visiting an element moves pairs between elements but loses none |
| FindDeletions.DelEventMerge | src/TGM_Detect/TGM_ReadPairDetect.c:50-78 | merges element i into the last event's element, and the last event into its merge with the candidate |
| FindDeletions.FindDelStep | src/TGM_Detect/TGM_ReadPairDetect.c:799-864 | the body of the scan for a live element yields exactly `StepResult` |
| FindDeletions.VisitElement | src/TGM_Detect/TGM_ReadPairDetect.c:754-864 | one live element: the walk is `ElementWalk` of its ring, the new events and elements are `StepResult` of that walk, and the links change exactly as `Connect` does for an overlapping candidate, or not at all. The kept events stay true, no pair is lost, and the elements after i are untouched |
| FindDeletions.FindDel | src/TGM_Detect/TGM_ReadPairDetect.c:715-873 | the events found and the final elements are exactly `DelScanFrom` of the cluster as it was: each live element in turn is walked and visited as `StepResult` says. The events are true of their elements, no pair is lost, and the result is a sorted permutation of the events found |
| FindDeletions.StepOutcomes | src/TGM_Detect/TGM_ReadPairDetect.c:799-864 | visiting a live element: a median deviation below 1 changes nothing; an overlapping candidate replaces the last event by the merge and merges element i into that event's element; any other candidate is appended exactly when the median is at least 1, the element has at least `minNumClustered` pairs and the corrected length is at least `minEventLength` (unsigned). The appended event names element i, ends at the 3' span's least position and has the quality of its pair count |
| FindDeletions.ElementWalk | src/TGM_Detect/TGM_ReadPairDetect.c:754-797 | the walk round the ring through an element's first point has seen a pair, its spans are ordered, and its deviation extremes bracket its buffer |
| FindDeletions.VisitFacts | src/TGM_Detect/TGM_ReadPairDetect.c:754-864 | visiting live element i walks its ring in the current links, changes the elements and events as `StepResult` says and the links as `VisitLinks` says |
| FindDeletions.VisitLinksDecompose | src/TGM_Detect/TGM_ReadPairDetect.c:858-859 | the links after a visit still decompose into rings over the same points |
| FindDeletions.VisitKeepsReady | src/TGM_Detect/TGM_ReadPairDetect.c:754-864 | a visit keeps the array's length and leaves the scan ready at the next element: the links still decompose into rings and the kept events hold of the elements up to i |
| FindDeletions.VisitIsVisited | src/TGM_Detect/TGM_ReadPairDetect.c:754-864 | what the walk and the step of one element ensure together is one visit of `DelScanFrom` |
| FindDeletions.VisitAdvances | src/TGM_Detect/TGM_ReadPairDetect.c:724-867 | a visit takes one step of `DelScanFrom`, leaves the scan ready at i + 1, changes no element after i and loses no pair |
| FindDeletions.ScanSkips | src/TGM_Detect/TGM_ReadPairDetect.c:726-730 | an element with no pairs is passed over: one step of `DelScanFrom` that changes nothing |
| FindDeletions.ScanAtSkip | src/TGM_Detect/TGM_ReadPairDetect.c:726-730 | passing over an element with no pairs keeps the loop's state at the next element, with the same count of visits |
| FindDeletions.ScanAtVisit | src/TGM_Detect/TGM_ReadPairDetect.c:732-866 | visiting a live element keeps the loop's state at the next element, with one more visit |
| FindDeletions.ScanAtEnd | src/TGM_Detect/TGM_ReadPairDetect.c:724-867 | once `numClusters` live elements are visited, the events and elements are `DelScanFrom` of the start, the events hold of the final elements, and no pair is lost |
| FindDeletions.ScanVisit | src/TGM_Detect/TGM_ReadPairDetect.c:732-866 | visiting a live element of the cluster is one visit of `DelScanFrom` |
| FindDeletions.VisitTurn | src/TGM_Detect/TGM_ReadPairDetect.c:732-867 | visiting live element i keeps the loop's state at the next element, with one more visit, and keeps the cluster valid |
| FindDeletions.ScanTurn | src/TGM_Detect/TGM_ReadPairDetect.c:724-867 | one turn of the loop moves its state to the next element |
| FindDeletions.AdvanceAsWritten | src/TGM_Detect/TGM_ReadPairDetect.c:799-801 | as written, a live element whose median deviation is below 1 advances neither counter |
| FindDeletions.ShortClusterNeverAdvances | src/TGM_Detect/TGM_ReadPairDetect.c:724-867 | as written, the loop stays on such an element for ever, with the loop condition still true |
| DetectJobs.PushCapacityAsWritten | src/TGM_Detect/TGM_ReadPairDetect.c:192-204 | as written, a full stack doubles its capacity |
| DetectJobs.ZeroCapacityNeverGrows | src/TGM_Detect/TGM_ReadPairDetect.c:143-169 | as written, a stack allocated for zero threads never gains room, whatever is pushed |
| DetectJobs.PushCapacity | src/TGM_Detect/TGM_ReadPairDetect.c:192-204 | the corrected growth always leaves room for the pushed job |
| DetectJobs.Popped | src/TGM_Detect/TGM_ReadPairDetect.c:206-215 | popping an empty stack gives nothing; otherwise the last job, and the rest |
| DetectJobs.PushPop | src/TGM_Detect/TGM_ReadPairDetect.c:192-215 | pushing then popping gives the job back and restores the stack |
| DetectJobs.PushAllAppends | src/TGM_Detect/TGM_ReadPairDetect.c:192-204 | pushing several jobs appends them |
| DetectJobs.LastInFirstOut | src/TGM_Detect/TGM_ReadPairDetect.c:192-215 | as many pops as pushes return the jobs in reverse order and restore the stack |
| DetectJobs.JobStack.constructor | src/TGM_Detect/TGM_ReadPairDetect.c:143-169 | an empty stack with room for two jobs per thread |
| DetectJobs.JobStack.IsEmpty | src/TGM_Detect/TGM_ReadPairDetect.h:168 | the stack is empty exactly when it holds no job |
| DetectJobs.JobStack.Push | src/TGM_Detect/TGM_ReadPairDetect.c:192-204 | the job is on top and the capacity grows as corrected |
| DetectJobs.JobStack.Pop | src/TGM_Detect/TGM_ReadPairDetect.c:206-215 | returns and removes the top job, or reports an empty stack unchanged |
| DetectJobs.AssistArray.Resize | src/TGM_Detect/TGM_ReadPairDetect.c:402-418 | the size becomes the request; the buffers are replaced at twice the request only when it exceeds the capacity, and kept otherwise |
| Reference.GetSeqID | src/TGM_Common/TGM_Reference.h:167-173 | negative IDs pass through, ordinary IDs are kept, and larger IDs are clamped to the last sequence |
| Reference.SeqIDClamps | src/TGM_Common/TGM_Reference.h:167-173 | clamping twice is clamping once, and never goes past the last sequence |
| Reference.GetSpecialRefIDFromRefID | src/TGM_Common/TGM_Reference.h:266-272 | -1 without special references or for ordinary IDs; otherwise the index among the special references |
| Reference.BeginPos | src/TGM_Common/TGM_Reference.h:286-289 | a begin position fits in 32 bits |
| Reference.SpecialLookup | src/TGM_Common/TGM_Reference.c:466-505 | no special information gives an error; a hit lies within its view at the right offset |
| Reference.GetRefFromSpecialPos | src/TGM_Common/TGM_Reference.c:466-505 | the search loop computes `SpecialLookup` |
| Reference.SpecialRoundTrip | src/TGM_Common/TGM_Reference.c:466-505 | offset p of special reference s maps back to ID numSeqs-1+s at offset p, and that ID maps back to s |
| Reference.SpecialMiss | src/TGM_Common/TGM_Reference.c:466-505 | positions in the padding or past the last reference give an error |
| Reference.EndsGapped | src/TGM_Common/TGM_Reference.c:602-632 | the recorded ends are separated by the padding, and the last is followed by exactly the padding |
| Reference.JoinedSegment | src/TGM_Common/TGM_Reference.c:562-676 | reference k occupies exactly [BeginPos(k), endPos[k]] of the concatenation |
| Reference.SpecialLoader.AddLine | src/TGM_Common/TGM_Reference.c:576-599 | a sequence line's token is appended to the sequence and the open reference |
| Reference.SpecialLoader.CloseRef | src/TGM_Common/TGM_Reference.c:602-632 | a header line closes a non-empty open reference, records its end and appends the padding |
| Reference.SpecialLoader.Finish | src/TGM_Common/TGM_Reference.c:647-670 | end of input closes the open reference without padding; the information is dropped when nothing was loaded |
| Reference.LoadedSegment | src/TGM_Common/TGM_Reference.c:562-676 | every character of every loaded reference sits at its begin position plus its offset |
| Reference.LoadedRoundTrip | src/TGM_Common/TGM_Reference.c:466-676 | every offset of every loaded reference is found again at its own ID and offset |
| Reference.SkipBlanks | src/TGM_Common/TGM_Reference.c:51-77 | the first non-blank at or after i, with only blanks before it |
| Reference.TokenEnd | src/TGM_Common/TGM_Reference.c:51-77 | the first token-ending character at or after i |
| Reference.ProcessRefLine | src/TGM_Common/TGM_Reference.c:51-77 | skips the leading blanks and uppercases the token in place, returning its start and length |
| Reference.ProcessRefLineIdempotent | src/TGM_Common/TGM_Reference.c:51-77 | processing a processed line finds the same token and changes nothing |
| Reference.GetRefID | src/TGM_Common/TGM_Reference.c:390-397 | a known name gives its stored ID and an unknown one -1 |
| Reference.RefIDKnown | src/TGM_Common/TGM_Reference.c:390-397 | with non-negative IDs, a name is known exactly when its ID is non-negative |
| Reference.RefHeader.constructor | src/TGM_Common/TGM_Reference.c:192-227 | an empty header with the requested capacity of empty name slots |
| Reference.RefHeader.SetName | src/TGM_Common/TGM_Reference.c:80-139 | stores the text after '>' up to the first blank in slot numRefs, doubling a full table first; numRefs is not advanced |
| Reference.RefSeq.constructor | src/TGM_Common/TGM_Reference.c:165-180 | an empty reference sequence of the requested capacity |
| Reference.RefSeq.Reset | src/TGM_Common/TGM_Reference.h:41-47 | the sequence length becomes 0 |

## Left out

- File and stream I/O is not modelled. This covers:
  - the build loop over the BAM file and the temporary pair files;
  - the reference read, skip, jump and write routines;
  - the header reader;
  - the line reads of the special-reference loader, whose lines are parameters.
- The job stack's mutex (lock and unlock) is not modelled, and threads are not modelled.
- The free routines and the allocation-failure paths are not modelled.
- The MD5 of the reference (`SetMd5`) is not part of this model.
- The hash tables (khash) are modelled as Dafny maps.
- The print routines (`TGM_ClusterPrint`, `SpecialEventPrint`) are not modelled.
- The empty detection stubs for tandem duplications, inversions and translocations are not modelled.
- The split-read functions named in the headers are not part of this model.
- The gathering loops of `TGM_DetectSpecial` (lines 495-521) are not a method. They make an event per live element (`MakeSpecialEvent`) and feed the scan (`MergeScan`), and each of those is modelled.
- DetectJobs.AssistArray.Resize: the contents of reallocated buffers are left unspecified. The `RESIZE_NO_COPY` behaviour is therefore not stated.
- Integer widths are modelled only where they matter. The model does not cover:
  - the overflow of 32-bit coordinates, the `newSize * 2` products and the 32/64-bit capacities;
  - the truncating bit-fields `refID:16` and `mapQ:8`, and the 16-bit special IDs.
  The unsigned comparisons of the event code are modelled with `AsUnsigned`.
- The fragment-length quality from the histogram, the orientation table's entries and the invalid-quality marker are taken as parameters.
- The alignment's end (`bam_calend`) and the mismatch counts are inputs.
- ReadPairBuild.ReadPairTable.Update requires the pair's reference ids to be mapped (`Readable`). Unmapped ids are never handed over by the caller.
- The pair arrays of the read-pair table are held as values inside the table object. Aliasing between them is not modelled.
- `DoubleRoundToInt` is taken to round halves away from zero. `FindMedianInt` is taken to return the middle element of the sorted values.
- Doubles are exact reals. Rounding errors are not modelled, and NaN is modelled only as the value of sqrt of a negative number.
- The `sense` field of the events is not modelled.
- `RunAsWritten` (the as-written scan of `TGM_ReadPairFindDel`) takes a fuel bound. Its lemma holds for every fuel.
- The merge scan of `TGM_DetectSpecial` compares each head with the already merged tail, so chains of near events coalesce into one. This goes against a plain pairwise reading, and the model follows the code.
- The deletion quality is computed with an `(int)` cast, which truncates rather than rounds. The model follows the code.
- Some source behaviours are suspect but are modelled as written:
  - `Finalize`'s density filter;
  - `Merge` counting the cluster's size down by one (its deviation is the corrected one; see the line below);
  - `CompareAttrbt` never answering 0;
  - the division by zero in `SpecialEventMerge` when no forward pairs remain, which gives `None`.
- ClusterEngine.Cluster.Merge: the merged deviation is the corrected pooled one, not the formula written at `TGM_Cluster.c:350-351` (see Findings). The scratch deviation that line 351 writes into src is not modelled either: src is emptied, and nothing reads that value afterwards.
- FindDeletions.FindDel: the median deviation is taken over the whole ring walk. The source sizes its buffer to the element's `numReadPair` (`TGM_ReadPairDetect.c:746-747`) and takes the median of that many entries (798). The two agree when each live element's count equals the length of its ring. `Finalize` makes that so, because a ring's points share a label and are kept or dropped together. The model does not state this as an invariant of the cluster.
- Sorting.SortBy fixes one order for points or events that compare as ties (insertion order). The source's `qsort` leaves that order unspecified, so the model's order is one of the orders the source may produce.
- ReadPairAttrbt.InvertedSlotsAsWritten: the as-written double increment is modelled for one pair at a time. The later overflow is not: with `size == capacity - 1`, size steps over `capacity`, and the `==` check at `TGM_ReadPairAttrbt.c:178` never grows the array again.
- DetectEvents.MergeScan does not include the `qsort` that follows the scan (`TGM_ReadPairDetect.c:553`).
- Numeric.RoundStdError gives 0 for a NaN deviation. The value is arbitrary, but the case cannot arise: `Clean` drops the elements whose deviation is NaN before any event is made, and the corrected merge never produces one.
- Reference.RefHeader.SetName models the name slots of a grown table as `None`. The source leaves them uninitialised.
- Reference.SpecialLoader.Finish does not model the write of `endPos[numRefs]` at `TGM_Reference.c:650`, which the source does not bounds-check.

## Findings

| source | as written | input that shows it | evidently intended | confidence | as-written member | corrected member |
|---|---|---|---|---|---|---|
| src/TGM_Detect/TGM_ReadPairAttrbt.c:181-192 | `MakeInverted` advances the target array's `size` twice per pair | one inverted pair: its array gets size 2, and slot 1 is never written | one slot per pair | not executed | ReadPairAttrbt.InvertedAsWrittenCountsTwice | ReadPairAttrbt.MakeInverted |
| src/TGM_Detect/TGM_Cluster.c:350-351 | `Merge` rebuilds each square sum as `(std^2 + mean + mean) * n` | two one-point elements at 3.0: sqrt(6 - 9) gives NaN | `(std^2 + mean^2) * n`, the pooled deviation (0 here) | not executed | ClusterStats.MergedStdAsWrittenIsWrong | ClusterStats.MergeIsPooled, used by ClusterEngine.MergedElmnts and ClusterEngine.Cluster.Merge |
| src/TGM_Detect/TGM_ReadPairDetect.c:799-801 | `FindDel` leaves the loop body with `continue` before `++i` and `++counter` | a live element whose median deviation is below 1: the loop never ends | advance to the next element | not executed | FindDeletions.ShortClusterNeverAdvances | FindDeletions.FindDel |
| src/TGM_Detect/TGM_ReadPairDetect.c:192-204 | `Push` doubles the capacity when full, and a stack for 0 threads has capacity 0 | numThread = 0, then one push: it writes past a buffer of size 0 | a full stack always gains room | not executed | DetectJobs.ZeroCapacityNeverGrows | DetectJobs.PushCapacity |
| src/TGM_Detect/TGM_ReadPairBuild.c:369-377 | the name buffer is reallocated to one byte per name slot, where each name takes three bytes | default capacity 10: the eleventh name starts at byte 30 of a 20-byte buffer | three bytes per name slot | not executed | ReadPairBuild.DefaultNameBufferOverrun | ReadPairBuild.NameBuffer |
