# Coupling analysis and hierarchical clustering of Java classes

The modelled program reads the Java sources of a project. It counts how often
methods of one class invoke methods on another class, and turns those counts
into a symmetric coupling weight between classes. It then groups the classes
into modules by agglomerative hierarchical clustering over those weights.

The model has four modules:

- `Collections` (`collections.dfy`) holds the vocabulary shared by the other
  modules:
  - `Option` for Java's null;
  - `NoDuplicates` and `IsEnumeration`, which stand for the iteration order of
    a `HashMap` or `HashSet`;
  - `RemoveFirst` for `List.remove(Object)`.
- `JavaStrings` (`java_strings.dfy`) holds the Java string operations the
  parser relies on: `trim().isEmpty()`, `String.split` with a literal
  separator (trailing empty pieces dropped), and the first piece of a split
  on '.'.
- `Coupling` (`coupling.dfy`) models the AST visitor of `Parser`:
  - the class `Parser` holds the static maps and the visitor's current class
    and method;
  - its callbacks for type declarations, method declarations and method
    invocations update them in place;
  - `GetCouplingMetrics` builds the nested weight map.

  The class invariant `Valid` says:
  - "TOTAL" is the only key of the total counter map;
  - "TOTAL" is present exactly when some pair was counted;
  - "TOTAL" is the sum of all pair counters;
  - every pair counter is at least 1;
  - every pair key is a well-formed `caller -> callee` of two names without a
    space, the callee non-empty;
  - the current class, when set, has no space in its name;
  - every registered class has a method set.

  The weight map is specified by `MetricsOf`, a fold of `AddRelation` over
  the counter keys in iteration order. Lemmas prove three facts about it:
  - it is symmetric;
  - its weights lie in (0, 1];
  - the direction visited last overwrites the other.
- `Clustering` (`clustering.dfy`) models `HierarchicalClustering`:
  - the class `Cluster`, with its member set updated in place by `Merge`;
  - the two `calculateAverageCoupling` loops;
  - `performClustering`.

  The averages are specified by exact-real tallies: `TallyOver` for a set of
  pairs, and `RowsTally` for the `i < j` pairs of one cluster. The pair
  selection is specified by `IsFirstBest`: the first pair in `i < j` scan
  order that reaches the largest average above the initial -1. Each phase
  returns a ghost trace of the member sets after every merge. Every step of
  the trace is a merge of the first best pair. The trace stays a partition of
  the classes of the metric map.

## Model

| member | source | states |
|---|---|---|
| Collections.RemoveFirst | src/MAIN/HierarchicalClustering.java:86 | `clusters.remove(x)` leaves the list unchanged when `x` is absent. Otherwise it is one shorter. It never introduces an element. |
| Collections.RemoveFirstAt | src/MAIN/HierarchicalClustering.java:86 | In a list without duplicates, removing the element found at position `k` deletes exactly position `k`. The order of the others is kept. |
| Collections.EnumerationSize | src/MAIN/HierarchicalClustering.java:52-56 | Iterating a key set visits as many keys as the set has, so there is one initial cluster per class. |
| JavaStrings.TrimStart | src/MAIN/Parser.java:102 | The result is a suffix of the input. Only characters at or below U+0020 were dropped. It starts with a character above U+0020, or is empty. |
| JavaStrings.TrimEnd | src/MAIN/Parser.java:102 | The result is a prefix of the input. Only characters at or below U+0020 were dropped. It ends with a character above U+0020, or is empty. |
| JavaStrings.BlankIffNoVisibleChar | src/MAIN/Parser.java:122 | `trim().isEmpty()` holds exactly when no character of the string is above U+0020. |
| JavaStrings.IndexFrom | src/MAIN/Parser.java:243 | The search returns the first occurrence of the separator at or after `from`, or reports that there is none. |
| JavaStrings.Trim | src/MAIN/Parser.java:102 | `trim()` is no longer than the string, and its result is empty or starts and ends with a character above U+0020. |
| JavaStrings.IsBlank | src/MAIN/Parser.java:102 | `trim().isEmpty()`, defined on `Trim`. `BlankIffNoVisibleChar` characterises it. |
| JavaStrings.NoMatchBeforeFirst | src/MAIN/Parser.java:243 | The text before the first occurrence of the separator holds no occurrence of it. |
| JavaStrings.SplitAll | src/MAIN/Parser.java:243 | Splitting on a separator yields at least one piece, and no piece contains the separator. |
| JavaStrings.JoinSplitAll | src/MAIN/Parser.java:243 | Joining the pieces of a split with the separator gives back the original string. |
| JavaStrings.DropTrailingEmpty | src/MAIN/Parser.java:243 | Java's `split` drops only trailing empty pieces, and all of them: the result is a prefix of the pieces, and its last piece is non-empty. |
| JavaStrings.JavaSplit | src/MAIN/Parser.java:93 | `split` with a literal separator: the whole string when the separator does not occur; otherwise a prefix of the pieces whose last piece is non-empty, only empty pieces dropped. No piece contains the separator. |
| JavaStrings.FirstSegment | src/MAIN/Parser.java:93 | The first segment is a prefix without '.'. When it is shorter than the name, a '.' follows it. |
| JavaStrings.SplitOnDotFirstPiece | src/MAIN/Parser.java:93 | `split("\\.")[0]` equals the text before the first '.'. |
| Coupling.IsUserDefinedClass | src/MAIN/Parser.java:120-133 | True exactly when the name is non-null, has a character above U+0020, and does not start with "java.", "javax." or "org.". |
| Coupling.CountsInvocation | src/MAIN/Parser.java:77-108 | The conditions of a counted call, as a definition: inside a method of a class, with a non-null, non-blank called class that passes `isUserDefinedClass`. `SelfInvocationIsCounted` and `Parser.VisitMethodInvocation` state what it implies. |
| Coupling.CalledClass | src/MAIN/Parser.java:82-99 | A called class is found exactly for the four receiver kinds the visitor handles. For a qualified name it is a '.'-free prefix. Otherwise it is the node's identifier. |
| Coupling.ExtractedNamesPassLibraryFilter | src/MAIN/Parser.java:127 | The library-prefix test never rejects a name the visitor extracts, so such a name is accepted exactly when it is not blank. |
| Coupling.ExtractedNameIsToken | src/MAIN/Parser.java:82-99 | An extracted called class is space-free when the receiver's text is. |
| Coupling.CountedCalleeIsName | src/MAIN/Parser.java:102-108 | A callee that passes the filters is a non-empty, space-free name. |
| Coupling.SelfInvocationIsCounted | src/MAIN/Parser.java:108-112 | A call inside a method of `A` on a receiver named `A` is counted, for any Java identifier `A` outside the library prefixes (no space, first character above U+0020). Self pairs are not excluded. |
| Coupling.RelationKey | src/MAIN/Parser.java:111 | The key `currentClass + " -> " + calledClass`, as a definition. `RelationKeyRoundTrip` states its inverse. |
| Coupling.RelationKeyRoundTrip | src/MAIN/Parser.java:243-245 | The key `caller + " -> " + callee` splits back into exactly `[caller, callee]` for space-free names with a non-empty callee. |
| Coupling.ArrowFreeNamesCanSplitWrongly | src/MAIN/Parser.java:243-245 | Names free of " -> " are not enough for the round trip: with caller "a ->" and callee "b", the key splits into "a" and "-> b". |
| Coupling.CountOf | src/MAIN/Parser.java:211 | `getOrDefault(key, 0)`, as a definition. The invariant `CountersConsistent` ties the "TOTAL" entry to the sum of the pair counters, and `PrintedMetricIsStoredWeight` uses it. |
| Coupling.Merge1 | src/MAIN/Parser.java:110 | `merge(key, 1, Integer::sum)` adds the key, raises its count by one, and keeps every other count. |
| Coupling.SumCountsRemove | src/MAIN/Parser.java:110-112 | The sum of the counters is any one counter plus the sum of the rest. |
| Coupling.SumCountsMerge1 | src/MAIN/Parser.java:112 | One `merge(key, 1, Integer::sum)` raises the sum of all pair counters by exactly one. |
| Coupling.CountAtMostSum | src/MAIN/Parser.java:110-112 | Every pair counter is at most the sum of all of them. |
| Coupling.CountedInvocationKeepsSync | src/MAIN/Parser.java:110-112 | One more in "TOTAL" and one more for one pair keeps the invariant: "TOTAL" equals the sum of the pair counters, which are positive and carry well-formed keys. |
| Coupling.EmptyCountersConsistent | src/MAIN/Parser.java:16-17 | The empty counters satisfy the invariant. |
| Coupling.Denominator | src/MAIN/Parser.java:248 | `getOrDefault("TOTAL", 1)`, as a definition. `DenominatorBoundsCounts` states its properties. |
| Coupling.DenominatorBoundsCounts | src/MAIN/Parser.java:248 | Under the invariant, `getOrDefault("TOTAL", 1)` is at least 1 and bounds every pair counter. Every key splits into two names. |
| Coupling.PrintedMetric | src/MAIN/Parser.java:223 | The printed metric is 0 when the total is 0, and lies in [0, 1] when the pair count is at most the total. |
| Coupling.PrintedMetricIsStoredWeight | src/MAIN/Parser.java:223 | Under the invariant, the printed metric of a pair equals the weight `getCouplingMetrics` stores for it. |
| Coupling.Weight | src/MAIN/Parser.java:248 | The stored weight times the denominator is the pair's count: the weight is the count's share of the total. |
| Coupling.WeightInUnitInterval | src/MAIN/Parser.java:248 | A count between 1 and the denominator gives a weight in (0, 1]. |
| Coupling.RelationOf | src/MAIN/Parser.java:243-248 | `split(" -> ")`, `classes[0]`, `classes[1]` and the metric of one counter key, as a definition. `RelationKeyRoundTrip` states which names it yields, and `MetricsOfProperties` bounds the metric. |
| Coupling.RelationsOf | src/MAIN/Parser.java:242-248 | The relations of the visited keys in iteration order, as a definition. `MetricsOfProperties` states their properties. |
| Coupling.PutNested | src/MAIN/Parser.java:251-256 | `computeIfAbsent(c1, k -> new HashMap<>()).put(c2, w)`, as a definition. `PutNestedEntries` states its effect. |
| Coupling.PutNestedEntries | src/MAIN/Parser.java:251-253 | `computeIfAbsent(c1, ...).put(c2, w)` sets `m[c1][c2]` to `w` and changes no other entry. |
| Coupling.AddRelation | src/MAIN/Parser.java:251-256 | One loop iteration, as a definition: both `put` calls with the pair's weight. `AddRelationEntries` states its effect. |
| Coupling.BuildMetrics | src/MAIN/Parser.java:242-257 | The map after the loop visits the given relations in order, as a definition. `BuildMetricsSymmetric`, `BuildMetricsFromRelations` and `LastWriterWins` state its properties. |
| Coupling.MetricsOf | src/MAIN/Parser.java:242-257 | What `getCouplingMetrics` returns for a given iteration order of the counters, as a definition. `MetricsOfProperties` states its properties. |
| Coupling.BuildMetricsSnoc | src/MAIN/Parser.java:242-257 | Visiting one more key applies one more `AddRelation` to the map built so far. |
| Coupling.AddRelationEntries | src/MAIN/Parser.java:251-256 | One iteration writes the weight under `m[c1][c2]` and `m[c2][c1]` and keeps every other entry. |
| Coupling.BuildMetricsSymmetric | src/MAIN/Parser.java:242-257 | The built map is symmetric: `m[a][b]` exists exactly when `m[b][a]` does, with the same value. |
| Coupling.BuildMetricsFromRelations | src/MAIN/Parser.java:242-257 | Every entry of the built map is the weight of some relation between those two classes. Every key is one side of some relation. |
| Coupling.LastWriterWins | src/MAIN/Parser.java:251-256 | The last relation between {a, b} in iteration order decides `m[a][b]`. The two directions overwrite each other. |
| Coupling.LaterDirectionOverwrites | src/MAIN/Parser.java:242-257 | When `a -> b` is visited before `b -> a`, both entries hold the weight of `b -> a` rather than the sum. |
| Coupling.OverwriteExample | src/MAIN/Parser.java:242-257 | With "A -> B" counted twice and "B -> A" once, both directions end up at 1/3, not 3/3. |
| Coupling.MetricsOfProperties | src/MAIN/Parser.java:238-260 | For counters in the state the visitor keeps, the map is symmetric. Every weight lies in (0, 1]. Every class in it is a half of a counted key. |
| Coupling.IsProjectPackage | src/MAIN/Parser.java:32 | The package test of `visit(TypeDeclaration)`, as a definition: a package is declared and does not start with "java." or "javax.". `Parser.VisitTypeDeclaration` states what it decides. |
| Coupling.MethodsOf | src/MAIN/Parser.java:55-60 | The class's method set, read as empty when `get` returns null, as a definition. `Parser.VisitMethodDeclaration` states how the set is created and extended. |
| Coupling.Parser.constructor | src/MAIN/Parser.java:15-21 | All maps start empty and the current class and method start null. The invariant holds. |
| Coupling.Parser.VisitTypeDeclaration | src/MAIN/Parser.java:27-43 | The current class is always set. Only for a declared package outside "java."/"javax." is the class registered, with its method set kept or created empty. Counters are unchanged. |
| Coupling.Parser.EndVisitTypeDeclaration | src/MAIN/Parser.java:47-49 | Resets the current class to null and keeps the invariant. |
| Coupling.Parser.VisitMethodDeclaration | src/MAIN/Parser.java:52-67 | Inside a class, sets the current method and adds it to the class's method set (created if missing). Outside a class it changes nothing. |
| Coupling.Parser.EndVisitMethodDeclaration | src/MAIN/Parser.java:71-73 | Resets the current method to null and keeps the invariant. |
| Coupling.Parser.VisitMethodInvocation | src/MAIN/Parser.java:76-118 | When the call is counted, "TOTAL" and the `caller -> callee` counter each grow by one. Otherwise no counter changes. The invariant (TOTAL equals the sum of the pair counters) is kept. |
| Coupling.Parser.CountPair | src/MAIN/Parser.java:110-112 | The two `merge` calls: one more in "TOTAL" and for the pair, with the invariant kept. |
| Coupling.Parser.GetCouplingMetrics | src/MAIN/Parser.java:238-260 | The loop builds `MetricsOf` the counters in iteration order. The result is symmetric, its weights lie in (0, 1], and its classes come from counted keys. `classes[1]` never fails. |
| Clustering.Lookup | src/MAIN/HierarchicalClustering.java:33 | `getOrDefault(x, new HashMap<>()).get(y)`, as a definition: the weight when both keys are present, null otherwise. The same lookup is made at line 134. |
| Clustering.Tally.Average | src/MAIN/HierarchicalClustering.java:41 | `count > 0 ? total / count : 0`: 0 without a count; otherwise the average times the count is the total. The same formula is at line 142. |
| Clustering.Tally.Add | src/MAIN/HierarchicalClustering.java:34-37 | `if (coupling != null) { totalCoupling += coupling; count++; }`, as a definition; the same step is at lines 135-138. `AddWithin` and `TallyOverPresent` state its properties. |
| Clustering.AddWithin | src/MAIN/HierarchicalClustering.java:134-138 | Adding a present weight in [lo, hi] to a running sum keeps `lo * count <= total <= hi * count`. |
| Clustering.PlusWithin | src/MAIN/HierarchicalClustering.java:29-39 | Two running sums within [lo, hi] times their counts, taken together, are still within. |
| Clustering.AverageWithin | src/MAIN/HierarchicalClustering.java:142 | `count > 0 ? total / count : 0` is 0 without a count, and lies in [lo, hi] otherwise. |
| Clustering.TallyOver | src/MAIN/HierarchicalClustering.java:127-140 | The running sum and count over a set of pairs, in an arbitrary order, as a definition. `TallyOverRemove` states that the order does not matter. |
| Clustering.TallyOverRemove | src/MAIN/HierarchicalClustering.java:131-140 | The tally over a set of pairs is the tally over the rest plus any one pair, whichever pair is taken out. The iteration order does not matter. |
| Clustering.TallyOverInsert | src/MAIN/HierarchicalClustering.java:131-140 | Adding a new pair to the set adds its weight (if present) to the tally. |
| Clustering.TallyOverPresent | src/MAIN/HierarchicalClustering.java:134-138 | Absent pairs contribute nothing. The count is the number of present pairs. |
| Clustering.TallyOverWithin | src/MAIN/HierarchicalClustering.java:131-140 | With weights in [lo, hi], the tally satisfies `lo * count <= total <= hi * count`. |
| Clustering.TallyOverUnion | src/MAIN/HierarchicalClustering.java:127-140 | Tallying two disjoint sets of pairs together adds their tallies. |
| Clustering.PlusAdd | src/MAIN/HierarchicalClustering.java:29-39 | Adding a weight after combining two tallies equals combining with the second tally after the weight. |
| Clustering.InterAverage | src/MAIN/HierarchicalClustering.java:127-143 | The inter-cluster average, as a definition: the average of the tally over all member pairs. `InterAverageBounds` states its bounds, and `AverageCouplingBetween` computes it. |
| Clustering.InterAverageBounds | src/MAIN/HierarchicalClustering.java:127-143 | The inter-cluster average is 0 when no pair is present, and lies in [lo, hi] of the weights otherwise. |
| Clustering.InterAverageNonNegative | src/MAIN/HierarchicalClustering.java:127-143 | With weights in [0, 1] the average lies in [0, 1], so it beats the initial -1. |
| Clustering.PairsStep | src/MAIN/HierarchicalClustering.java:131-132 | The nested loop visits each `(x, y)` once: adding `y` to the inner visited set adds exactly that new pair. |
| Clustering.PairsRow | src/MAIN/HierarchicalClustering.java:131-132 | Finishing the inner loop for `x` covers all pairs `{x} x b`. |
| Clustering.Cluster.constructor | src/MAIN/HierarchicalClustering.java:10-12 | A new cluster holds exactly its one class. |
| Clustering.Cluster.Merge | src/MAIN/HierarchicalClustering.java:14-16 | The members become the union of both clusters' members. |
| Clustering.Cluster.AverageCoupling | src/MAIN/HierarchicalClustering.java:24-42 | Returns the average of the present weights over the pairs `i < j` of the member list, or 0 when there are none. |
| Clustering.RowTally | src/MAIN/HierarchicalClustering.java:30-38 | The inner loop's running sum for row `i` up to column `j`. It counts at most the `j - i - 1` pairs of the row. |
| Clustering.RowsTally | src/MAIN/HierarchicalClustering.java:29-39 | The outer loop's running sum over the first `i` rows, as a definition. `RowsTallyCount`, `RowsTallyWithin` and `IntraTallyIsPairTally` state its properties. |
| Clustering.RowTallyCount | src/MAIN/HierarchicalClustering.java:30-38 | The inner loop counts nothing exactly when no `m[order[i]][order[c]]` is present for `c` in the row. |
| Clustering.RowTallyWithin | src/MAIN/HierarchicalClustering.java:30-38 | The inner loop's running sum stays within [lo, hi] times its count. |
| Clustering.RowsTallyCount | src/MAIN/HierarchicalClustering.java:29-39 | The outer loop counts nothing exactly when no pair `r < c` of the scanned rows is present. |
| Clustering.RowsTallyWithin | src/MAIN/HierarchicalClustering.java:29-39 | The outer loop's running sum stays within [lo, hi] times its count. |
| Clustering.RowsPairsSnoc | src/MAIN/HierarchicalClustering.java:29-39 | For a list without duplicates, the pairs of one more row are new and extend the pairs of the earlier rows. |
| Clustering.RowTallyOver | src/MAIN/HierarchicalClustering.java:30-38 | For a list without duplicates, the inner loop tallies each pair of its row once. |
| Clustering.RowsTallyOver | src/MAIN/HierarchicalClustering.java:29-39 | For a list without duplicates, the outer loop tallies each pair of the scanned rows once. |
| Clustering.RowsTallyOverStep | src/MAIN/HierarchicalClustering.java:29-39 | One more row keeps the outer loop's tally equal to the tally over the rows' pairs. |
| Clustering.IntraTallyIsPairTally | src/MAIN/HierarchicalClustering.java:24-42 | For a member list without duplicates, the intra-cluster sums run over every pair `(order[r], order[c])` with `r < c` exactly once, in whatever order. |
| Clustering.IntraAverageBounds | src/MAIN/HierarchicalClustering.java:24-42 | The intra-cluster average is 0 when no pair `i < j` is present, and lies in [lo, hi] of the weights otherwise. |
| Clustering.AverageCouplingBetween | src/MAIN/HierarchicalClustering.java:127-143 | Returns the inter-cluster average: the sum of the present `m[x][y]` over `x` in a and `y` in b, divided by their number, or 0. |
| Clustering.Singletons | src/MAIN/HierarchicalClustering.java:52-56 | One singleton per key in key-iteration order, as a definition. `SingletonsPartition` and `InitialClusters` state its properties. |
| Clustering.MergeAt | src/MAIN/HierarchicalClustering.java:85-86 | Merging `j` into `i`: position `i` holds the union and position `j` is gone. The others keep their order, and the list is one shorter. |
| Clustering.SingletonsPartition | src/MAIN/HierarchicalClustering.java:52-56 | The initial singletons partition the key set: non-empty, pairwise disjoint, covering every key. |
| Clustering.MergePartition | src/MAIN/HierarchicalClustering.java:85-86 | A merge of two clusters of a partition yields a partition of the same keys. |
| Clustering.PartitionSize | src/MAIN/HierarchicalClustering.java:52-56 | A partition has at most as many clusters as keys, and is empty exactly when the key set is. |
| Clustering.PartitionInit | src/MAIN/HierarchicalClustering.java:52-56 | Without its last cluster a partition is a partition of strictly fewer keys. |
| Clustering.PrefixPartition | src/MAIN/HierarchicalClustering.java:52-56 | The first `n` clusters of a partition partition their own keys. |
| Clustering.PartitionLast | src/MAIN/HierarchicalClustering.java:52-56 | The keys of a partition are those of the other clusters plus, disjoint from them, those of the last. |
| Clustering.AverageRowAt | src/MAIN/HierarchicalClustering.java:73 | Entry `q` of a row is the inter-cluster average with cluster `q`. |
| Clustering.AverageTableAt | src/MAIN/HierarchicalClustering.java:73 | Entry `[p][q]` of the table is the inter-cluster average of clusters `p` and `q`. |
| Clustering.PairAveragesAt | src/MAIN/HierarchicalClustering.java:73 | The pair table of the cluster list is square. Its `[p][q]` entry is `calculateAverageCoupling(clusters[p], clusters[q])`. |
| Clustering.PairAveragesSquare | src/MAIN/HierarchicalClustering.java:67-73 | The pair table is square of the list's size. |
| Clustering.FirstBestIn | src/MAIN/HierarchicalClustering.java:62-80 | The pair the scan ends on, as a definition: its average beats -1, no pair has a larger one, and every pair scanned before it has a strictly smaller one. `FindClosestPair` and `FirstBestUnique` state what it implies. |
| Clustering.IsFirstBest | src/MAIN/HierarchicalClustering.java:62-80 | `FirstBestIn` on the table of inter-cluster averages of the cluster list, as a definition. |
| Clustering.FirstBestUnique | src/MAIN/HierarchicalClustering.java:74-78 | At most one pair is the first best in scan order. |
| Clustering.SomePairSelectable | src/MAIN/HierarchicalClustering.java:62-80 | With two or more clusters and no negative weight, some pair's average beats the initial -1. |
| Clustering.ScanStart | src/MAIN/HierarchicalClustering.java:62-64 | Before the first pair, the best so far is -1 and nothing is selected. |
| Clustering.ScanStep | src/MAIN/HierarchicalClustering.java:74-78 | A strictly greater average replaces the selection. Otherwise it is kept. Either way the scanned pairs are bounded by the best. |
| Clustering.ScanRow | src/MAIN/HierarchicalClustering.java:67-68 | Finishing row `i` moves the scan to the row after it without losing the bound. |
| Clustering.ScanDone | src/MAIN/HierarchicalClustering.java:62-80 | After the full scan, a pair was selected exactly when some average beats -1. The selection is the first best pair, and `maxCoupling` is its average. |
| Clustering.FindClosestPair | src/MAIN/HierarchicalClustering.java:62-80 | The nested scan selects a pair exactly when one beats -1. That pair is the first best in `i < j` order with its average. Otherwise `maxCoupling` stays -1. |
| Clustering.MergePair | src/MAIN/HierarchicalClustering.java:85-86 | `clusterA.merge(clusterB); clusters.remove(clusterB)` removes position `j`, keeps the list free of duplicates, and changes the member sets exactly as `MergeAt`. |
| Clustering.Phase1Step | src/MAIN/HierarchicalClustering.java:61-91 | One step of the first loop, as a definition: a merge of the first best pair when its average exceeds CP. |
| Clustering.Phase1Finished | src/MAIN/HierarchicalClustering.java:61-91 | The first loop's exit condition, as a definition: at most one cluster, or no average above CP. |
| Clustering.Phase2Step | src/MAIN/HierarchicalClustering.java:94-121 | One step of the second loop, as a definition: a merge of the first best pair while more than `M / 2` clusters remain. |
| Clustering.FirstBestAverage | src/MAIN/HierarchicalClustering.java:83 | The selected pair's `maxCoupling` is its average, and no pair of the list has a larger one. |
| Clustering.RunExtend | src/MAIN/HierarchicalClustering.java:61-91 | Appending one more merge step to a trace keeps every step a merge of the first best pair. |
| Clustering.TwoClustersLeft | src/MAIN/HierarchicalClustering.java:94-95 | With more than `M / 2` clusters of a partition of `M != 1` keys, at least two clusters remain. |
| Clustering.NoPairOnlyForOneClass | src/MAIN/HierarchicalClustering.java:95-116 | Above `M / 2` clusters the scan finds no pair only when there is exactly one class and one cluster. |
| Clustering.OneClassStallsSecondPhase | src/MAIN/HierarchicalClustering.java:94-121 | With exactly one class, the second loop's guard holds on the initial list and the scan finds no pair. No merge step exists from that list, so the loop as written never ends. |
| Clustering.StopsAtOrBelowThreshold | src/MAIN/HierarchicalClustering.java:83-90 | When the first phase breaks, no pair of clusters has an average above CP. |
| Clustering.InitialClusters | src/MAIN/HierarchicalClustering.java:52-56 | Creates fresh, distinct clusters, one singleton per key in key order. |
| Clustering.MergeWhileAboveThreshold | src/MAIN/HierarchicalClustering.java:61-91 | Every merge of the first phase is of the first best pair, with an average above CP. The partition is kept. The phase ends with at most one cluster, or with every average at or below CP. |
| Clustering.MergeDownTo | src/MAIN/HierarchicalClustering.java:94-121 | Every merge of the second phase is of the first best pair while more than `M / 2` clusters remain. The partition is kept. The phase ends with at most `M / 2` clusters, or with the single cluster of a one-class map. |
| Clustering.PerformClustering | src/MAIN/HierarchicalClustering.java:46-124 | Starts from one singleton per key. It runs the first phase to its stopping condition, then the second. It returns a partition of the keys into at most `M / 2` clusters (one cluster when `M == 1`), with the trace of every merge. |

## Left out

- `src/MAIN/CouplingGraphViewer.java` is not part of this model. It is Swing/JGraphX rendering.
- JDT parsing is not modelled: `analyzeClassSource`, the traversal that calls the callbacks, and `getClassPackage`'s walk up the AST. The callbacks receive the identifier, the package name (or `None`) and the receiver's kind and text.
- File I/O and entry points are left out: `analyzeProject`, `getJavaFiles`, `Files.readString`, the `IOException` handling and both `main` methods.
- Console output is left out: every `System.out.println`, `printUserDefinedClasses`, the printing loop of `printCouplingMetrics`, and `Cluster.toString`. Only the metric formula of line 223 is kept, as `PrintedMetric`.
- Weights are exact reals: `double` rounding is not modelled.
- Counters are unbounded: the overflow of `Integer` counters is not modelled.
- Hash iteration orders are inputs. `order` is the iteration order of the pair-counter map, `keyOrder` that of the metric keys, and `Cluster.AverageCoupling`'s `order` is the list `new ArrayList<>(classes)`. The inter-cluster loops pick members in an arbitrary order, which the proof shows does not matter.
- The unused `classToClusterMap` and the unused `calledMethod` local are not modelled.
- The static maps and the visitor's `currentClass`/`currentMethod` are fields of one `Parser` object. `getCouplingMetrics` is a method of that object.
- The boolean each `visit` returns to JDT only steers the traversal and is not modelled.
- Coupling.Parser.VisitTypeDeclaration: requires the class name to hold no space (U+0020), as no Java identifier does. Identifier-ignorable control characters are allowed.
- Coupling.Parser.VisitMethodInvocation: requires the receiver's text to hold no space, as no Java identifier or qualified name does. The invariant that every pair key splits back into its two names needs this.
- `split("\\.")` on a qualified name made only of dots would return an empty array and throw. JDT never builds such a name, and `CalledClass` takes the text before the first '.'.
- Clustering.PerformClustering: requires every weight to lie in [0, 1], which `GetCouplingMetrics` guarantees. Under this requirement some pair always beats the initial -1 whenever two clusters remain.
- Clustering.PerformClustering: `performClustering` is split into `InitialClusters`, `MergeWhileAboveThreshold` and `MergeDownTo`. In the first phase the test `clusterA != null && clusterB != null` is the scan's `found`.

## Findings

| source | as written | input that shows it | evidently intended | confidence | as-written member | corrected member |
|---|---|---|---|---|---|---|
| src/MAIN/HierarchicalClustering.java:94-121 | The second loop runs while `clusters.size() > couplingMetrics.size() / 2` and merges only when the scan found a pair, with no exit otherwise. | A metric map with exactly one class, such as `{A: {A: 1.0}}` from a class `A` whose methods call `A.foo()` (self pairs are counted). The single cluster has no partner and `1 > 0` stays true. | The loop stops once no pair can be merged, leaving the single cluster. | not executed; high | Clustering.OneClassStallsSecondPhase | Clustering.MergeDownTo |
