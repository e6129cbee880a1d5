# Network-Based Statistic engine, modelled in Dafny

This project models the Network-Based Statistic (NBS) engine of `lnpiLib/stat/nbs.py`. NBS is the method of Zalesky, Fornito and Bullmore (NeuroImage 2010).

The engine works in four steps:

1. It compares two groups of subjects, one data series (label) at a time.
2. Each series is reshaped into an n x n matrix of t-statistics. Every cell whose absolute value is strictly above the series' threshold becomes an undirected edge.
3. The resulting graph is split into connected components, and the largest component (by edge count) is kept.
4. Many random regroupings of the same subjects build a null distribution per label: the largest component size of each round, plus an overlap count of the largest components across series. Every observed component then receives an empirical p-value.

## Module layout

- `Labels` (`labels.dfy`): the data-series label type, shared by the graph results, the cache and the driver.
- `Components` (`components.dfy`): components (`Component`, `Size` = `size()`, `Len` = `len()`) and the decomposition of an edge list into connected components. It follows the networkx contract: connected, node-disjoint and maximal components, each edge in exactly one.
- `Graphs` (`graphs.dfy`): the `Graph` class. `SetCoords` appends components and keeps the index of the largest one. Like the object reference in Python, the index names an entry of `components`.
- `Overlap`, `GroupResults` (`overlap.dfy`, `group_results.dfy`): `getNodeOverlapStrict` as a fold over the series, and `GroupResult` as an ordered list of (label, graph) pairs. The order is explicit, so the overlap "base" is explicit too.
- `Tallies`, `Permutation` (`tallies.dfy`, `permutation.dfy`): the `PermutationResult` accumulator and its queries.
- `SubjectCache` (`cache.dfy`): the per-label data cache and the row lookup of `tTestGroups`.
- `EdgeSelection` (`edges.dfy`): row-major supra-threshold edge selection.
- `Shuffling` (`shuffle.dfy`): numpy's in-place Fisher-Yates shuffle, with its random draws given as a function `rng(round, i)`.
- `Nbs` (`nbs.dfy`): the `TStatNbs` class (`cacheData`, `tTestGroups`, `compareGroups`, `getRandomDistribution`, `compare`). The t-test is a function parameter `ttest`.

Errors the Python code raises become `Result` failures. These cover:

- missing labels and unknown subjects (`KeyError`);
- row lengths that numpy cannot broadcast (`ValueError`);
- a t-statistic vector of the wrong length for `reshape` (`ValueError`);
- an item built over an empty roster, which has no data matrix to index (`TypeError`).

The model follows these behaviours of the code:

- **Untallied node.** `getOverlapNodePVal` returns `(0, len(self.groupResults), 0)` for a node that is never in an overlap. `groupResults` stays empty, so that is `(0, 0, 0)`.
- **Row lengths.** There is no explicit shape check. Rows of a length numpy cannot broadcast fail, and rows of length 1 are repeated across the row.
- **Constant columns.** A t-statistic over constant data is NaN in scipy (`NotANumber` here), and NaN is never above a threshold.
- **Empty roster.** When neither group has a subject, `cacheData` leaves each item's data matrix at `None` (line 224), and `tTestGroups` fails when it indexes it (line 269). The model reports this as `NoRows` from the t-test. One empty group beside a non-empty one is not an error.
- **Overlap ratio.** With three or more series, a node can enter one round's overlap several times. Its overlap ratio `tally / iterations` can therefore exceed 1.

## Model

| member | source | states |
|---|---|---|
| Components.EdgeSetMembers | lnpiLib/stat/nbs.py:73-74 | the raw graph's edge set holds exactly the normalised given coordinates |
| Components.MirrorIsSameEdge | lnpiLib/stat/nbs.py:73-74 | `(i, j)` and `(j, i)` add the same undirected edge |
| Components.ComponentsConnectedAndDisjoint | lnpiLib/stat/nbs.py:77 | every component is connected, has at least one edge, has its nodes equal to its edges' endpoints and no p-value yet; distinct components share no node |
| Components.EdgeInExactlyOneComponent | lnpiLib/stat/nbs.py:77 | every distinct edge lies in one component and in no other |
| Components.ComponentsAreMaximal | lnpiLib/stat/nbs.py:77 | no edge leaves a component: an edge has one end in a component iff it has both |
| Components.ComponentsCoverNodes | lnpiLib/stat/nbs.py:77 | the components' nodes are exactly the nodes touched by some edge |
| Components.ComponentSizesSumToEdgeCount | lnpiLib/stat/nbs.py:56-57 | the sizes (edge counts) of all components sum to the number of distinct edges |
| Components.NoComponentsIffNoCoords | lnpiLib/stat/nbs.py:72-77 | there are no components exactly when no coordinate was given |
| Components.ComponentExtents | lnpiLib/stat/nbs.py:56-60 | a component's `size()` is at least 1 and its `len()` lies between 1 and twice its size |
| Components.Size | lnpiLib/stat/nbs.py:56-57 | no contract of its own (`size()` is the edge count); `ComponentExtents` and `ComponentSizesSumToEdgeCount` state its properties |
| Components.Len | lnpiLib/stat/nbs.py:59-60 | no contract of its own (`len()` is the node count); `ComponentExtents` bounds it by the size |
| Components.Decompose | lnpiLib/stat/nbs.py:77 | no contract of its own; `ComponentsConnectedAndDisjoint`, `EdgeInExactlyOneComponent`, `ComponentsAreMaximal` and `ComponentsCoverNodes` state the connected-components contract it meets |
| Graphs.LargestFromSplit | lnpiLib/stat/nbs.py:80-86 | scanning components in two stretches with the kept largest in between equals one scan |
| Graphs.LargestIsFirstMaximum | lnpiLib/stat/nbs.py:84-86 | the scan finds a component iff there is one; its size is at least every other's, and every earlier component is strictly smaller (ties keep the first) |
| Graphs.LargestFromSizesOnly | lnpiLib/stat/nbs.py:85 | the scan depends on sizes only, so annotating components does not move the largest |
| Graphs.AppendScanning | lnpiLib/stat/nbs.py:80-86 | the new components are appended after the existing ones, and the held largest index is the strict-`>` scan continued over them |
| Graphs.Graph.constructor | lnpiLib/stat/nbs.py:64-68 | a new graph has no edges, no components and no largest component |
| Graphs.Graph.SetCoords | lnpiLib/stat/nbs.py:70-87 | the edges are added; the components of the whole raw graph are appended; the largest is the strict-`>` scan continued over the appended ones; the graph invariant is kept |
| Graphs.Graph.SetPVal | lnpiLib/stat/nbs.py:355 | sets one component's p-value and changes nothing else, the largest included |
| Graphs.Graph.ComponentCount | lnpiLib/stat/nbs.py:89-91 | the count is zero exactly when there is no largest component |
| Graphs.Graph.Largest | lnpiLib/stat/nbs.py:84-86 | a largest component exists iff there are components, and it is one of them |
| Graphs.Graph.LargestComponentSize | lnpiLib/stat/nbs.py:93-98 | 0 when the graph has no components (no largest component) |
| Graphs.Graph.LargestComponentSizeIsMaximum | lnpiLib/stat/nbs.py:93-98 | the result is at least every component's size and is attained by one when there are components |
| Overlap.MissingSeriesEmptiesOverlap | lnpiLib/stat/nbs.py:108-109 | a series without a largest component, at any position, makes the overlap empty |
| Overlap.SingleSeriesHasNoOverlap | lnpiLib/stat/nbs.py:103-118 | zero or one series give an empty overlap |
| Overlap.OverlapIsAgainstBase | lnpiLib/stat/nbs.py:111-117 | the overlap is every later series' nodes that are in the first series' set, series by series |
| Overlap.OverlapProperties | lnpiLib/stat/nbs.py:103-118 | every overlap node is in the base; the length is the sum over later series of their shared node counts; each node's multiplicity is the number of later series sharing it, at most (series - 1) |
| Overlap.TwoSeriesOverlapIsIntersection | lnpiLib/stat/nbs.py:115-117 | with two series the overlap is the intersection of their node sets |
| Overlap.ThreeSeriesCountTwice | lnpiLib/stat/nbs.py:115-117 | with three equal series, a shared node is counted twice |
| Overlap.StrictOverlap | lnpiLib/stat/nbs.py:103-118 | no contract of its own; `OverlapIsAgainstBase` and `OverlapProperties` characterise it |
| GroupResults.LargestNodeSets | lnpiLib/stat/nbs.py:108-115 | one entry per graph, absent exactly when the graph has no components, otherwise a non-empty node set |
| GroupResults.NodeOverlapStrictProperties | lnpiLib/stat/nbs.py:101-118 | `getNodeOverlapStrict` over graphs: empty if any graph has no component or there is at most one graph; otherwise every node is in the first graph's largest component and occurs at most (graphs - 1) times |
| GroupResults.NodeOverlapStrict | lnpiLib/stat/nbs.py:101-118 | no contract of its own; `NodeOverlapStrictProperties` states its properties |
| GroupResults.GroupResult.NodeOverlap | lnpiLib/stat/nbs.py:128-129 | no contract of its own; it is `NodeOverlapStrict` of the graphs in label order, and `RoundReadings` gives it for a compared round |
| GroupResults.GroupResult.AddGraph | lnpiLib/stat/nbs.py:125-126 | the label maps to the new graph; an existing label keeps its position, a new one is appended; every other entry is unchanged and labels stay unique |
| GroupResults.Find | lnpiLib/stat/nbs.py:126 | finds the position of a label, or reports that it is absent |
| Tallies.ExceedCount | lnpiLib/stat/nbs.py:172 | the count of entries above the extent is at most the length of the distribution |
| Tallies.ExceedCountZero | lnpiLib/stat/nbs.py:172-178 | the count is zero iff no entry is strictly greater than the extent |
| Tallies.ExceedCountAntitone | lnpiLib/stat/nbs.py:172 | a larger extent never has more entries above it |
| Tallies.MaxOf | lnpiLib/stat/nbs.py:188 | the maximum exists iff the list is non-empty; it is an entry and bounds every entry |
| Tallies.BinCount | lnpiLib/stat/nbs.py:191 | `np.bincount`: length max + 1, entry v counts the occurrences of v, entries sum to the list's length |
| Permutation.AppendedEffect | lnpiLib/stat/nbs.py:150-151 | with unique labels, each label's list grows by exactly its own size and every other list is unchanged |
| Permutation.AppendSizes | lnpiLib/stat/nbs.py:150-151 | the loop computes `Appended` |
| Permutation.AddTallies | lnpiLib/stat/nbs.py:160-164 | each node's tally rises by its multiplicity in the overlap; no other node is added |
| Permutation.AppendedBound | lnpiLib/stat/nbs.py:147-151 | a round appends at most one entry per label, so no list outgrows the round count |
| Permutation.TalliesPositive | lnpiLib/stat/nbs.py:160-164 | every tallied node has a positive count |
| Permutation.PermutationResult.constructor | lnpiLib/stat/nbs.py:133-140 | an empty accumulator |
| Permutation.PermutationResult.AddResult | lnpiLib/stat/nbs.py:142-164 | one more round; each label's list gains that graph's largest size; one overlap count is appended; tallies rise by overlap multiplicity; nothing else changes |
| Permutation.PermutationResult.Record | lnpiLib/stat/nbs.py:147-164 | the state change of `addResult` for given labels, sizes and overlap |
| Permutation.PValue | lnpiLib/stat/nbs.py:172-178 | in [0, 1]; exactly 0 iff no entry of the distribution is strictly above the extent; otherwise `OutOf`: p times the round count equals the number of entries above |
| Permutation.PermutationResult.ComponentPVal | lnpiLib/stat/nbs.py:166-178 | in [0, 1]; exactly 0 iff no recorded size of the label is strictly above the extent; otherwise `OutOf`: p times the round count equals the number of rounds above |
| Permutation.PermutationResult.OverlapNodePVal | lnpiLib/stat/nbs.py:180-185 | a tallied node gives (tally, rounds, tally/rounds) with rounds > 0; any other gives (0, 0, 0) |
| Permutation.PermutationResult.MaxOverlapSize | lnpiLib/stat/nbs.py:187-188 | absent iff no round was recorded; otherwise a recorded count that bounds all of them |
| Permutation.PermutationResult.OverlapHistogram | lnpiLib/stat/nbs.py:190-191 | length max + 1; entry v counts the rounds with overlap v; entries sum to the round count |
| Permutation.ComponentPValNonIncreasing | lnpiLib/stat/nbs.py:166-178 | the p-value never rises as the extent grows |
| SubjectCache.RowsCharacterized | lnpiLib/stat/nbs.py:228-236 | the rows succeed iff every subject has the label with a storable row; then row i is subject i's data |
| SubjectCache.RowsReportFirstFailure | lnpiLib/stat/nbs.py:228-236 | a failure names the first subject that lacks the label or has an unstorable row |
| SubjectCache.IndexIsLastOccurrence | lnpiLib/stat/nbs.py:235 | every subject id is indexed, at its last position in the roster |
| SubjectCache.UniqueIndex | lnpiLib/stat/nbs.py:235 | with unique ids, each subject is indexed at its own position |
| SubjectCache.BuildItemIndexed | lnpiLib/stat/nbs.py:221-236 | one row per roster entry, and every index names a row |
| SubjectCache.BuildCacheItem | lnpiLib/stat/nbs.py:221-236 | the loop builds `BuildItem` |
| SubjectCache.LookupCharacterized | lnpiLib/stat/nbs.py:259-267 | the lookup succeeds iff every subject id is indexed; then entry k is subject k's row index; otherwise it reports an unknown subject |
| SubjectCache.LookupIndices | lnpiLib/stat/nbs.py:259-267 | the loop computes `Lookup` |
| SubjectCache.SelectsOwnRows | lnpiLib/stat/nbs.py:255-270 | with unique ids, any group of roster subjects gets exactly its own rows |
| EdgeSelection.SupraThresholdCoordsMembers | lnpiLib/stat/nbs.py:293-304 | edge (i, j) is selected iff i, j < n and abs(t[i*n + j]) > threshold; edges come in row-major order |
| EdgeSelection.SupraThresholdCoords | lnpiLib/stat/nbs.py:293-304 | no contract of its own; `SupraThresholdCoordsMembers` states which edges it selects and in which order |
| EdgeSelection.NothingAboveGivesNoComponents | lnpiLib/stat/nbs.py:293-304 | with no entry above the threshold there is no edge and no component |
| EdgeSelection.ThresholdMonotone | lnpiLib/stat/nbs.py:296 | a higher threshold selects a subset of the edges |
| EdgeSelection.SwappedGroupsSameEdges | lnpiLib/stat/nbs.py:293 | negated statistics (groups swapped) select the same edges |
| Shuffling.Shuffle | lnpiLib/stat/nbs.py:325 | the in-place loop computes the Fisher-Yates function of the old contents |
| Shuffling.ShuffledPermutes | lnpiLib/stat/nbs.py:325 | a shuffle keeps the length and the multiset of subjects |
| Shuffling.ShuffledRoundsPermutes | lnpiLib/stat/nbs.py:322-325 | shuffles accumulated over rounds still permute the pooled roster |
| Shuffling.RandomGroupsRepartition | lnpiLib/stat/nbs.py:328-329 | the two slices have the original group sizes and together hold the pooled subjects |
| Nbs.CacheAllSucceeds | lnpiLib/stat/nbs.py:219-236 | caching succeeds iff every label's item can be built |
| Nbs.CacheAllEntries | lnpiLib/stat/nbs.py:219-236 | after caching, each parameter's label holds the item built over `group1 + group2`, other entries are kept |
| Nbs.TTestUsesOwnData | lnpiLib/stat/nbs.py:219-275 | after caching, the t-test of any two groups of roster subjects receives their own data rows; with an empty roster it fails with `NoRows` |
| Nbs.EdgesOfEach | lnpiLib/stat/nbs.py:287-307 | all series succeed iff each does; entry k is then series k's edges |
| Nbs.LastWith | lnpiLib/stat/nbs.py:125-126 | the last parameter with a label, or none |
| Nbs.HoldsAfterAdd | lnpiLib/stat/nbs.py:300-307 | adding the next series' graph keeps every label mapped to the graph of its last parameter |
| Nbs.HoldsLabels | lnpiLib/stat/nbs.py:287-307 | the result's labels are exactly the parameters' labels |
| Nbs.LabelOrder | lnpiLib/stat/nbs.py:125-129 | the labels of the parameters, each once: a label is in it iff some parameter has it |
| Nbs.OrderAfterAdd | lnpiLib/stat/nbs.py:125-126 | adding the next series' graph keeps the result's labels in first-insertion order of the parameters |
| Nbs.LargestOf | lnpiLib/stat/nbs.py:80-86 | the largest component of an edge list: present iff it has components, one of them, and at least as large as each |
| Nbs.GraphsLargest | lnpiLib/stat/nbs.py:80-86 | in a compared round, each label's graph holds the largest component of its last parameter's edges |
| Nbs.GraphsNodeSets | lnpiLib/stat/nbs.py:108-115 | in a compared round, the graphs' largest node sets are those of each label's edges, in label order |
| Nbs.RoundReadings | lnpiLib/stat/nbs.py:93-118 | in a compared round, each graph's largest size and the round's node overlap are functions of the round's edges alone |
| Nbs.RoundSizesInOrder | lnpiLib/stat/nbs.py:150-151 | the sizes `addResult` appends are the largest sizes of each label's edges, in label order |
| Nbs.RecordedSizes | lnpiLib/stat/nbs.py:147-151 | appending a compared round extends each parameter label's list by its largest size, and no other list |
| Nbs.AppendedRound | lnpiLib/stat/nbs.py:147-151 | appending one size per label extends the lists by `RoundSizes` of the round's edges |
| Nbs.NewGraph | lnpiLib/stat/nbs.py:301-304 | a fresh graph holding the given edges and their components |
| Nbs.Attach | lnpiLib/stat/nbs.py:307 | adds the graph under its label, keeping the result's invariant |
| Nbs.RandomGroups | lnpiLib/stat/nbs.py:325-329 | a round's groups have the original sizes and together hold the pooled subjects |
| Nbs.EdgesOfRoundsStep | lnpiLib/stat/nbs.py:322-333 | a list of the first rounds' edges, extended by the next round's edges, lists the rounds one further |
| Nbs.NullMapSizes | lnpiLib/stat/nbs.py:142-151 | the null map's entry for a label is its list of per-round largest sizes, or empty |
| Nbs.NullStep | lnpiLib/stat/nbs.py:142-164 | one more round extends each label's sizes, the overlap counts and every node's tally by that round's readings |
| Nbs.NullRecordsStep | lnpiLib/stat/nbs.py:322-335 | recording one more round keeps the records those of all rounds so far |
| Nbs.NullSizesAt | lnpiLib/stat/nbs.py:142-151 | entry k of a label's null distribution is the largest component size of that label's graph in round k |
| Nbs.OverlapCountsAt | lnpiLib/stat/nbs.py:153-158 | entry k of the overlap counts is the size of round k's node overlap |
| Nbs.RoundTestsOwnData | lnpiLib/stat/nbs.py:322-332 | in every permutation round, the t-test receives the regrouped subjects' own data rows |
| Nbs.WithPVals | lnpiLib/stat/nbs.py:353-355 | scoring keeps each component's nodes and edges |
| Nbs.ScoredPValues | lnpiLib/stat/nbs.py:353-355 | after scoring, every observed component has a p-value in [0, 1] that is 0 iff no round of its label was larger |
| Nbs.ComparedPValues | lnpiLib/stat/nbs.py:340-357 | after `compare`, an observed component's p-value is 0 iff no round's graph of its label has a larger largest component; otherwise p times the round count is the number of rounds with a larger one |
| Nbs.NullPValue | lnpiLib/stat/nbs.py:166-178 | a p-value read off a label's recorded distribution, restated over the rounds' graphs |
| Nbs.AssignPVals | lnpiLib/stat/nbs.py:354-355 | each component of one graph gets the p-value of its size under its label |
| Nbs.ScoreAll | lnpiLib/stat/nbs.py:353-355 | every graph's components are scored under its own label; edges are unchanged |
| Nbs.ScorePVals | lnpiLib/stat/nbs.py:353-355 | the actual result becomes scored: same labels and edges, components with p-values |
| Nbs.TStatNbs.constructor | lnpiLib/stat/nbs.py:207-208 | an empty cache |
| Nbs.TStatNbs.CacheData | lnpiLib/stat/nbs.py:210-237 | success iff every label can be cached; then the cache is `CacheAll` over `group1 + group2`; a failure reports its error |
| Nbs.TStatNbs.TTestGroups | lnpiLib/stat/nbs.py:251-279 | returns `TTestResult`: an unknown label or subject fails, an item with no data matrix fails with `NoRows`, otherwise the t-test of the selected rows (their content is `TTestUsesOwnData`) |
| Nbs.TStatNbs.SeriesGraph | lnpiLib/stat/nbs.py:290-304 | a fresh graph of the series' supra-threshold edges and their components, or the series' error |
| Nbs.TStatNbs.AddSeries | lnpiLib/stat/nbs.py:287-307 | one series added, keeping every label mapped to its last parameter's graph |
| Nbs.TStatNbs.CompareGroups | lnpiLib/stat/nbs.py:281-309 | succeeds iff every series does; each label maps to a fresh, distinct graph of its last parameter's edges and their components; otherwise the first error |
| Nbs.TStatNbs.DrawRound | lnpiLib/stat/nbs.py:325-332 | one more shuffle of the pooled subjects; the comparison of the new groups succeeds iff that round's edges exist, and then each label maps to a graph of its edges |
| Nbs.TStatNbs.RecordRound | lnpiLib/stat/nbs.py:335 | one more round: each parameter label's list gains the largest component size of that label's graph of the round (`RoundSizes`), other lists are unchanged; the round's overlap size is appended; each node's tally rises by its multiplicity in the round's overlap |
| Nbs.TStatNbs.PermutationRound | lnpiLib/stat/nbs.py:322-335 | one more shuffle; fails iff that round's comparison fails, with its error; otherwise returns the round's edges and records that round, so the records stay those of all rounds so far (`NullOf`) |
| Nbs.TStatNbs.GetRandomDistribution | lnpiLib/stat/nbs.py:311-338 | succeeds iff every round's comparison does; a failure is the error of the first failing round, the rounds before it all succeeding; on success, `iterations` rounds whose k-th entry is round k's edges, and each label's distribution, the overlap counts and the node tallies are those of these rounds (`NullOf`) |
| Nbs.TStatNbs.CompareCached | lnpiLib/stat/nbs.py:346-357 | with the cache in place: succeeds iff the actual comparison and every round do; a failing actual comparison gives its own error, otherwise a failure is the first failing round's; on success the records are those of the rounds (`NullOf`) and the actual result is scored against them |
| Nbs.TStatNbs.Compare | lnpiLib/stat/nbs.py:340-357 | caches, compares and permutes; a caching failure is the result, then a failing actual comparison's error, then the first failing round's; succeeds iff all three steps do; then the records are those of the rounds' graphs (`NullOf`) and every observed component is scored, so `ComparedPValues` gives its p-value in terms of the rounds |

## Left out

- The t-test (`scipy.stats.ttest_ind`, line 275) is a parameter `ttest`. Its p-values (`resArr[1]`) are never used and are not modelled. Data values are exact reals, not floating point.
- networkx (lines 66, 74, 77) is replaced by its contract. The order in which components come out is the model's own. Only tie-breaking depends on it, and `LargestIsFirstMaximum` holds for any order.
- Randomness: each shuffle's draws come from the parameter `rng`, not from numpy's random state.
- Dictionary iteration order (lines 126, 129, 150, 353) is unspecified in Python 2. The model iterates in first-insertion order. This decides which series is the overlap base.
- `flatten()` (line 230): subject data is modelled as already flat.
- `getSubjectData` (lines 239-248) is dead code and is not part of this model.
- `ComparisonResult`'s fields are set in a single step, and the partially filled object seen after an exception is not modelled.
- Nbs.TStatNbs.CacheData: on failure, the cache state it leaves behind is not described. In Python, the failing label keeps a partly filled item.
- Permutation.PermutationResult.ComponentPVal: the `defaultdict` lookup inserts an empty list for an unknown label; the model's query has no such side effect.
- Permutation.PermutationResult.MaxOverlapSize: `np.max` of an empty list raises; the model returns `None` instead.
- Overlap.StrictOverlap: returns a multiset. The order of the Python list is not kept, because its consumers use only its length and per-node counts.
- p-values are exact rational reals (`k / n`), not floating point; `OutOf` states them as `p * n == k`.
- `TStat` is `Value(real) | NotANumber`. scipy returns ±inf for a column with zero variance in both groups and different means; the model has no such value, so `Above` never sees one.
- Nbs.TStatNbs.CompareCached: draws the permutation rounds before it builds the actual graphs. Neither step reads what the other builds, so only the order of work differs. When both fail, the actual comparison's error is still the one returned.
