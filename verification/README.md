# Level-wise PageRank: the level loop and its plans

This project models the level-wise OpenMP PageRank of `src/pagerankLevelwiseOmp.hxx` and proves properties of the model in Dafny.

That PageRank orders a graph's vertices so that the strongly connected components of one level of the block graph (the component condensation) sit next to each other. It then runs a power iteration on one level's range of vertices at a time, in level order. The model covers two parts of the file.

**The level loop** (`pagerankLevelwiseOmpLoopU`). It walks a level-size plan `ns` from an offset `i`:

- An entry `n <= 0` skips `-n` positions.
- A positive entry `n` calls the per-range step (`pagerankMonolithicOmpLoopU`) on positions `[i, i + n)` with tolerance `E*n/N` (or `E` when `EF > 2`). It then adds the step's iteration count, weighted by `n/N`, and exchanges the rank vectors `a` and `r`.
- At the end the loop returns the weighted count rounded to an integer.
- With dead ends (`D`) it returns 0 at once.

In the model:

- The step is a function parameter. For a call `(start, count, tolerance)` and the buffer contents it is given, it yields new buffer contents and the count it reports.
- `LevelwiseLoopU` is the loop as a method over a `RankBuffers` object holding `a`, `r` and `c`.
- The method is proved to end in the state that the specification function `WalkLevels` gives. The properties of the loop are lemmas about `WalkLevels`.

**The plans of the two entry points** (`pagerankLevelwiseOmp` and `pagerankLevelwiseOmpDynamic`). Each entry point builds the vertex ordering `ks` and the level sizes `ns`, then has the driver run the loop from position 0. The model describes what each one does as a `Launch`: either the initial ranks, or the driver run on `(ks, 0, ns)`.

- The static entry point concatenates the level groups.
- The dynamic entry point takes the affected components `is[..n]`, groups them by level index, and lays out their members level by level. Then it appends the members of the other components `is[n..]`.

The model names that parameter `ids`, because `is` is a Dafny keyword. The plan's entries cover only the affected part, and the loop never reaches the suffix.

The helpers whose code is not part of this model are given the meaning their call sites show:

- `transformIterable` is a map;
- `joinValuesVector` is concatenation;
- `sliceIterable` is a subsequence;
- `groupValuesVector` is a stable group-by-key. The model also takes its groups to come in the order their keys first occur. That order is an assumption, because the helper's code is not part of this model;
- `joinAt2dVector` and `joinAtU` concatenate the members `cs[c]` of the listed components.

Line 92 appends the members of the unaffected components to `ks`, but adds no entry for them to `ns`. So the loop stops where those members begin (`DynamicRunStopsAtSuffix`). `TrailingSkipInert` shows that a trailing skip entry `-k` would change only the final offset. The calls, the buffers and the returned count would stay the same.

Files:

- `sequences.dfy`: sums, flattening and gathering of component members.
- `grouping.dfy`: the stable group-by and its proofs.
- `levelwise_loop.dfy`: the loop.
- `levelwise_plan.dfy`: the two plans and how the loop runs over them.

## Model

| member | source | states |
|---|---|---|
| LevelwiseLoop.LevelwiseLoopU | src/pagerankLevelwiseOmp.hxx:28-42 | With dead ends it returns 0, makes no step call, and leaves the offset and all three buffers as they were. Otherwise it ends with the buffers, offset and step-call trace of walking the plan, and returns the rounded weighted count |
| LevelwiseLoop.WalkLevels | src/pagerankLevelwiseOmp.hxx:33-39 | The specification of the loop: a skip entry only moves the offset, and a positive entry makes one step call, adds its weight, advances the offset and exchanges the buffers. Its contract gives one call and one recorded input per positive entry; `WalkOffset`, `WalkCallAt`, `WalkRangesOrdered`, `WalkHandOff`, `WalkTotalCount` and `WalkWeightBounded` state the rest |
| LevelwiseLoop.Weight | src/pagerankLevelwiseOmp.hxx:37 | A level's share of the count: the integer product of the reported iterations and the level size, over `N`. `WeightScaled` shows that it times `N` is that product, and `WeightStep` that adding a level whose count is at most `L` keeps the weighted count within `L` times the share covered |
| LevelwiseLoop.Exchanged | src/pagerankLevelwiseOmp.hxx:39 | `swap(a, r)` on the buffer contents. `WalkHandOff` shows that each call reads what the previous call wrote, and `WalkSwapParity` shows that two exchanges cancel |
| LevelwiseLoop.RankBuffers.RunStep | src/pagerankLevelwiseOmp.hxx:36 | The vectors hold what the step leaves for this call, and the step's iteration count is returned |
| LevelwiseLoop.RankBuffers.Swap | src/pagerankLevelwiseOmp.hxx:39 | `a` and `r` are exchanged and `c` is unchanged |
| LevelwiseLoop.LevelTolerance | src/pagerankLevelwiseOmp.hxx:35 | For `EF <= 2` the level tolerance times `N` is `E` times the level size, and it lies in `[0, E]` for a level of at most `N` vertices; for `EF > 2` it is `E` |
| LevelwiseLoop.TruncateToInt | src/pagerankLevelwiseOmp.hxx:41 | Conversion to `int` truncates toward zero: the result is within 1 of the value, on the side of 0 |
| LevelwiseLoop.RoundCount | src/pagerankLevelwiseOmp.hxx:41 | `int(l + 0.5)` is within one half of `l` for every `l >= -0.5`, so a nonnegative count is rounded to the nearest integer |
| LevelwiseLoop.WalkOffset | src/pagerankLevelwiseOmp.hxx:33-38 | The final offset is the start plus the magnitude of every entry, processed or skipped |
| LevelwiseLoop.WalkCallAt | src/pagerankLevelwiseOmp.hxx:33-36 | The step call for positive entry `j` is the one numbered by the positive entries before it. It starts at `i` plus the magnitudes of all earlier entries, covers `ns[j]` positions and gets that level's tolerance |
| LevelwiseLoop.WalkRangesOrdered | src/pagerankLevelwiseOmp.hxx:33-38 | Every processed range is nonempty and lies within `[i, i + Σ|n|)`. Each range ends before the next begins, so they are disjoint and increasing |
| LevelwiseLoop.WalkHandOff | src/pagerankLevelwiseOmp.hxx:36-39 | The first call gets the loop's buffers, and each later call gets the previous call's output with `a` and `r` exchanged. The loop ends with the last output exchanged, or with the given buffers when nothing is processed |
| LevelwiseLoop.WalkSwapParity | src/pagerankLevelwiseOmp.hxx:33-39 | For a step that leaves the vectors as they are, the final buffers have `a` and `r` exchanged exactly when the number of positive entries is odd |
| LevelwiseLoop.WalkSkipsOnly | src/pagerankLevelwiseOmp.hxx:29-41 | A plan of skip entries only, the empty plan included, makes no step call, leaves the buffers untouched and yields a count of 0 |
| LevelwiseLoop.LeadingSkipShifts | src/pagerankLevelwiseOmp.hxx:34 | A leading skip entry `-k` does nothing but start the rest of the walk `k` positions further on |
| LevelwiseLoop.TrailingSkipInert | src/pagerankLevelwiseOmp.hxx:34 | A trailing skip entry `-k` changes only the final offset, by `k`. The calls, inputs, buffers and count stay the same |
| LevelwiseLoop.WalkCallTolerances | src/pagerankLevelwiseOmp.hxx:35-36 | Every call has a positive count, and its tolerance is the level tolerance for that count |
| LevelwiseLoop.WalkTotalCount | src/pagerankLevelwiseOmp.hxx:33-38 | On a plan without negative entries, the call counts add up to the sum of the plan |
| LevelwiseLoop.LevelTolerancesAddUp | src/pagerankLevelwiseOmp.hxx:35 | With `EF <= 2`, the tolerances of calls made with their level tolerances add up to `E` times their total count over `N` |
| LevelwiseLoop.LevelTolerancesWhole | src/pagerankLevelwiseOmp.hxx:35 | With `EF <= 2`, such calls covering `N` vertices in all have tolerances adding up to exactly `E` |
| LevelwiseLoop.WeightScaled | src/pagerankLevelwiseOmp.hxx:37 | A level's weight times `N` is the product of its reported iterations and its size, and the weight is nonnegative when that product is |
| LevelwiseLoop.WeightStep | src/pagerankLevelwiseOmp.hxx:37 | Adding a level with at most `L` iterations to a count within `L` times the share covered so far keeps the count within `L` times the new share |
| LevelwiseLoop.WalkWeightBounded | src/pagerankLevelwiseOmp.hxx:33-40 | When every step call the walk makes reports, on the buffers it was given, between 0 and `L` iterations, the weighted count of a plan without skip entries is nonnegative and at most `L` times the plan's share of the `N` vertices |
| LevelwiseLoop.WalkCountBounded | src/pagerankLevelwiseOmp.hxx:33-41 | When such a plan's levels hold all `N` vertices, the returned count lies between 0 and any `L` that bounds the counts the walk's calls reported; `L` may be the largest of them |
| Grouping.GroupBy | src/pagerankLevelwiseOmp.hxx:89 | The stable group-by-key, built by inserting the elements in order. `GroupByIsGrouping` and `GroupByPermutes` state what it returns |
| Grouping.Insert | src/pagerankLevelwiseOmp.hxx:89 | Adds an element to the first group whose key matches, or opens a new group at the end. `InsertKeepsGrouping` and `InsertPermutes` state what it keeps |
| Grouping.GroupByIsGrouping | src/pagerankLevelwiseOmp.hxx:89 | Each group is nonempty and holds exactly the input elements with its key, in input order. Every element has a group, and the groups follow the first occurrence of their keys |
| Grouping.GroupByPermutes | src/pagerankLevelwiseOmp.hxx:89 | The concatenated groups are a permutation of the input |
| Grouping.InsertKeepsGrouping | src/pagerankLevelwiseOmp.hxx:89 | One element more keeps a stable grouping of all elements seen so far |
| Grouping.InsertPermutes | src/pagerankLevelwiseOmp.hxx:89 | One element more keeps the concatenated groups a permutation of the elements seen so far |
| Grouping.FindGroup | src/pagerankLevelwiseOmp.hxx:89 | The result is the first group whose leading element has the key, or the number of groups when none has |
| Sequences.Sizes | src/pagerankLevelwiseOmp.hxx:64 | The `g.size()` transform, also at line 91: one entry per group, and entry `j` is the size of group `j` |
| Sequences.Flatten | src/pagerankLevelwiseOmp.hxx:65 | `joinValuesVector`, also at line 92: the groups concatenated in order. Its length is the sum of the sizes, and `FlattenRange` places each group |
| Sequences.JoinAt | src/pagerankLevelwiseOmp.hxx:90 | `joinAt2dVector`: one vertex group per group of component indices, and group `j` is the members of the components listed in `ig[j]` |
| Sequences.Gather | src/pagerankLevelwiseOmp.hxx:92 | `joinAtU`: the members of the listed components, in list order. A single index gives that component's members; `GatherAppend`, `GatherSplice` and `FlattenJoinAt` state how it composes |
| Sequences.FlattenRange | src/pagerankLevelwiseOmp.hxx:64-65 | In the concatenation of the groups, group `j` occupies exactly the positions from the sum of the earlier sizes onward |
| Sequences.FlattenJoinAt | src/pagerankLevelwiseOmp.hxx:90-92 | Concatenating the members of each group of components gives the members of the concatenated component list |
| LevelwisePlan.StaticPlan | src/pagerankLevelwiseOmp.hxx:59-66 | Initial ranks exactly when `N == 0`. Otherwise the loop runs from 0; `ns[j]` is the size of level `j`; `|ks|` is the sum of `ns`; and level `j`'s range of `ks` is exactly `gs[j]` |
| LevelwisePlan.FlattenLaidOut | src/pagerankLevelwiseOmp.hxx:65 | Concatenated groups, followed by anything, hold each group at its running offset |
| LevelwisePlan.LevelKey | src/pagerankLevelwiseOmp.hxx:89 | The grouping key `gi[i]` of an affected component. It is defined for every integer, and is -1 only for an index outside `gi`, which no affected component has under the locator's output |
| LevelwisePlan.AffectedLevels | src/pagerankLevelwiseOmp.hxx:89 | The affected components are grouped stably by level, and every index in the groups names a component |
| LevelwisePlan.DynamicPlan | src/pagerankLevelwiseOmp.hxx:83-93 | Initial ranks exactly when `N == 0` or `n == 0`. Otherwise the loop runs from 0 and the plan's entries are nonnegative. The ordering starts with a permutation of the members of `is[..n]`, which the plan's sum covers, and ends with the members of `is[n..]` in order |
| LevelwisePlan.DynamicLayout | src/pagerankLevelwiseOmp.hxx:89-92 | The affected levels' members come first in the dynamic ordering and are those of the affected components, and the other components' members follow |
| LevelwisePlan.AffectedVertices | src/pagerankLevelwiseOmp.hxx:89-91 | The members of the level groups are a permutation of the members of the affected components |
| LevelwisePlan.GatherGroupBy | src/pagerankLevelwiseOmp.hxx:89-90 | Grouping component indices, then gathering members, gives a permutation of the members gathered in the original order |
| LevelwisePlan.GatherSplice | src/pagerankLevelwiseOmp.hxx:90 | Splicing one component index anywhere into a list adds exactly that component's members to what is gathered |
| LevelwisePlan.DynamicLevelRanges | src/pagerankLevelwiseOmp.hxx:89-92 | The level groups `ig` are a stable grouping of `is[..n]` by level index. The plan has one entry per group, and entry `j` is the number of members of group `j`. The ordering is the groups' members level by level, followed by the members of `is[n..]`, and each group's members sit at its running offset |
| LevelwisePlan.DynamicRunCoversLevels | src/pagerankLevelwiseOmp.hxx:89-93 | On the dynamic plan the loop calls the step once for each affected level with members. The call covers exactly that level's members in `ks`, gets that level's tolerance, and lies before the unaffected members |
| LevelwisePlan.JoinedCallsCoverLevels | src/pagerankLevelwiseOmp.hxx:90-92 | For component groups gathered into vertex levels and laid out ahead of any tail, the step call for each nonempty level covers exactly its vertices, with its tolerance, within the plan's sum |
| LevelwisePlan.CallsCoverLevels | src/pagerankLevelwiseOmp.hxx:33-36 | On a plan that lays out levels, the step call for each nonempty level covers exactly that level's vertices in `ks`, with that level's tolerance, and ends within the plan's sum |
| LevelwisePlan.StaticRunCoversOrdering | src/pagerankLevelwiseOmp.hxx:63-66 | On the static plan the walk ends exactly at the end of `ks`, and the calls lie within `ks` in order and without overlap. With `EF <= 2` and `N` vertices laid out, the level tolerances add up to `E` |
| LevelwisePlan.DynamicRunStopsAtSuffix | src/pagerankLevelwiseOmp.hxx:88-93 | On the dynamic plan the walk ends where the unaffected members begin. All calls lie before that point, in order and without overlap, so the suffix is never processed |

## Left out

- The body of the per-range step `pagerankMonolithicOmpLoopU`, an OpenMP power iteration over floats, is not part of this model. It is a parameter, and nothing is assumed about the count it reports.
- Properties that need the step's behaviour are not stated, such as skipped vertices keeping their ranks or a per-level convergence bound. Only the calls and the buffer hand-off are modelled.
- LevelwiseLoop.LevelwiseLoopU: the product `l1*n` at line 37 is computed on the integer type of the source, and can wrap around. For example, 500 iterations on a level of more than about 4.3 million vertices exceed a 32-bit `int`. The model computes the product without bound, so a wrapped product is not modelled.
- LevelwiseLoop.LevelwiseLoopU: the accumulator `l`, the product `E*n/N` and the weight `l1*n/N` are computed over real numbers. Single-precision rounding is not modelled.
- LevelwiseLoop.LevelwiseLoopU: requires `N > 0`. Both entry points return the initial ranks before reaching the loop when `N == 0`, and the loop divides by `N`.
- LevelwiseLoop.LevelwiseLoopU: the offset and the call trace are ghost outputs of the model; the loop itself returns only the count.
- The vertex key type `K` is modelled as an unbounded integer. Overflow of the offset `i` is not modelled.
- The rank vectors are values held by one object. C++ `swap` of two vectors exchanges their contents, which is what the model does; the identity of the vectors' storage is not modelled.
- The template flag `O` and the OpenMP threading have no effect on the loop's sequential control flow, and are left out.
- Component detection (`componentsD`), the block graph and its transpose, `levelwiseGroupedComponentsFrom`, `levelwiseGroupIndices` and `dynamicInComponentIndices` are not part of this model. Their outputs are inputs of the plans.
- Properties that depend on those helpers are not stated, such as the ordering being a permutation of all vertices, or levels respecting the condensation order.
- LevelwisePlan.DynamicPlan: requires that the affected-component locator's split point lies within its index list, that every index names a component, and that there is one level index per component. These are the call site's expectations of those helpers.
- The driver `pagerankOmp` and `transposeWithDegree` are not part of this model. `Launch` records only the plan an entry point hands to the driver (`ks`, the start 0 and `ns`), or that it returns the initial ranks. It does not record the transpose handed to `pagerankOmp` (`xt` at line 66; the new graph's `yt` at line 93, while `cs` comes from the old graph at line 84), the initial ranks `q` or the options `o`. Buffer allocation, timing and result packaging are left out.
- The overloads at lines 68-72 and 95-100 only compute the transposes and forward, and are not modelled separately.
