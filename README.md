# Sector-clustered stock sphere: layout engine model

This project models the layout core of the 3-D stock-market sphere in `app.js`. The `SphereVisualization` object places one node per stock on a sphere of radius 25.

The engine first groups the stocks by sector. Each sector gets one of five angular regions, reused cyclically. Each stock is then placed by a search of at most 200 candidates:

- attempts 1–100 are random offsets inside the region;
- attempts 101–200 are cells of a `ceil(sqrt(2n))` grid, with random jitter.

A candidate is accepted only when it keeps two gaps:

- a sector-dependent minimum distance from the earlier nodes of its own sector;
- an 8.0 gap from every earlier node.

When no candidate is accepted, the engine falls back to a golden-angle spiral start. At most ten push-relaxation passes follow. A diagnostic pass then counts the same-sector pairs that still violate the minimum distance.

Around the engine, the object keeps the following state:

- the loaded and filtered stock lists;
- a memoised store of positions and sizes keyed by symbol, filled once from the full list;
- the animation speed that selecting a node saves and deselecting restores.

The small pure rules beside it are also modelled:

- market-cap classification;
- node size by category;
- the colour priority table;
- the 52-week-high test;
- the 32-bit string hash.

Modules follow the structure of the code:

- `Geometry`: distance, the overlap test, spherical conversion, normalisation and the polar clamp.
- `Records`: stocks and placed points.
- `MarketCap`, `NodeColor`, `Hash`: the pure helpers.
- `Grouping`: the group-by-sector step.
- `Placement`: the placement, fallback and layout as functions, with their lemmas.
- `LayoutProperties`: the whole-layout guarantees.
- `Diagnostics`: the overlap count.
- `Clusters`: the imperative engine, whose loop methods are each proved equal to the matching `Placement` function.
- `Visualization`: the object's own state as a class.

`Math.random` becomes a stream of draws `rand: nat -> real` with a cursor that every operation threads through. `Math.sqrt`, `Math.pow`, `Math.sin` and `Math.cos` are supplied as a `Numerics` value of plain functions. Lemmas that depend on their exactness say so in their `requires`.

## Model

| member | source | states |
|---|---|---|
| Geometry.DistSqSymmetric | app.js:500-506 | the sum under calculateDistance's root is the same for (p, q) and (q, p) whenever `pow(x, 2)` ignores the sign of x |
| Geometry.DistanceSymmetric | app.js:500-506 | calculateDistance is symmetric in its two points under the same condition |
| Geometry.DistanceBelowIffSquared | app.js:500-506 | where pow and sqrt are exact, distance < b holds iff b > 0 and the squared Euclidean distance is below b² |
| Geometry.OverlapMeaning | app.js:509-513 | checkSphereOverlap holds iff r1 + r2 + gap is positive and the squared distance is below its square, i.e. the distance is under the required distance |
| Geometry.OverlapSymmetric | app.js:509-513 | swapping the two spheres does not change the overlap verdict |
| Geometry.SphericalOnSphere | app.js:645-653 | when sin² + cos² = 1 at both angles, the converted point lies exactly on the sphere of the given radius |
| Geometry.NormalizeUnit | app.js:743 | normalising a non-zero vector gives length 1 where sqrt is exact |
| Geometry.ClampPhi | app.js:622 | the clamp result lies in [0.1, π−0.1], equals phi inside that window, and equals the nearer bound outside |
| MarketCap.DetermineMarketCapCategory | app.js:237-247 | "Large Cap" iff value ≥ 7T, "Mid Cap" iff 1.2T ≤ value < 7T, "Small Cap" iff value < 1.2T |
| MarketCap.CategoryMonotone | app.js:237-247 | a larger market cap never gets a lower category |
| MarketCap.NodeSizeByMarketCap | app.js:443-454 | with a draw in [0,1), sizes lie in [0.5,0.6), [1.1,1.2) and [2.4,2.7) for Small, Mid and Large; any other category gets exactly 0.65 |
| MarketCap.SizesOrderedByCategory | app.js:443-454 | a higher category always yields a strictly larger node, and the 0.65 default sits between Small and Mid |
| NodeColor.IsAt52WeekHigh | app.js:1236-1239 | price / high ≥ 0.95 restated without division for each sign of the high, including the zero high (+∞ or NaN in JavaScript) |
| NodeColor.GetNodeColor | app.js:457-486 | blue iff the 52W filter is on and the stock is at its high; texture iff 1Y returns are off and blue does not apply; otherwise the return bands >10, [0,10] and <0 map to bright green, dark green and red |
| Hash.ToInt32 | app.js:494 | the 32-bit wrap lands in [−2³¹, 2³¹) and is congruent to its input mod 2³² |
| Hash.ToInt32Congruent | app.js:493-494 | inputs congruent mod 2³² wrap to the same value |
| Hash.StepIsWrappedTimes31 | app.js:493-494 | `((h << 5) - h) + c` wrapped to 32 bits equals the wrapped `31·h + c` |
| Hash.HashIsWrappedPolynomial | app.js:489-497 | the step-by-step wrapped hash equals the unbounded polynomial Σ 31^(n−1−i)·s[i] wrapped once |
| Hash.HashCode | app.js:489-497 | the loop returns the step-wise hash, which is the wrapped polynomial and a signed 32-bit value |
| Grouping.SectorsCover | app.js:520-528 | every stock's sector is listed and every listed sector belongs to some stock |
| Grouping.SectorsDistinct | app.js:520-528 | no sector is listed twice |
| Grouping.SectorsInFirstAppearanceOrder | app.js:520-528 | sector a is listed before sector b only if a stock of a occurs before every stock of b |
| Grouping.EarlierSectorOccursFirst | app.js:520-528 | the per-occurrence form of the first-appearance order |
| Grouping.MembersAreTheSector | app.js:521-526 | a sector's group holds exactly the stocks of that sector |
| Grouping.MembersWithinInput | app.js:521-526 | a group never holds more copies of a stock than the input |
| Grouping.MembersNonEmpty | app.js:521-526 | every listed sector has at least one member |
| Grouping.MembersOfAbsentSector | app.js:521-526 | an unlisted sector has an empty group |
| Grouping.ConcatGroupsSectors | app.js:582-583 | the concatenated groups only hold stocks of the sectors enumerated |
| Grouping.ConcatGroupsAppend | app.js:521-526 | appending one stock adds it once to the groups iff its sector is enumerated |
| Grouping.GroupsPartitionStocks | app.js:520-528 | the groups, in sector order, are a permutation of the input of the same length, so grouping is a partition |
| Grouping.GroupBySector | app.js:520-528 | the loop builds the sector list in first-appearance order and a map from each listed sector to its group in input order |
| Placement.RegionReuse | app.js:584 | sectors i and j share a region iff i ≡ j (mod 5) |
| Placement.DynamicMinDistance | app.js:593-594 | the minimum is the larger of 2.5 for Technology or 1.5 otherwise, and sqrt(n)·0.3 |
| Placement.CeilSqrtFromBounds | app.js:626 | the integer search returns the least r with r² ≥ m |
| Placement.GridSizeBounds | app.js:626 | the grid side is ceil(sqrt(2n)): its square covers 2n, the next smaller square does not, and it is at least 2 |
| Placement.GridCellFacts | app.js:625-628 | grid attempt g = attempt − 100 maps to the cell (g mod side, g div side); the column is below the side and cell (0,0) is never used |
| Placement.GridSweepCoversCells | app.js:625-635 | when side² ≤ 100, every cell other than (0,0) is visited by some grid attempt |
| Placement.GridSweepOverrunsRows | app.js:625-635 | when side² ≤ 100, the last grid attempt lands on a row beyond the region's last row |
| Placement.RandomPhaseAngles | app.js:611-622 | a random-phase candidate's phi is clamped into [0.1, π−0.1] |
| Placement.RandomPhaseWithinReach | app.js:613-621 | a random-phase theta lies within ±(range/2 + 0.5) of the region centre |
| Placement.GridPhaseAngles | app.js:623-642 | a grid-phase candidate's phi is clamped into [0.1, π−0.1] |
| Placement.CandidateAngles | app.js:609-642 | every candidate's phi is in the clamp window; a random attempt uses 4 draws and a grid attempt 2 |
| Placement.AttemptDraws | app.js:605-642 | attempt a consumes 4 draws when a ≤ 100 and 2 otherwise, 600 over a full search |
| Placement.CandidatesUpToAt | app.js:605-653 | candidate a of the search is the one drawn at attempt a, starting after the draws of attempts 1..a−1 |
| Placement.SearchFrom | app.js:605-688 | the search never makes more than 200 attempts, and makes all 200 when it finds nothing |
| Placement.SearchFindsAccepted | app.js:655-687 | a position the search returns is the candidate of its last attempt and passes both gap checks |
| Placement.SearchSkipsOnlyRejected | app.js:605-688 | every candidate passed over before the result failed a gap check |
| Placement.SpiralRadius | app.js:699 | the spiral radius lies in [0.2, 0.8] and reaches 0.8 exactly from stock index 6 on |
| Placement.FallbackAngles | app.js:695-709 | the spiral start's phi is clamped into the window, and it uses 2 draws |
| Placement.PushOverMeaning | app.js:726-737 | a pass needs a push iff some same-sector node is too close, and the push is zero otherwise |
| Placement.PushNeededIffTooClose | app.js:726-739 | a full pass needs a push iff the position fails the intra-sector gap check |
| Placement.Relax | app.js:722-744 | relaxation runs no more than 10 passes |
| Placement.PushPass | app.js:722-744 | one push pass and the relaxation after it stay within the 10-pass budget |
| Placement.RelaxStopsWhenClear | app.js:722-744 | stopping before 10 passes means the position is clear of its sector; an already-clear start is returned unchanged |
| Placement.Fallback | app.js:691-745 | the fallback consumes exactly 2 draws |
| Placement.FallbackBounds | app.js:691-745 | the fallback uses at most 10 passes, and an early exit leaves the node clear of its sector |
| Placement.PlaceWithFacts | app.js:598-759 | the entry carries the stock and the node size, a searched position passes both gap checks, and draws are consumed |
| Placement.PlaceOneEntry | app.js:598-599 | a stock's entry holds that stock and the size drawn for its category |
| Placement.SearchFailsIffAllRejected | app.js:600-688 | the search finds nothing iff every candidate fails one of the two gap checks |
| Placement.PlaceWithFallsBackIffAllRejected | app.js:685-691 | whatever the candidates, the fallback is taken iff every candidate fails a gap check |
| Placement.PlaceOneFallsBackIffAllRejected | app.js:685-691 | a stock falls back iff none of its 200 candidates, drawn after its size, passes both gap checks at that size |
| Placement.PlaceOneSearchedAccepted | app.js:655-687 | a stock placed by the search keeps both gaps from the nodes placed before it |
| Placement.PlaceStepForContract | app.js:598-759 | the per-stock step keeps its stock and only accepts positions that pass both checks |
| LayoutProperties.PlaceSectorFlags | app.js:748-759 | placing a group adds exactly one fallback flag per stock and keeps the earlier ones |
| LayoutProperties.PlaceSectorAppends | app.js:748-759 | each stock's entry is appended to both lists, and the global list grows by exactly the sector's new entries |
| LayoutProperties.PlaceSectorStocks | app.js:598-759 | the sector's entries hold the group's stocks in order |
| LayoutProperties.PlaceSectorSeparated | app.js:655-687 | placing a group keeps every searched node at both gaps from all nodes before it |
| LayoutProperties.EarlierPointsOutsideSector | app.js:582-584 | before a sector is processed, no placed node belongs to it |
| LayoutProperties.GroupIsOneSector | app.js:583 | every member of a sector's group has that sector |
| LayoutProperties.ConcatGroupsStep | app.js:582-759 | processing one more sector extends the output by that sector's group |
| LayoutProperties.LayoutStepKeepsInvariant | app.js:582-787 | one sector step keeps the layout invariant: output stocks are the groups so far, flags match, gaps hold |
| LayoutProperties.LayoutFromInvariant | app.js:582-787 | the invariant holds after all sectors |
| LayoutProperties.LayoutPlacesEveryStockOnce | app.js:516-826 | the output holds every input stock exactly once, grouped by sector, and its length equals the input's; one overlap count per sector |
| LayoutProperties.LayoutKeepsGaps | app.js:655-687 | every searched node is at least 8.0 plus both sizes from every earlier node, and at least the sector minimum plus both sizes from earlier nodes of its sector |
| LayoutProperties.SearchedRunIsClean | app.js:770-780 | a run of searched nodes of one sector has no violating pair |
| LayoutProperties.EntriesOfGroup | app.js:748-752 | entries built from a one-sector group all carry that sector |
| LayoutProperties.SectorWithoutFallbackReportsNothing | app.js:770-786 | a sector where no node fell back reports zero overlaps |
| Diagnostics.RowPairsMember | app.js:772-779 | row i of the check reports exactly the j > i that violate the minimum |
| Diagnostics.PairsBeforeMember | app.js:771-780 | the first i rows report exactly the violating pairs whose first index is below i |
| Diagnostics.ViolatingPairsExactly | app.js:770-780 | the pairs counted are exactly the pairs i < j whose distance is below both sizes plus the minimum |
| Diagnostics.NoOverlapsIffSeparated | app.js:770-786 | the count is zero iff no pair violates the minimum |
| Diagnostics.SeparatedSectorReportsNothing | app.js:770-786 | a sector whose nodes all keep the minimum reports zero |
| Diagnostics.RowPairsNoRepeats | app.js:771-778 | one row of the inner loop meets each violating pair once |
| Diagnostics.PairsBeforeNoRepeats | app.js:770-779 | the rows of the outer loop never meet a pair twice |
| Diagnostics.ViolatingPairsCountEachOnce | app.js:770-780 | the pass lists each violating pair once, so its length is the number of pairs i < j that violate |
| Diagnostics.CountOverlaps | app.js:770-780 | the nested loop's count equals the number of distinct pairs i < j of the sector closer than their radii plus the minimum distance |
| Clusters.HasSectorCollision | app.js:656-669 | the scan reports a collision iff the candidate fails the intra-sector check |
| Clusters.HasGapCollision | app.js:672-683 | the scan reports a collision iff the candidate overlaps some earlier node with gap 8.0 |
| Clusters.ScanCandidate | app.js:655-687 | a candidate is taken iff it passes both scans |
| Clusters.TryAttempt | app.js:605-687 | attempt a examines the a-th candidate and returns it iff it is accepted |
| Clusters.SearchPosition | app.js:600-688 | the while loop returns what the search function returns and consumes the draws of the attempts made |
| Clusters.ComputePush | app.js:723-737 | the inner loop computes the pass's push flag and vector |
| Clusters.PushStep | app.js:723-743 | one pass either stops with the position unchanged or moves it to the next relaxation state |
| Clusters.RelaxPosition | app.js:722-744 | the push loop ends where the relaxation function ends |
| Clusters.FallbackPosition | app.js:691-745 | the fallback block computes the fallback function's result |
| Clusters.FallbackPlacement | app.js:691-759 | a search that found nothing leads to the fallback entry |
| Clusters.FinishPlacement | app.js:685-759 | the entry built after the search is the placement function's entry |
| Clusters.PlaceStock | app.js:598-759 | one stock's placement equals the placement function: its stock, its drawn size, a position passing both checks unless it fell back |
| Clusters.PlaceSector | app.js:598-786 | the sector loop appends each stock once to both lists and returns the sector's overlap count |
| Clusters.Create3DSectorClusters | app.js:516-826 | the output is the layout function's: each input stock exactly once, grouped by sector in first-appearance order; both gaps hold for every searched node; one overlap count per sector |
| Visualization.KeepWhereConcat | app.js:425-432 | Array.filter distributes over concatenation, i.e. keeps input order |
| Visualization.KeepWhereMembers | app.js:425-432 | Array.filter keeps exactly the stocks satisfying the predicate |
| Visualization.FilteredMembers | app.js:423-436 | a stock survives filterStocks iff it is loaded and matches the sector and market cap, with "All" disabling either test |
| Visualization.FilteredConcat | app.js:423-436 | filterStocks keeps input order |
| Visualization.FilteredSingle | app.js:423-436 | a single stock is kept iff it matches the selection |
| Visualization.FilteredAllIsIdentity | app.js:425-432 | with both selections "All" the filtered list is the loaded list |
| Visualization.NodeCountFor | app.js:436 | the node count is min(filtered length, 100): at most both, and equal to one of them |
| Visualization.StoreKeys | app.js:842-845 | the position and size maps hold exactly the symbols of the points set |
| Visualization.StoreLastWins | app.js:842-845 | a symbol maps to the position and size of the last point carrying it |
| Visualization.StoreCoversStocks | app.js:829-848 | a store built from a permutation of the loaded stocks is keyed by exactly the loaded symbols |
| Visualization.BuildStore | app.js:842-845 | the forEach builds the last-wins position and size maps |
| Visualization.LayOutStore | app.js:835-845 | laying out the full list and storing the result gives the layout's maps, keyed by exactly the loaded symbols |
| Visualization.SelectDeselectRestoresSpeed | app.js:1752-1765 | selecting freezes the animation, and deselecting restores the speed it had and clears the selection |
| Visualization.ReselectKeepsSavedSpeed | app.js:1756-1758 | selecting a second node while one is selected keeps the first saved speed, so deselecting still restores it |
| Visualization.DeselectWhenIdle | app.js:1831-1833 | deselecting with nothing selected changes nothing |
| Visualization.SelectionStaysConsistent | app.js:1752-1847 | selecting and deselecting keep the selected flag in step with the selected node |
| Visualization.SphereVisualization.constructor | app.js:8-80 | the initial state: empty lists, "All" filters, node count 50, empty store, speed 0.1, nothing selected |
| Visualization.SphereVisualization.LoadStocks | app.js:117-118 | a loaded list becomes both the full and the filtered list |
| Visualization.SphereVisualization.FilterStocks | app.js:423-440 | rewrites only the filtered list and the node count, and never touches the position store |
| Visualization.SphereVisualization.ChangeSector | app.js:391-396 | a new sector choice refilters the list and leaves the store unchanged |
| Visualization.SphereVisualization.ChangeMarketCap | app.js:399-404 | a new market-cap choice refilters the list and leaves the store unchanged |
| Visualization.SphereVisualization.InitializePositionsAndSizes | app.js:829-848 | a non-empty store is left unchanged; otherwise the store becomes the last-wins maps of the full list's layout, keyed by every loaded symbol |
| Visualization.SphereVisualization.RebuildStore | app.js:832-845 | clearing and refilling leaves exactly the layout's maps and advances the random stream past the layout's draws |
| Visualization.SphereVisualization.SelectNode | app.js:1752-1765 | the speed is saved only if nothing was selected, then set to 0, and the node becomes selected |
| Visualization.SphereVisualization.DeselectNode | app.js:1831-1847 | with a node selected, the saved speed is restored and the selection cleared; otherwise nothing changes |

## Left out

- Floating point: coordinates, sizes and angles are exact reals, so rounding, NaN and infinities are not modelled.
- `Math.sqrt`, `Math.pow`, `Math.sin` and `Math.cos` are parameters. The on-sphere and unit-length facts hold only under their stated exactness assumptions. The pole-avoidance of positions after a push step is not claimed.
- `Math.random` is an injected stream of draws. Nothing about its distribution is modelled. The per-category size draw is taken from the stream only for the three known categories.
- Placement.Candidates: the specification function lists all 200 candidates of a search up front. The method draws them one at a time and stops at the first accepted one. Both consume the same draws.
- Grouping.GroupBySector: the groups live in a plain object, so a sector named like an inherited member of Object.prototype ("constructor", "toString", "hasOwnProperty", "__proto__" and the like) finds a truthy value already there and the push on it throws a TypeError; that throw is not modelled, and such a sector is grouped like any other. Object.keys also lists integer-like keys first, so a sector named like an array index would be enumerated before the others in the code, while the model keeps first-appearance order for every name.
- Console logging, including the sector-centroid averages and distance logs (app.js:788-823) and the per-overlap warnings, is left out. The overlap count itself is modelled.
- Rendering and DOM work are left out: the scene, meshes, halo, opacity changes, tooltips, the GUI and the animation loop. This includes the redraw after a filter change (`createSphere`) and the halo and dimming inside selectNode and deselectNode.
- `fetchStockData`, `transformStockData`, `generateDummyStockData` and the parsing and formatting helpers are left out. LoadStocks takes the resulting list as a parameter.
- The GUI slider can change `animationSpeed` while a node is selected; that input is not modelled.
- `show52WeekHigh` and `show1YReturns` are fields of the model. The checkboxes that toggle them are not modelled; getNodeColor takes them as arguments.
- `stock.returns1Y || 0`: the model's return is always a defined number, so the fallback to 0 for a missing or NaN value is not modelled.
- selectedNode holds the stock of the clicked mesh, not the mesh itself.
- Once filled, the store is never rebuilt: initializePositionsAndSizes returns early while it holds anything (app.js:830). The model follows the code.
- settings.sphereRadius is fixed at 25, because its GUI control is removed in the code.
- The other files of the repository (the HTTP server, the scraper and the chart scripts) are not part of this model.
