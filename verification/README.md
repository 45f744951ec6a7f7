# Clock trees, antenna gates, pin walks and delta debugging in OpenROAD: a verified model

This project models the in-memory algorithms of OpenROAD's clock tree synthesis (`src/cts/src`),
the union-find of its antenna checker, the walk over connected pins of its hierarchical network, and
the search loop of its delta debugger. Every loop that updates state in the source is a method with
loop invariants here, objects that update their fields are classes, and each method is proved against
a function or predicate on values whose meaning is then stated by lemmas.

## What is modelled

- **Buffer sizes** (`BufferConfigs`, `ConfigOrder`, `Descriptors`, `Characterization`). Patterns of buffers on a wire
  are described by wires and masters; each pattern is stepped through all non-decreasing choices of
  masters by a base-n counter, as often as a separate, memoized count says. The count is a binomial
  coefficient, and the walk meets every non-decreasing choice exactly once and returns to the start.
- **Look-up table** (`SegmentLut`, `LutCompiler`). Wire segments with a packed-key index that always
  agrees with a linear scan, also while the table grows during a visit.
- **Choosing segments** (`SegmentChoice`, `LevelTiling`, `TilingResults`, `TilingChains`, `TilingOrder`,
  `TilingSpaces`, `AxisValues`). Fastest segment at the smallest tolerance, tiling of the H-tree levels, when
  a level is covered, how long a signal runs without a buffer, which segment may follow which, in which
  order lengths are tried, where forced buffers go, and the value axes of the characterization.
- **Sink clustering** (`CurveOrder`, `CurveSorting`, `SinkMatching`, `SinkClusterings`, `LeftEdge`,
  `StartingPlaces`, `PreClustering`). The order of points along a curve, greedy clusterings from several
  starting places of it, run in lock-step, the best one kept over runs, what is missed by skipping one
  place, and the leaf nets made of the clusters.
- **H-tree** (`Clusterings`, `Branching`, `SegmentBuilding`, `BranchNets`, `LeafNets`, `TreeGrowth`,
  `HTreeBuilding`, `ClusterRounds`, `HTreeRuns`). From no, one or two rounds of clustering and a capacitated
  k-means that halves the sinks level by level to the finished netlist: one tree below the root buffer in
  which every sink of the clock is attached exactly once, and behind how many buffers.
- **Level balancing** (`ClockNets`, `Netlists`, `BuilderTrees`, `GatedTrees`, `LevelAccounting`,
  `LevelProgress`, `LevelStates`, `LevelNets`, `LevelNames`, `LevelBalancing`, `LevelResults`). Measuring
  the depth of a tree of builders, and padding each net so that all sinks end on the same level,
  while the list of nets grows under the loop.
- **Antenna gates** (`Connectivity`, `DisjointSets`, `AntennaGates`). Which gates a node sees through
  metal of its own and lower layers.
- **Connected pins** (`PinHierarchy`, `PinRoutes`, `ConnectedPins`). The recursive walk up and down a module hierarchy.
- **Delta debugging** (`DeltaBlocks`, `DeltaDebugging`). The nested search loops around a step command
  that may answer differently each time.

## How it is modelled

- Nets, pins, gates and database instances are numbers or objects without content; a netlist is also
  read as a value, a sequence of nets with the driver first, on which trees, chains, depths and sinks
  are defined (`Netlists`, `TreeGrowth`).
- What the code gets from elsewhere is a parameter: where min-cost flow sends each sink and how far the
  means move in each round (`Clusterings.Rounds`), distances and capacitances of points, the neighbours
  of pins and nodes, and the answer of the delta debugger's step command as a function of time and database.
- Some predicates are wrapped in a recursion of fixed depth (`Sealed…`); it changes nothing about what they
  say and only keeps the verifier from unfolding them where they are just handed on. A lemma beside each
  states that the wrapped and the plain form are equivalent.
- Snapshots of clocks (`LevelBalancer.shots`) and the positions of nets (`LevelTopology.drivingIdx`) are
  ghost fields tied to the real fields by `Valid()` and `OnClock`.

Where the code does not do what a comment or a name suggests, the model follows the code and the exact
condition is proved:

- a pure wire is characterized once per master, not once (`Characterization.Characterizer.PureWireTests`,
  against the comment at `src/cts/src/TechChar.cpp:1676`);
- a sixth node has no bit in a pattern's mask, so masks repeat from six nodes on
  (`Descriptors.MasksDifferIff`). Indexing `std::bitset<5>` beyond its five bits is undefined in C++; that
  such a bit reads as unset is an assumption of the model;
- joining cluster number and counter in buffer names is ambiguous by itself; the order in which names
  are given out keeps them apart (`LevelNames.JoinIsAmbiguous`, `LevelNames.StampNamesDiffer`);
- the clustering from the first starting place along the curve never competes: by size and diameter there
  are points for which it would be cheaper than all that do exactly if there are three points or more, and
  nothing is missed where all points are one cluster (`StartingPlaces.FirstIsMissedIff`,
  `StartingPlaces.FreeFromAnyPlace`). Points that show it lie above each other, each but the lowest two four
  times as high as the one below (`StartingPlaces.FirstIsMissed`);
- the levels of tree buffers the builder counts include one for each round of clustering, although a sink that
  is alone in its cluster gets no leaf buffer then: a sink is behind that many buffers exactly if it is in a
  cluster of several in every round (`ClusterRounds.AboveIs`, `HTreeRuns.Run`);
- an error-free pass of the delta debugger leaves out the last block as soon as there are at least as many
  blocks as elements, unless there is one element only (`DeltaDebugging.TriesAllBlocks`);
- adding an instance to a net, or replacing a sink by one, breaks the net's index exactly if the instance is
  on the net already (`ClockNets.ClockSubNet.AddInst`, `ClockNets.ClockSubNet.ReplaceSink`).

The recursion along the curve ends because all floating-point coordinates are multiples of a power of one
half (`CurveOrder.DyadicEnds`); it would not end on real numbers, such as exact thirds (`CurveOrder.ThirdsNeverEnd`).

`dafny verify dfyconfig.toml` checks the whole project.

## Model

| member | source | states |
|---|---|---|
| `BufferConfigs.AllMonotoneExact` | src/cts/src/TechChar.cpp:1781-1792 | The rows counted as monotonic are exactly the non-decreasing in-range configurations, each once |
| `BufferConfigs.CountIsBinomial` | src/cts/src/TechChar.cpp:1700-1775 | Over n masters and k nodes there are C(n+k-1, k) monotonic configurations |
| `BufferConfigs.StepIsCyclicSuccessor` | src/cts/src/TechChar.cpp:1359-1390 | The first monotonic code after entry i belongs to entry i+1, and to the first entry after the last one |
| `ConfigOrder.StepIsNext` | src/cts/src/TechChar.cpp:1359-1390 | Without counting: the step from a configuration leads to the first non-decreasing one after it in the order in which later nodes decide first, and to the smallest buffers everywhere if there is none |
| `ConfigOrder.CodeOrder` | src/cts/src/TechChar.cpp:1359-1390 | The codes are ordered as the configurations are by the last node in which they differ |
| `BufferConfigs.DigitsOfMultiple` | src/cts/src/TechChar.cpp:1369-1378 | Every multiple of n^k has only zero digits, so the search for a monotonic code always ends |
| `BufferConfigs.RotationCoversOnce` | src/cts/src/TechChar.cpp:1614-1678 | Reading the list from any entry round to it again meets each monotonic configuration once and nothing else |
| `Characterization.Characterizer.IsTopologyMonotonic` | src/cts/src/TechChar.cpp:1781-1792 | Answers true exactly for non-decreasing rows |
| `Characterization.Characterizer.GetNextConfig` | src/cts/src/TechChar.cpp:1359-1390 | Returns the digits of the first monotonic code after the current one, for every in- or out-of-range input, and terminates |
| `Characterization.Characterizer.GetBufferingCombo` | src/cts/src/TechChar.cpp:1724-1775 | Whether memoized or counted, the result is the number of monotonic configurations, and the table stays correct |
| `Characterization.Characterizer.CreatePatterns` | src/cts/src/TechChar.cpp:925-1046 | Pattern c of 2^nodes has the descriptor of mask c and one instance per set bit, or one empty instance for a pure wire |
| `Characterization.Characterizer.SwapTopologyBuffer` | src/cts/src/TechChar.cpp:1406-1432 | Renames buffer number i of the descriptor, no other buffer and no wire |
| `Characterization.Characterizer.UpdateBufferTopologies` | src/cts/src/TechChar.cpp:1308-1330 | Instances move to the next monotonic configuration; the descriptor keeps naming the instances' masters in order and keeps its wires |
| `Characterization.Characterizer.Characterize` | src/cts/src/TechChar.cpp:1600-1678 | The configurations gone through are all the monotonic ones, each once, starting with the current one; afterwards instances and descriptor are as before |
| `Characterization.Characterizer.PureWireTests` | src/cts/src/TechChar.cpp:1601-1678 | A pure wire is characterized once per master, so once only exactly if there is one master |
| `Characterization.Characterizer.NewPattern` | src/cts/src/TechChar.cpp:964-1041 | A new pattern with buffers names its instances' masters in order and stands at a monotonic configuration, as stepping it requires |
| `Characterization.Characterizer.CharacterizeAll` | src/cts/src/TechChar.cpp:1548-1678 | For one wirelength, every pattern is tested with exactly the monotonic configurations of its buffers, each once, and a pattern without buffers once per master |
| `Characterization.WiresAndMasters` | src/cts/src/TechChar.cpp:1406-1432 | Equal wires and equal masters make equal descriptors |
| `Descriptors.RecoverDescribe` | src/cts/src/TechChar.cpp:964-1041 | A descriptor reads back as the mask it was made from, and its wires sum to the length of the pattern |
| `Descriptors.DescribeRecover` | src/cts/src/TechChar.cpp:964-1041 | Every alternating descriptor is the descriptor of the mask it reads as, so patterns and masks correspond one to one |
| `Descriptors.HopsAreTaps` | src/cts/src/TechChar.cpp:968-1021 | Prefix sums of the wires in front of buffers are the positions of the set bits |
| `Descriptors.MasksDifferIff` | src/cts/src/TechChar.cpp:932-945 | The masks of all pattern numbers differ exactly if there are at most five nodes |
| `Descriptors.MaskSpells` | src/cts/src/TechChar.cpp:927-945 | The set nodes of a mask, node i standing for 2^i, add up to the pattern's number, up to the bits there are |
| `LutCompiler.CompileLine` | src/cts/src/TechChar.cpp:67-107 | One result line becomes one segment whose fields come from the line's in the table's units and widths, with the bumped slew, the locations and the masters; the index stays exact |
| `LutCompiler.PureWireDegrades` | src/cts/src/TechChar.cpp:70-74 | A pure wire makes the slew worse in the table exactly if it has not made it better when it was characterized |
| `LutCompiler.CompileLut` | src/cts/src/TechChar.cpp:53-108 | Every result line becomes one segment, in order, after the segments there were |
| `LutCompiler.CompiledPattern` | src/cts/src/TechChar.cpp:86-107 | A buffered pattern, in whatever sizes, compiles to equally many locations and masters; the masters come in order and the summed locations are the set bits |
| `LutCompiler.CompiledArePaired` | src/cts/src/TechChar.cpp:86-107 | Segments compiled from patterns have as many masters as locations, as copying them for fake entries requires |
| `SegmentLut.KeyInjective` | src/cts/src/TechChar.h:227-231 | Different 8-bit fields give different keys |
| `SegmentLut.JoiningIsAdding` | src/cts/src/TechChar.h:227-231 | The key joined of the shifted fields by bits is the sum that stands for it, since the fields do not overlap |
| `SegmentLut.ScanExact` | src/cts/src/TechChar.cpp:190-212 | A scan finds exactly the matching segments, in the order of insertion |
| `SegmentLut.SegmentTable.CreateWireSegment` | src/cts/src/TechChar.cpp:167-188 | Appends one segment, and looking up any key still finds what a linear scan finds |
| `SegmentLut.SegmentTable.VisitWireSegments` | src/cts/src/TechChar.cpp:198-212 | The keyed visit hands over exactly the segments a linear scan filtered on length, load and output slew would, in order |
| `SegmentLut.SegmentTable.CopyCell` | src/cts/src/TechChar.cpp:366-380 | Although the index is read while the table grows, each matching segment is copied once |
| `SegmentLut.SegmentTable.CreateFakeEntries` | src/cts/src/TechChar.cpp:354-383 | Nothing happens for equal lengths; otherwise old segments stay, behind them there is one copy of each source with all fields and buffers but the length and the fraction of the power, and the loop ends |
| `SegmentLut.SourcesExact` | src/cts/src/TechChar.cpp:364-380 | The sources are exactly the segments of that length within the table's loads and slews, each once |
| `AxisValues.SortAndUniquify` | src/cts/src/TechChar.cpp:822-852 | The result rises in steps of at least 1%, holds only given values, and has less than 1% below each given value a kept one |
| `AxisValues.ThinRepresents` | src/cts/src/TechChar.cpp:832-844 | Every dropped value is within 1% of a kept one that is not larger |
| `AxisValues.SmallestGapIs` | src/cts/src/TechChar.cpp:883-902 | The place found is the first of the smallest gaps |
| `AxisValues.LargestGapIs` | src/cts/src/TechChar.cpp:904-923 | The place found is the first of the largest gaps, unless all gaps are tiny |
| `AxisValues.SmallestDiffIter` | src/cts/src/TechChar.cpp:883-902 | The loop finds that place for every non-empty list |
| `AxisValues.LargestDiffIter` | src/cts/src/TechChar.cpp:904-923 | The loop finds that place for every non-empty list |
| `AxisValues.ThinnedKeeps` | src/cts/src/TechChar.cpp:859-864 | Reducing ends with exactly the limit and keeps a subsequence with the first value |
| `AxisValues.FilledRefines` | src/cts/src/TechChar.cpp:865-873 | Expanding ends with exactly the limit, keeps every value and both ends, and stays strictly increasing |
| `AxisValues.ThinnedSteps` | src/cts/src/TechChar.cpp:857-864 | Each step on the way down takes the upper end of the first of the smallest gaps away, and nothing else |
| `AxisValues.FilledSteps` | src/cts/src/TechChar.cpp:865-873 | Each step on the way up puts the middle into the first of the largest gaps, unless all gaps are tiny, and nothing else |
| `AxisValues.ReduceOrExpand` | src/cts/src/TechChar.cpp:857-881 | The result has exactly the limit of strictly increasing values, by closing first smallest gaps or halving first largest ones step by step |
| `SegmentChoice.FastestIsLeast` | src/cts/src/HTreeBuilder.cpp:1541-1562 | The running minimum is the first segment of least delay among those admitted |
| `SegmentChoice.ChoiceIsLeast` | src/cts/src/HTreeBuilder.cpp:1541-1562 | A look-up finds a segment of least delay in the table's range, and fails exactly if none is admitted |
| `SegmentChoice.ScanTable` | src/cts/src/HTreeBuilder.cpp:1622-1655 | One pass over loads and slews keeps a running minimum per condition, each equal to the choice for that condition alone |
| `LevelTiling.ComputeMinDelaySegment` | src/cts/src/HTreeBuilder.cpp:1528-1603 | Answers with the fastest segment at the smallest tolerance up to 10; from the slew threshold on with the fastest buffered one if there is one; below it the slew rises |
| `LevelTiling.MinDelayIs` | src/cts/src/HTreeBuilder.cpp:1528-1603 | The answer is a segment of least delay among those in reach at its tolerance, with none in reach at a smaller one; it is buffered exactly if the slew has reached the threshold and a buffered one is in reach; there is none exactly if nothing is in reach |
| `LevelTiling.ComputeForcedSegment` | src/cts/src/HTreeBuilder.cpp:1605-1668 | A forced buffer within 10% of the expected place comes first, then any single buffer, then a plain wire |
| `LevelTiling.PickSegment` | src/cts/src/HTreeBuilder.cpp:1426-1494 | One look-up adds the segment it finds, whose length it is, with the capacitance, slew and buffer distance that follow, and nothing if it finds none |
| `LevelTiling.PickSegments` | src/cts/src/HTreeBuilder.cpp:1424-1499 | Segments of one length are looked up one after the other, each from where the last one has ended, as often as asked for |
| `LevelTiling.ComputeLevelTopology` | src/cts/src/HTreeBuilder.cpp:1405-1507 | The level is what trying all lengths from the longest down gives, although the loop stops early; it covers at most its length. What that is, `TilingChains.LevelChains`, `TilingOrder.LevelOrdered` and `TilingSpaces.LevelSpaced` say on the segments and the table alone |
| `LevelTiling.ComputeLevels` | src/cts/src/HTreeBuilder.cpp:1212-1244 | Each level begins with the capacitance and slew the one above has ended with |
| `TilingResults.CoveredIff` | src/cts/src/HTreeBuilder.cpp:1421-1500 | A level is covered exactly if every look-up for unit length finds a segment |
| `TilingResults.LevelCovered` | src/cts/src/HTreeBuilder.cpp:1421-1500 | With segments of unit length in reach of whatever can come up, the chosen lengths sum to the level's length |
| `TilingResults.AllCovered` | src/cts/src/HTreeBuilder.cpp:1212-1244 | The same for all levels of a tree |
| `TilingResults.PathRuns` | src/cts/src/HTreeBuilder.cpp:1421-1603 | If at each look-up this run makes from the slew threshold on a buffered segment is in reach wherever any is, at most SLEW_THRESHOLD segments in a row have no buffer, also across levels |
| `TilingResults.LevelsThere` | src/cts/src/HTreeBuilder.cpp:1212-1244 | A table with buffered segments for whatever can come up meets that condition in every run |
| `TilingResults.RunsWithinIff` | src/cts/src/HTreeBuilder.cpp:1421-1603 | That is the same as a buffer among any SLEW_THRESHOLD + 1 segments in a row |
| `TilingResults.OneSegmentIsEnough` | src/cts/src/HTreeBuilder.cpp:1528-1603 | Tables that cover all levels and have buffered segments for whatever can come up exist; a single buffered segment can do |
| `TilingChains.LevelChains` | src/cts/src/HTreeBuilder.cpp:1421-1506 | Each segment of a level is what a look-up answers for the larger of the load before it and minInputCap and for the slew handed on, within a tolerance of 10 of both; the level ends with what its last segment leaves |
| `TilingChains.PathChains` | src/cts/src/HTreeBuilder.cpp:1212-1244 | The same for all segments from the root down through the levels, from minInputCap and slew 1 on |
| `TilingOrder.LevelOrdered` | src/cts/src/HTreeBuilder.cpp:1421-1500 | Longer segments come first: where one is chosen, every longer length no longer fits or nothing was found for it there or before, and at the end this holds of all lengths |
| `TilingSpaces.LevelSpaced` | src/cts/src/HTreeBuilder.cpp:1421-1500 | With forced buffers, every length is tried as often as it fits, the longest first; each look-up asks for a buffer exactly where one is due, and the one it takes is as near to its place as there is one; what is left to the next buffer is handed on |
| `TilingSpaces.PathSpaced` | src/cts/src/HTreeBuilder.cpp:1212-1244 | The same from level to level, from one buffer distance on |
| `TilingSpaces.DueIff` | src/cts/src/HTreeBuilder.cpp:1433-1468 | Without buffers at vertices one is due exactly where a multiple of the buffer distance, counted from the first place, falls on the length looked for |
| `TilingSpaces.ForcedIsBest` | src/cts/src/HTreeBuilder.cpp:1605-1668 | A single buffer near the place is taken if there is one, else any single buffer, else a plain wire, each of least delay |
| `TilingSpaces.FiltersAre` | src/cts/src/HTreeBuilder.cpp:1628-1653 | A plain wire has no buffer, and a single buffer is near if it is less than a tenth of the place away |
| `CurveOrder.ComputeTheta` | src/cts/src/SinkClustering.cpp:111-161 | Ends for all dyadic points of the unit square, never meets the error branch, and lies in [0, 1) |
| `CurveOrder.MirrorX` | src/cts/src/SinkClustering.cpp:127-161 | The positions of a point and of its mirror image at the vertical middle line add up to 3/4, but for whole rounds, away from the rounded corners |
| `CurveOrder.MirrorY` | src/cts/src/SinkClustering.cpp:127-161 | Those of a point and of its mirror image at the horizontal middle line add up to 1/4 |
| `CurveOrder.FoldDyadic` | src/cts/src/SinkClustering.cpp:131 | Each recursion step halves the denominator until only 1 is left |
| `CurveOrder.DyadicEnds` | src/cts/src/SinkClustering.cpp:122-131 | Multiples of 1/2^m have become 1 after m+1 steps |
| `CurveOrder.ThirdsNeverEnd` | src/cts/src/SinkClustering.cpp:122-131 | For exact thirds the recursion would never end |
| `CurveSorting.NormalizePoints` | src/cts/src/SinkClustering.cpp:42-78 | The points become their parts of the spans, and the diameter is divided by the smaller span, the only one, or 1 |
| `CurveSorting.InSquare` | src/cts/src/SinkClustering.cpp:60-67 | Every coordinate comes to lie between 0 and 1 and, if there is a span, both ends are taken |
| `CurveSorting.UnitIs` | src/cts/src/SinkClustering.cpp:68-78 | The diameter is divided by the smaller of the two spans there are, by the only one, or by 1 |
| `CurveSorting.OneOrder` | src/cts/src/SinkClustering.cpp:104-109 | There is only one way to put every point once by position along the curve, equal ones by index |
| `CurveSorting.SortedAlongCurve` | src/cts/src/SinkClustering.cpp:90-109 | The sorted order is that one |
| `CurveSorting.AnyGridOrder` | src/cts/src/SinkClustering.cpp:90-109 | The order does not depend on how fine a grid the coordinates are seen on |
| `LeftEdge.LeftTheta` | src/cts/src/SinkClustering.cpp:127-161 | The position of the point at height 1/2^k on the left edge, for every k |
| `LeftEdge.LeftFalls` | src/cts/src/SinkClustering.cpp:127-161 | Along that edge a higher point never comes before a lower one |
| `SinkMatching.GreedySplits` | src/cts/src/SinkClustering.cpp:220-303 | The clusters are the order cut into consecutive pieces, so every point is in exactly one |
| `SinkMatching.GreedyCost` | src/cts/src/SinkClustering.cpp:273-287 | The running cost is the sum of the diameters of the closed clusters, with the default for zero |
| `SinkMatching.DiameterIsMax` | src/cts/src/SinkClustering.cpp:244-255 | The diameter bounds all pairwise distances and is one of them or zero |
| `SinkMatching.GreedyFits` | src/cts/src/SinkClustering.cpp:415-425 | By size and diameter no cluster is empty, larger than the group size or wider than the diameter |
| `SinkMatching.GreedyDrivable` | src/cts/src/SinkClustering.cpp:415-425 | By capacitance, every point after the first of a cluster was within the limit when it was added |
| `SinkMatching.GreedyWithin` | src/cts/src/SinkClustering.cpp:240-249 | By capacitance, for every point of a cluster but the first, the capacitances up to it and the wires from it to the points before add up to at most the limit |
| `SinkMatching.GreedyOverflows` | src/cts/src/SinkClustering.cpp:259-300 | A cluster is closed only by a point with which it would exceed the limit, the size or the diameter |
| `SinkMatching.EmptyCluster` | src/cts/src/SinkClustering.cpp:259-300 | A cluster is empty exactly if it is the first one and the first point exceeds the limit alone |
| `SinkMatching.PlacePoint` | src/cts/src/SinkClustering.cpp:225-300 | The parallel vectors of one lane change as one greedy clustering does, and no other lane changes |
| `SinkClusterings.FirstPass` | src/cts/src/SinkClustering.cpp:220-303 | After the first pass lane j has taken the points from place j to the end |
| `SinkClusterings.SecondPass` | src/cts/src/SinkClustering.cpp:306-365 | After the second pass every lane has taken all points, in rotated order |
| `SinkClusterings.TryIsClustering` | src/cts/src/SinkClustering.cpp:220-365 | Solution j splits the rotation by j into consecutive clusters with every point once, and costs the sum of what all but the last are charged: the largest distance in the cluster, or the default if its points are not apart |
| `SinkClusterings.TryFits` | src/cts/src/SinkClustering.cpp:415-425 | All clusters of every solution tried are within size and diameter |
| `SinkClusterings.TryWithin` | src/cts/src/SinkClustering.cpp:240-249 | By capacitance, in every solution tried each point but the first of its cluster is within the limit with those before it |
| `SinkClusterings.TryOverflows` | src/cts/src/SinkClustering.cpp:259-300 | In every solution tried, the first point of each later cluster would have been too much for the cluster before |
| `SinkClusterings.TriesAre` | src/cts/src/SinkClustering.cpp:367-383 | The solutions compared are those from place 1 on up to the group size |
| `SinkClusterings.CheapestIsFirst` | src/cts/src/SinkClustering.cpp:371-383 | Replacing only by strictly cheaper ones keeps the first of the cheapest |
| `SinkClusterings.PickBest` | src/cts/src/SinkClustering.cpp:367-383 | Over all places but the first, what is kept is the first of the cheapest of this and all earlier runs |
| `StartingPlaces.FirstIsMissed` | src/cts/src/SinkClustering.cpp:42-109 | For any group size, diameter and three points or more there are points in the plane such that, when they are normalized and taken in their order along the curve, the clustering from place 0 is cheaper than all that are tried |
| `StartingPlaces.HeightsInOrder` | src/cts/src/SinkClustering.cpp:90-109 | Points above each other at heights that fall by powers of four to the bottom are sorted from the bottom to the top |
| `StartingPlaces.FirstIsMissedIff` | src/cts/src/SinkClustering.cpp:371 | There are such points exactly if there are at least three: with two, wherever they lie, the clustering from place 0 is not the cheaper one |
| `StartingPlaces.FreeFromAnyPlace` | src/cts/src/SinkClustering.cpp:273-284 | The clustering from any place costs nothing exactly if all points are within the diameter of each other and not more than the group size |
| `SinkClusterings.SinkClustering.FindBestMatching` | src/cts/src/SinkClustering.cpp:196-413 | The stored solution stays the first of the cheapest of all tries, by capacitance or by size and diameter as the option says, and changes only if a cheaper one was found |
| `SinkClusterings.SinkClustering.Run` | src/cts/src/SinkClustering.cpp:163-194 | The reported size and diameter are those the stored solution was found with |
| `PreClustering.PreSinkClustering` | src/cts/src/HTreeBuilder.cpp:165-244 | Every cluster of several sinks gets a buffer at its centre and a leaf net with its sinks, marked as leaf on the first level only; single sinks stay |
| `PreClustering.CentreIsMiddle` | src/cts/src/HTreeBuilder.cpp:183-199 | The points of a cluster lie around its centre evenly, as much to each side |
| `PreClustering.ClusterLeaf` | src/cts/src/HTreeBuilder.cpp:174-232 | The leaf net holds the new buffer and then exactly the cluster's sinks, and is marked as leaf on the first level only |
| `PreClustering.SinksShared` | src/cts/src/HTreeBuilder.cpp:165-235 | New sinks and sinks on leaf nets together are the old sinks and the new buffers |
| `PreClustering.ReadyForTheTree` | src/cts/src/HTreeBuilder.cpp:228-235 | The new places are distinct and each stands for a sink of its own |
| `PreClustering.EverySinkOnce` | src/cts/src/HTreeBuilder.cpp:165-235 | After clustering and tree building the sinks of all nets are those from before, all clock sinks, all leaf buffers and all tree buffers but the root, each once |
| `Clusterings.FindRoom` | src/cts/src/Clustering.cpp:173-206 | A sink the flow has not placed goes to the nearest cluster with room, the first of these, or to cluster 0 if all are full |
| `Clusterings.Kmeans` | src/cts/src/Clustering.cpp:144-241 | Whatever the flow says, the rounds end with the first one in which the means have moved by less than the bound, or with round max+1, and then every sink is in the cluster it belongs to |
| `Clusterings.MembersExact` | src/cts/src/Clustering.cpp:411-422 | Each sink is in the cluster it was assigned to, in no other, and nowhere twice |
| `Clusterings.TwoClusters` | src/cts/src/Clustering.cpp:165-209 | Two clusters share the sinks out between them |
| `Branching.RefineBranchingPointsWithClustering` | src/cts/src/HTreeBuilder.cpp:1756-1821 | The two branches get the sinks of the two clusters, in order |
| `Branching.ComputeTopBranchingPoints` | src/cts/src/HTreeBuilder.cpp:1673-1696 | The first level halves all sinks, below the root, each sink going where the last round of k-means sends it under the capacity the options give |
| `Branching.ComputeBranchingPoints` | src/cts/src/HTreeBuilder.cpp:1698-1718 | Each branch above gets two branches that share its sinks out in the same way |
| `Branching.HalvesKeep` | src/cts/src/HTreeBuilder.cpp:1698-1718 | No sink is lost or doubled from one level to the next |
| `Branching.ParentHasSinks` | src/cts/src/HTreeBuilder.cpp:1911-1916 | A branch with sinks hangs below a branch with sinks |
| `BranchNets.LevelHoldsAll` | src/cts/src/HTreeBuilder.cpp:1670-1718 | Every level holds exactly the sinks there were to begin with |
| `BranchNets.StageAbove` | src/cts/src/HTreeBuilder.cpp:1936-1944 | The parent net of a non-empty branch exists, so the dereferenced pointer is never null |
| `BranchNets.StageStep` | src/cts/src/HTreeBuilder.cpp:1936-1961 | Building a branch below its parent's net keeps the tree a tree and hangs the branch at the level's depth |
| `SegmentBuilding.SegmentBuilder.Build` | src/cts/src/HTreeBuilder.cpp:2141-2209 | A branch becomes a chain of numbered buffers, as many as its segments have, ending in the driving net |
| `SegmentBuilding.SegmentBuilder.ForceBufferInSegment` | src/cts/src/HTreeBuilder.cpp:2211-2232 | A branch without buffers gets one, and one with buffers stays as it is |
| `SegmentBuilding.LinksJoin` | src/cts/src/HTreeBuilder.cpp:2148-2206 | Two chains in a row are one chain |
| `HTreeBuilding.HTreeBuilder.AddLevel` | src/cts/src/HTreeBuilder.cpp:1502-1507 | Each added level halves the level above it |
| `HTreeBuilding.HTreeBuilder.BuildTopLevel` | src/cts/src/HTreeBuilder.cpp:1851-1901 | Non-empty branches get chains below the root net, and the levels are counted once |
| `HTreeBuilding.HTreeBuilder.BuildNextLevel` | src/cts/src/HTreeBuilder.cpp:1903-1963 | Non-empty branches get chains below their parents' nets, which are always there |
| `HTreeBuilding.HTreeBuilder.AttachLeaves` | src/cts/src/HTreeBuilder.cpp:1965-1988 | Succeeds exactly if all locations are known, and then every leaf net is marked and has its sinks |
| `HTreeBuilding.HTreeBuilder.CreateClockSubNets` | src/cts/src/HTreeBuilder.cpp:1823-1988 | The result is one tree below clkbuf_0: each clustered sink and each buffer but the root is a sink of exactly one net, each buffer drives exactly one, leaf nets are marked and sit at the depth counted in treeBufLevels; it fails exactly if a location is unknown; the depth is the number of buffers on the segments of all levels, and one if the last level has none |
| `TreeGrowth.OnOneNet` | src/cts/src/HTreeBuilder.cpp:1823-1988 | In a tree of new buffers over free sinks, every sink and every buffer but the root is a sink of exactly one net, and the root reaches that net |
| `TreeGrowth.DrivesOneNet` | src/cts/src/HTreeBuilder.cpp:1823-1963 | In such a tree every new buffer drives exactly one net |
| `TreeGrowth.RootReaches` | src/cts/src/HTreeBuilder.cpp:1823-1963 | The root reaches every net of the tree |
| `TreeGrowth.OldNetHangs` | src/cts/src/HTreeBuilder.cpp:1980-1987 | A leaf net from clustering hangs in the tree once its buffer has been attached |
| `TreeGrowth.TreeIsOne` | src/cts/src/HTreeBuilder.cpp:1823-1988 | A tree of new buffers over free sinks is one tree: nothing on two nets, nothing driven twice, every net reached |
| `LeafNets.AllLeaves` | src/cts/src/HTreeBuilder.cpp:1965-1988 | When all leaves are done, exactly the sinks there were to begin with are attached, each as often as it was there |
| `BranchNets.SameInsts` | src/cts/src/HTreeBuilder.cpp:1978-1987 | Reordering locations keeps the instances they stand for |
| `BranchNets.DepthIsTotal` | src/cts/src/HTreeBuilder.cpp:1886-1949 | The depth to which the levels are built is the sum of the buffers of all their segments, and one more if the last level has none |
| `LeafNets.CompleteIsOne` | src/cts/src/HTreeBuilder.cpp:1823-1988 | The finished tree of fresh buffers is one tree, given only that the sinks were on no net before |
| `ClusterRounds.Ready` | src/cts/src/HTreeBuilder.cpp:228-235 | After clustering, the places are known and distinct, each stands for a sink of its own, and none of these sinks is on a net, as the tree builder requires |
| `ClusterRounds.TreeOverClusters` | src/cts/src/HTreeBuilder.cpp:165-235 | A tree over the places a round of clustering leaves is a tree over the sinks before it: each is a sink exactly once, and one buffer deeper exactly if it is in a cluster of several |
| `ClusterRounds.TreeOverRounds` | src/cts/src/HTreeBuilder.cpp:300-320 | The same through any number of rounds, each taking up what the one before has left |
| `ClusterRounds.AboveIs` | src/cts/src/HTreeBuilder.cpp:165-235 | Every sink is behind the buffers of the tree and at most one more for each round, and behind one for every round exactly if it is never alone in its cluster |
| `HTreeRuns.ClusterAll` | src/cts/src/HTreeBuilder.cpp:297-320 | No, one or two rounds leave places that wait for the tree; treeBufLevels counts the rounds, and the leaf buffers of a round are new to the earlier ones |
| `HTreeRuns.Run` | src/cts/src/HTreeBuilder.cpp:1166-1265 | From the sinks of a clock to its netlist, with no, one or two rounds of clustering: every sink is attached exactly once below the root, behind exactly the stated number of buffers; besides only leaf and tree buffers are sinks, once each; nets from before are untouched; and treeBufLevels is the levels of the tree and the number of rounds; the tree is as deep as its levels' segments have buffers, with the root and a forced one |
| `ClockNets.ClockSubNet.AddInst` | src/cts/src/Clock.h:104-108 | Appends the instance and maps it to the end; the map stays the inverse of the list exactly if the instance is new to the net |
| `ClockNets.ClockSubNet.FindIndex` | src/cts/src/Clock.h:110 | The index found holds the instance |
| `ClockNets.ClockSubNet.ReplaceSink` | src/cts/src/Clock.h:112-118 | The new sink takes the old one's place and nothing else moves; the map stays the inverse exactly if the new sink is not elsewhere on the net |
| `ClockNets.ClockSubNet.RemoveSinks` | src/cts/src/Clock.h:120-135 | The driver stays first, the other sinks keep their order, the given ones are gone, and the map stays the inverse |
| `ClockNets.Clock.AddSubNet` | src/cts/src/Clock.h:186-190 | Adds an empty net at the end and leaves the others alone |
| `ClockNets.WithoutDistinct` | src/cts/src/Clock.h:120-135 | What is preserved has no duplicates |
| `Netlists.LinksSinks` | src/cts/src/LevelBalancer.cpp:76-108 | A chain adds each of its buffers as a sink once |
| `Netlists.ChainSinks` | src/cts/src/LevelBalancer.cpp:57-114 | Chain and cluster add exactly the buffers and the cluster to the sinks |
| `Netlists.ChainDrivers` | src/cts/src/LevelBalancer.cpp:57-114 | Every net keeps its driver, and the buffers drive the added nets |
| `Netlists.ChainPlaces` | src/cts/src/LevelBalancer.cpp:57-114 | Behind a chain of n buffers the cluster sits n nets deeper |
| `BuilderTrees.RecordExact` | src/cts/src/LevelBalancer.cpp:34-49 | Every gated builder below the root is recorded with its depth plus one |
| `BuilderTrees.ChildDepth` | src/cts/src/LevelBalancer.cpp:31-55 | A child and its gate fit into what the parent's depth leaves |
| `BuilderTrees.DepthIsLongest` | src/cts/src/LevelBalancer.cpp:31-55 | The depth is that of some line of builders, each a child of the one before, and no line has more |
| `LevelBalancing.LevelBalancer.ComputeMaxTreeDepth` | src/cts/src/LevelBalancer.cpp:31-55 | Returns what the longest way down the builder tree takes, tree levels and one gate for each step, and records every gated builder below |
| `LevelBalancing.LevelBalancer.AddBufferLevels` | src/cts/src/LevelBalancer.cpp:57-114 | The cluster ends behind exactly the given number of new, consecutively named buffers below the driver net; the net of the cluster is marked as leaf and the driver net no longer, and nothing else of the netlist changes |
| `LevelBalancing.LevelBalancer.GroupSinks` | src/cts/src/LevelBalancer.cpp:134-147 | Sorts exactly the real sinks of a net by level, in order |
| `LevelBalancing.LevelBalancer.FixNet` | src/cts/src/LevelBalancer.cpp:133-181 | Takes one net from untouched to finished, with all its sinks on their levels |
| `LevelBalancing.LevelBalancer.FixTreeLevels` | src/cts/src/LevelBalancer.cpp:116-182 | Given parentDepth plus depth equals the target, which every recursive call keeps, everything below ends at the target level, no sink is lost, and clocks outside are untouched |
| `LevelBalancing.LevelBalancer.Run` | src/cts/src/LevelBalancer.cpp:22-29 | After a run every sink of the tree is on one level, that of the longest way down the builders, all sinks are conserved, and the added buffers are new to their clocks |
| `LevelNets.LevelWaits` | src/cts/src/LevelBalancer.cpp:156-158 | The level of a cluster never exceeds the target, so the subtraction does not underflow |
| `LevelStates.NextJob` | src/cts/src/LevelBalancer.cpp:173-178 | The recursive call for a gater is again one with parentDepth plus depth equal to the target |
| `LevelAccounting.GroupSplit` | src/cts/src/LevelBalancer.cpp:136-147 | Taking one level out of the groups leaves the sinks of the others |
| `LevelAccounting.StripAccounted` | src/cts/src/LevelBalancer.cpp:153-154 | Sinks taken off a net are accounted for until they are put back |
| `LevelAccounting.ChainAccounted` | src/cts/src/LevelBalancer.cpp:170 | Putting a cluster back behind buffers keeps drivers, tree buffers and the count of all sinks |
| `LevelResults.AllOnOneLevel` | src/cts/src/LevelBalancer.cpp:22-29 | Every non-gater sink of every builder can be reached, and tree levels, inserted buffers and gates on the way add up to what the longest way down the builders takes |
| `LevelResults.LevelIsUnique` | src/cts/src/LevelBalancer.cpp:116-182 | If no clock had a sink twice before a run, the way to a sink is the only one, so its level is well-defined |
| `LevelResults.SimpleKept` | src/cts/src/LevelBalancer.cpp:116-182 | If no instance was a sink twice before a run, none is after, and each sink there was is still one exactly once |
| `LevelNames.StampNamesDiffer` | src/cts/src/LevelBalancer.cpp:89-102 | With a rising counter and a cluster number that does not fall, names differ |
| `LevelNames.JoinIsAmbiguous` | src/cts/src/LevelBalancer.cpp:89-91 | Without that order two different buffers could get one name |
| `LevelStates.StampedDiffer` | src/cts/src/LevelBalancer.cpp:152-161 | All level buffers a builder has got have different names |
| `DisjointSets.LinkKeeps` | src/ant/src/AntennaChecker.cc:288-290 | Union by rank keeps parents and ranks a forest |
| `DisjointSets.CompressKeeps` | src/ant/src/AntennaChecker.cc:288 | Path compression keeps the forest and its roots |
| `DisjointSets.DisjointSetForest.FindSet` | src/ant/src/AntennaChecker.cc:288 | Returns the representative, which compression does not change, and terminates |
| `DisjointSets.DisjointSetForest.UnionSet` | src/ant/src/AntennaChecker.cc:289 | Merges exactly the two sets |
| `Connectivity.PathLinked` | src/ant/src/AntennaChecker.cc:278-293 | The ends of a path are connected edge by edge |
| `Connectivity.LinkedPath` | src/ant/src/AntennaChecker.cc:278-293 | What is connected edge by edge is joined by a path |
| `AntennaGates.JoinLayer` | src/ant/src/AntennaChecker.cc:278-293 | After a layer, two nodes are in one set exactly if the edges of this and lower layers connect them |
| `AntennaGates.CollectGates` | src/ant/src/AntennaChecker.cc:294-305 | A node gets exactly the pins with a connected neighbour |
| `AntennaGates.SaveGates` | src/ant/src/AntennaChecker.cc:264-308 | Each node of each layer gets exactly the pins connected by metal from the first routing layer up to its own |
| `AntennaGates.GateIffPath` | src/ant/src/AntennaChecker.cc:264-308 | A pin is a gate of a node exactly if a path leads from the node to a neighbour of the pin, from polygon to polygon of which one, on a layer from the first routing layer up to the node's, lists the other below it |
| `AntennaGates.LowerGatesContained` | src/ant/src/AntennaChecker.cc:285-291 | A node's gates contain those of every adjacent lower node |
| `PinHierarchy.Hierarchy.ReachesBack` | src/dbSta/src/dbNetwork.cc:1753-1790 | With matching ports, connection across modules works both ways |
| `ConnectedPins.VisitConnectedPins` | src/dbSta/src/dbNetwork.cc:1719-1801 | Terminates, expands every net at most once, and reports exactly the pins of the nets it has added |
| `ConnectedPins.AllConnectedPins` | src/dbSta/src/dbNetwork.cc:1719-1801 | From a fresh start, exactly the pins are reported that the net is connected to, each net expanded once |
| `PinRoutes.ReportedIffConnected` | src/dbSta/src/dbNetwork.cc:1719-1801 | A pin is reported exactly if it is listed by a net, or across the module boundary from a pin listed by it, to which a route of nets leads that meet at ports of module instances |
| `ConnectedPins.WholeComponent` | src/dbSta/src/dbNetwork.cc:1719-1801 | A finished visit has visited exactly the nets reached |
| `ConnectedPins.SamePinsFromAnyStart` | src/dbSta/src/dbNetwork.cc:1719-1801 | Any net of a component leads to the same pins |
| `DeltaBlocks.BlockFits` | etc/deltaDebug.py:394-396 | No block is empty, and blocks lie within the list |
| `DeltaBlocks.BlocksEven` | etc/deltaDebug.py:394-396 | The blocks begin and end with the list, and their sizes differ by at most one |
| `DeltaBlocks.EnoughLeft` | etc/deltaDebug.py:374-396 | With fewer blocks than elements, cutting any block but the last leaves at least one element per block |
| `DeltaDebugging.CutShrinks` | etc/deltaDebug.py:380-404 | A cut takes something away and keeps the order of the rest |
| `DeltaDebugging.MoreToTry` | etc/deltaDebug.py:190-202 | Exactly when the loop over blocks goes on after an error-free step |
| `DeltaDebugging.TriesAllBlocks` | etc/deltaDebug.py:190-202 | Without errors the loop goes on after every block but the last exactly if there is one element or more elements than blocks |
| `DeltaDebugging.SecondOfTwoUntried` | etc/deltaDebug.py:190-202 | Of two elements and two blocks the second is never cut |
| `DeltaDebugging.DeltaDebugger.TryCut` | etc/deltaDebug.py:192-201 | A step stops exactly at an empty list; otherwise it runs the cut database, which replaces the database exactly if the error shows, and the log of steps grows by this one |
| `DeltaDebugging.DeltaDebugger.Pass` | etc/deltaDebug.py:189-202 | A pass ends; either something is gone with the error observed, or nothing changed, each block it tries has been cut in a step of the log that ran that very database without error, and there was one step per such block |
| `DeltaDebugging.DeltaDebugger.Search` | etc/deltaDebug.py:182-212 | Passes of changing granularity end by elements left and granularity; without errors all granularities are passed, every block tried having been run without error in a step of the log; only the level's own elements get fewer |
| `DeltaDebugging.DeltaDebugger.Reduce` | etc/deltaDebug.py:182-215 | Ends with every granularity passed without error, as steps of the log show, at most one element, or the empty-list assertion; the elements of the other level stay as they are |
| `DeltaDebugging.DeltaDebugger.Debug` | etc/deltaDebug.py:156-215 | First instances are reduced with all nets in place, then nets with the instances left, which the log shows at the point in between; the database is always the original or a sub-collection that a step of the log has run and found the error on; the outcome says which of the three ends was met |
| `DeltaDebugging.DeltaDebugger.OneMinimalButLast` | etc/deltaDebug.py:188-207 | Once single elements are cut without error, for any one but the last the log has a step that ran the database without it, and without error |

## Left out

- All database, timing, Liberty, Tcl, graphics, logging and file output; nets, pins, masters and instances have no content beyond what is listed above.
- Floating-point rounding: coordinates, capacitances, power and delays are real numbers or whole numbers, and `std::pow` on whole numbers is exact.
- Widths of `unsigned` and `int` counters, except for the 8-bit fields of wire segments and the largest `unsigned` used as "no segment"; a tree deep or large enough to wrap them is not modelled.
- Look-up table values above 255: `LutCompiler` truncates them to 8 bits as the constructor does, and the index is stated for 8-bit fields; `createFakeEntries` with a fake length above 255 is not modelled.
- Text of pattern descriptors: wires are kept as numbers of nodes instead of decimal lengths in database units, and wire and master entries are told apart by constructor instead of by looking names up; a master named like a number is not modelled.
- `characterizationPostProcess`, the selection of at most three results per key and their normalization of capacitances and slews; `LutCompiler` starts from the finished result lines, and `actualMinInputCap_` is not kept.
- Coordinates of buffers and branching points, the legalizer and its location map, and which master a tree buffer gets.
- How many levels an H-tree gets and how long they are: `LevelTiling.ComputeLevels` takes the lengths as given, and the table does not change while the levels are computed, although `createFakeEntries` may add to it between two of them.
- HTreeRuns.Run: takes the clusters of each round as given, each sink in exactly one (`SinkClusterings.TryIsClustering`), and the wire segments of the levels as they come from `LevelTiling`; when a second round is run (more than 400 places) is a choice of the caller.
- `createSingleBufferClockNet`, macro trees joined to register trees, and the sets of tree and leaf buffers that later steps read.
- Min-cost flow, the moving of means and the silhouette value in k-means: for each round the flow's answer, the distances and the movement are arbitrary.
- Two sinks, or a sink and a cluster centre, at one location: `PreClustering.Apart` and `HTreeBuilding.Injective` exclude them, because the location map could not tell them apart; the error for a sink that is not found before clustering cannot occur then.
- `std::sort` and `std::unique` are functions on values (`AxisValues.Sort`, `AxisValues.Unique`, `CurveSorting.Sorted`); `SinkClusterings.SinkClustering` takes the sorted order as a sequence. Normalizing an empty list of points, which is never clustered, is not modelled.
- `Clock::mapNameToInst_` and look-up by name.
- Builder trees are values with clock objects at their nodes: a builder's list of children and its driver do not change during balancing, so aliasing between builders is excluded by `BuilderTrees.ClocksDiffer`.
- LevelBalancing.LevelBalancer.Run: requires that each gate drives at most one builder, is a sink of that builder's parent, and occurs there once (`GatedTrees.InPlace`, `BuilderTrees.DriversDiffer`); trees built otherwise are not covered.
- SinkClusterings.SinkClustering.FindBestMatching: requires a group size of at most the number of points; the source indexes its vectors by it.
- StartingPlaces.FirstIsMissedIff: speaks of the size and diameter mode, of sinks without insertion delays, and of coordinates that are multiples of some power of one half once normalized, as floating-point numbers are.
- LevelBalancing.LevelBalancer.AddBufferLevels: the marks of the nets between driver and cluster, which are new and never marked, are not stated.
- SinkMatching.GreedyFits: speaks of the size and diameter mode; for the capacitance mode `SinkMatching.GreedyDrivable` and `SinkMatching.EmptyCluster` say what holds instead.
- LevelTiling.ComputeLevelTopology: comparisons of a signed vertex-buffer length with the unsigned segment length are those of whole numbers.
- Polygon intersection and `buildLayerMaps`: adjacency of nodes and neighbours of pins are given; boost's disjoint sets are modelled directly, with union by rank and full path compression.
- ConnectedPins.VisitConnectedPins: requires that every instance pin on a net has its port, as uniquified hierarchies have; a port that is missing would be dereferenced by the source.
- `getParentHierarchy`, `findHighestCommonModule` and `hierarchicalConnect` of the network.
- Time limits, processes, files and unused masters in the delta debugger: whether the error shows on a step is an arbitrary function of the step number and the database, and removing an instance or net removes nothing else.
