# RapidWright global-signal routing helpers, in Dafny

This project models four parts of RapidWright, the Java FPGA implementation framework. Each part is modelled in Dafny and proved against its own contracts.

1. **`GlobalSignalRouting`.** This part routes static nets and provides the clock-tree helpers.
   - **Static nets.** `routeStaticNet` routes every input sink of a VCC or GND net with a backward breadth-first search.
     - It starts at the sink's connected node and goes over uphill nodes.
     - It stops at the first node that can serve as the net's source. That is either a rail wire of the net's kind, a LUT output whose site wire is free or already carries the same kind of net, or a node already on one of this net's routes.
     - It keeps a 10000-step watchdog, a wrapper cache with one `RoutingNode` per node, and `prev` back-pointers.
   - **Clock helpers.**
     - `getClockRegionsOfNet` collects the clock regions of a net's input pins.
     - `upDownClockRegions` splits regions at the centroid's row.
     - `getLCBPinMappings` groups sink pins by leaf clock buffer.
     - `getDominateClockRegion`, `getStartingPoint`, `getListOfNodesFromRoutes`, `routeCentroidToHorDistributionLines` and `setBUFCERowLeafTap` are the other helpers.
     - The final PIP deduplication of every clock router is modelled too.
2. **`ClkSkewsAndRouteDelays`.** This is the reader of the clock skew/route/delay template.
   - It reads three sections, `skew`, `route` and `delay`, from one shared reader.
   - Records are split on whitespace as `String.split("\\s+")` splits them.
   - Numbers are parsed as Java shorts.
3. **`PartialRouter2`.** These are the rules that decide which nets keep their routing and which are routed again:
   - the constructor's conflict-net filter;
   - the clock-net, static-net and wire-net routing-target overrides.
4. **`EquivalentEDIF`.** This is the text comparison of two EDIF files.
   - Lines holding `(metax` or `(timeStamp` are dropped.
   - Both line lists are sorted and compared element by element.

## How the model is built

- The device is a value of type `Devices.Device` whose fields are functions:
  - uphill nodes, route-thru arcs, intent codes, tiles, wire names, the site instance of a node's slice, and the PIPs of a reversed node list.
  - Clock-region lookups form `ClockRouting.ClockFabric`.
  - Lookups into the device and design (`Node.getNode`, `Device.getSite`, `Tile.getClockRegion`, `RouterHelper.getPIPsFromListOfReversedNodes`) are these function fields.
- Code that updates state keeps the form of the source:
  - The wrapper cache of `routeStaticNet` is the class `StaticRouting.GlobalSignalRouting`, with a `prev` map.
  - The static `upClockRegions`/`downClockRegions` lists are fields of `ClockRouting.ClockRegionGroups`.
  - A clock net's PIPs and buffer delays are fields of `ClockRouting.ClockNet`.
  - The file reader is the class `SkewRouteDelay.LineReader`, and the three tables are fields of `SkewRouteDelay.ClkSkewsAndRouteDelays`.
  - The partial router is the class `PartialRouting.PartialRouter2`. It keeps a log of the calls it makes and its four counters.
- The loops are `while`/`for` loops. Each one is proved against a function that specifies it.
- Iteration over a `HashMap`'s key set uses an arbitrary choice (`:|`). Each contract states only what holds for every iteration order.
- **Path order in `routeStaticNet`.** The trace-back collects nodes from the source back to the sink's node and then reverses the list. The stored path therefore starts at the sink's connected node and ends at the source. The model follows that code. A path "from the source to the sink" describes the reverse list, not the one the code stores.

## Model

| member | source | states |
|---|---|---|
| Devices.LutOutputPinNamesShape | src/com/xilinx/rapidwright/rwroute/GlobalSignalRouting.java:629-637 | the LUT output names are exactly the 16 names `CLE_CLE_{L,M}_SITE_0_{A..H}_O` |
| Devices.LutOutputLetter | src/com/xilinx/rapidwright/rwroute/GlobalSignalRouting.java:788-792 | in a LUT output name, the third character from the end is the LUT letter (A to H) |
| Devices.RailName | src/com/xilinx/rapidwright/rwroute/GlobalSignalRouting.java:785 | the prefix is the VCC wire name exactly for a VCC net, and otherwise the GND wire name |
| Devices.OtherWiresUnusable | src/com/xilinx/rapidwright/rwroute/GlobalSignalRouting.java:786-798 | a wire that is neither a rail wire of the net's kind nor a LUT output is never a static source |
| Devices.LutOutputUsable | src/com/xilinx/rapidwright/rwroute/GlobalSignalRouting.java:788-796 | a LUT output is a usable source iff its slice is unused, or the `<letter>_O` site wire has no net or a net of the same type |
| Devices.UnusedLutServesBoth | src/com/xilinx/rapidwright/rwroute/GlobalSignalRouting.java:789-791 | a LUT output of an unused slice is a source for both VCC and GND |
| Devices.DrivenLutKeepsItsKind | src/com/xilinx/rapidwright/rwroute/GlobalSignalRouting.java:793-796 | a LUT output whose site wire carries VCC is a VCC source and not a GND source |
| Devices.UsableStaticSource | src/com/xilinx/rapidwright/rwroute/GlobalSignalRouting.java:779-799 | a rail wire of the net's kind is always usable, and every usable source is such a rail wire or a LUT output |
| Devices.IsOurStaticSource | src/com/xilinx/rapidwright/rwroute/GlobalSignalRouting.java:765-770 | a node is our static source only when it is on the net's routes already, a rail wire of the net's kind or a LUT output |
| Devices.PrunedStaysPruned | src/com/xilinx/rapidwright/rwroute/GlobalSignalRouting.java:739-757 | `pruneNode` prunes every visited node and every node of one of the eight global-clock or long-wire intents, and a pruned node stays pruned as the visited and unavailable sets grow |
| StaticRouting.Enqueued | src/com/xilinx/rapidwright/rwroute/GlobalSignalRouting.java:703-711 | filtering the uphill list never makes it longer (`EnqueuedMembers` states which nodes it keeps) |
| StaticRouting.EnqueuedMembers | src/com/xilinx/rapidwright/rwroute/GlobalSignalRouting.java:703-757 | a node is enqueued iff it is uphill, the arc is not a route-thru, and `pruneNode` keeps the node (not a pruned intent, not unavailable, not visited) |
| StaticRouting.EnqueuedIsArc | src/com/xilinx/rapidwright/rwroute/GlobalSignalRouting.java:703-711 | an enqueued node is reached along a usable arc and was not visited |
| StaticRouting.GlobalSignalRouting.CreateRoutingNode | src/com/xilinx/rapidwright/rwroute/GlobalSignalRouting.java:669 | the cache gains a wrapper for the node only if it has none; existing wrappers and their `prev` are kept |
| StaticRouting.GlobalSignalRouting.Expand | src/com/xilinx/rapidwright/rwroute/GlobalSignalRouting.java:703-711 | the queue grows by exactly the enqueued uphill nodes, in order; every non-route-thru uphill node gets a wrapper; only enqueued nodes are re-pointed at the dequeued node |
| StaticRouting.GlobalSignalRouting.TraceBack | src/com/xilinx/rapidwright/rwroute/GlobalSignalRouting.java:684-691 | following `prev` from a dequeued node ends at the sink's node; the reversed list is a repeat-free path of arcs from the seed to that node; every node on it joins the used set |
| StaticRouting.GlobalSignalRouting.SearchSink | src/com/xilinx/rapidwright/rwroute/GlobalSignalRouting.java:658-716 | the search finds a path exactly when `SearchRun` meets a source, and makes exactly `SearchRun`'s number of expansions (at most 10001); on success the path starts at the sink's node, follows uphill arcs, ends at the node `SearchRun` meets, which is our static source, and its nodes are added to the used set; on failure the used set is unchanged, and a failure within the 10000-expansion budget means no route from the sink reaches any of our static sources |
| StaticRouting.GlobalSignalRouting.RouteStaticNet | src/com/xilinx/rapidwright/rwroute/GlobalSignalRouting.java:645-730 | only input pins get paths; the routed sinks are exactly the keys of the returned map; each path is a route from its sink; each path ends at a usable source or at a node of an earlier path, with no earlier node of it on such a path; every input pin has a path exactly when its search run, with the nodes of the earlier pins' paths as extra sources, meets a source, the path ends at that node, and a pin without a path whose run stayed within the budget has no route to any such source; the net's PIPs are the union over the found paths only |
| StaticRouting.GlobalSignalRouting.RoutePin | src/com/xilinx/rapidwright/rwroute/GlobalSignalRouting.java:658-721 | one pass of the pin loop keeps the routing state: the routes so far, and for every input pin up to `i` an outcome equal to its search run with the earlier pins' paths as extra sources; the map gains at most pin `i` |
| StaticRouting.GlobalSignalRouting.NetPips | src/com/xilinx/rapidwright/rwroute/GlobalSignalRouting.java:723-728 | the net's PIPs are exactly the PIPs of the routes of the pins before the bound |
| StaticRouting.GlobalSignalRouting.ExpandUphill | src/com/xilinx/rapidwright/rwroute/GlobalSignalRouting.java:703-711 | one uphill node: a wrapper unless the arc is a route-thru, re-pointed at the dequeued node and enqueued exactly when `pruneNode` keeps it |
| StaticRouting.GlobalSignalRouting.ExpandVisited | src/com/xilinx/rapidwright/rwroute/GlobalSignalRouting.java:700-711 | expanding a dequeued non-source keeps the search tree, keeps every queued node reachable, and leaves every arc out of a visited node ending at a visited or queued node |
| StaticRouting.GlobalSignalRouting.TraceBackToSource | src/com/xilinx/rapidwright/rwroute/GlobalSignalRouting.java:677-698 | tracing back from the first dequeued source yields a route from the sink to our static source, and the used set gains exactly its nodes |
| StaticRouting.DequeueKeepsCover | src/com/xilinx/rapidwright/rwroute/GlobalSignalRouting.java:674-675 | dequeuing keeps every arc out of an expanded node ending at a visited or queued node |
| StaticRouting.ExpandKeepsCover | src/com/xilinx/rapidwright/rwroute/GlobalSignalRouting.java:703-711 | after expanding a node, each of its usable uphill nodes is visited or queued |
| StaticRouting.RouteInVisited | src/com/xilinx/rapidwright/rwroute/GlobalSignalRouting.java:672-716 | when the queue is empty, every route from the sink runs through visited nodes only |
| StaticRouting.NoSourceRouteLeft | src/com/xilinx/rapidwright/rwroute/GlobalSignalRouting.java:672-716 | a search that empties its queue without meeting a source leaves no route from the sink to any of our static sources |
| StaticRouting.UsedIsUsedBefore | src/com/xilinx/rapidwright/rwroute/GlobalSignalRouting.java:685-692 | before pin `i`, the used nodes are exactly the nodes of the earlier pins' routes |
| StaticRouting.FoundPin | src/com/xilinx/rapidwright/rwroute/GlobalSignalRouting.java:678-692 | a path recorded for pin `i` at the node its run meets explains pin `i` and keeps every earlier pin explained |
| StaticRouting.FailedPin | src/com/xilinx/rapidwright/rwroute/GlobalSignalRouting.java:712-718 | a pin whose run meets no source, and that has no route when the run stayed within budget, is explained without a path |
| StaticRouting.RouteFoundPin | src/com/xilinx/rapidwright/rwroute/GlobalSignalRouting.java:678-692 | recording the path found for pin `i` keeps the routing state, one pin further |
| StaticRouting.RouteFailedPin | src/com/xilinx/rapidwright/rwroute/GlobalSignalRouting.java:712-718 | a failed search for pin `i` keeps the routing state, one pin further, with the routes unchanged |
| StaticRouting.PinStaysExplained | src/com/xilinx/rapidwright/rwroute/GlobalSignalRouting.java:685-692 | recording pin `i`'s path does not change the search run or the outcome of any earlier pin |
| StaticRouting.UsedBeforeAdd | src/com/xilinx/rapidwright/rwroute/GlobalSignalRouting.java:685 | the extra sources a pin up to `i` searches with do not include pin `i`'s own path |
| StaticRouting.RouteAvoidsPruned | src/com/xilinx/rapidwright/rwroute/GlobalSignalRouting.java:703-757 | every node of a route after the sink's own node has an intent `pruneNode` keeps and is not unavailable |
| StaticRouting.SearchRun | src/com/xilinx/rapidwright/rwroute/GlobalSignalRouting.java:672-716 | the search makes at most one more expansion than its watchdog allows, and a node it meets is our static source |
| StaticRouting.SearchRunMeetsSource | src/com/xilinx/rapidwright/rwroute/GlobalSignalRouting.java:678-698 | a search whose next dequeued node is our static source ends there without expanding |
| StaticRouting.SearchRunGivesUp | src/com/xilinx/rapidwright/rwroute/GlobalSignalRouting.java:712-715 | with the watchdog at zero, a search whose next node is no source expands it and gives up |
| StaticRouting.SearchRunExpands | src/com/xilinx/rapidwright/rwroute/GlobalSignalRouting.java:703-715 | otherwise the search outcome is that of the search after expanding the next node, with one expansion more |
| StaticRouting.GlobalSignalRouting.SearchPass | src/com/xilinx/rapidwright/rwroute/GlobalSignalRouting.java:673-711 | one pass of the search loop: it marks the dequeued node visited, traces back a route exactly when that node is our static source, and otherwise leaves the queue extended by its enqueued uphill nodes with the search invariant kept |
| StaticRouting.AddRouteKeepsFailures | src/com/xilinx/rapidwright/rwroute/GlobalSignalRouting.java:692 | recording pin `i`'s route does not change which sources the earlier pins could have reached |
| StaticRouting.ChainExtend | src/com/xilinx/rapidwright/rwroute/GlobalSignalRouting.java:684-690 | one more trace-back step keeps the chain of earlier-dequeued nodes linked by arcs |
| StaticRouting.ChainRanksFall | src/com/xilinx/rapidwright/rwroute/GlobalSignalRouting.java:684-755 | along a trace-back chain the dequeue ranks strictly fall, so the chain repeats no node and the loop ends |
| StaticRouting.ChainReversed | src/com/xilinx/rapidwright/rwroute/GlobalSignalRouting.java:691 | the reversed chain is a route from the seed with the same nodes |
| StaticRouting.TracedToSource | src/com/xilinx/rapidwright/rwroute/GlobalSignalRouting.java:674-698 | a traced route whose earlier nodes were dequeued and rejected ends at the first node accepted as our source |
| StaticRouting.DequeueKeepsSearch | src/com/xilinx/rapidwright/rwroute/GlobalSignalRouting.java:674-708 | dequeuing a node keeps the search invariant: every visited node's `prev` chain leads through earlier-dequeued nodes to the seed, whose `prev` is null |
| StaticRouting.DequeueKeepsTree | src/com/xilinx/rapidwright/rwroute/GlobalSignalRouting.java:670-675 | the visited set with the newly dequeued node still forms the search tree |
| StaticRouting.DequeueKeepsQueue | src/com/xilinx/rapidwright/rwroute/GlobalSignalRouting.java:674-675 | the queue that remains still only holds nodes whose `prev` is a visited node |
| StaticRouting.ExpandKeepsTree | src/com/xilinx/rapidwright/rwroute/GlobalSignalRouting.java:707-755 | re-pointing enqueued nodes never changes the `prev` of a visited node |
| StaticRouting.ExpandKeepsQueue | src/com/xilinx/rapidwright/rwroute/GlobalSignalRouting.java:703-711 | after an expansion every queued node is still reached along an arc from a visited node |
| StaticRouting.RoutesSoFarNext | src/com/xilinx/rapidwright/rwroute/GlobalSignalRouting.java:658-718 | an output pin or a failed sink leaves the routes and the used set unchanged |
| StaticRouting.AddRoute | src/com/xilinx/rapidwright/rwroute/GlobalSignalRouting.java:685-692 | recording a found path keeps every route invariant of the net |
| StaticRouting.AddRouteKeepsRoutes | src/com/xilinx/rapidwright/rwroute/GlobalSignalRouting.java:692 | after recording, every key is a pin already handled and each stored path is a route from its pin |
| StaticRouting.AddRouteUsed | src/com/xilinx/rapidwright/rwroute/GlobalSignalRouting.java:685 | the used set stays exactly the nodes on the recorded paths |
| StaticRouting.AddRouteKeepsSharing | src/com/xilinx/rapidwright/rwroute/GlobalSignalRouting.java:678-767 | a later sink's path meets earlier paths only at its last node, and ends at a usable source or at an earlier path |
| Sequences.Reverse | src/com/xilinx/rapidwright/rwroute/GlobalSignalRouting.java:691 | `Collections.reverse`: the same length, with element `i` taken from position `n-1-i` |
| Sequences.ReverseSameElements | src/com/xilinx/rapidwright/rwroute/GlobalSignalRouting.java:325-326 | reversing keeps the multiset of elements |
| Sequences.FirstIndex | src/com/xilinx/rapidwright/rwroute/GlobalSignalRouting.java:524 | the position of the first occurrence |
| Sequences.DedupSameElements | src/com/xilinx/rapidwright/rwroute/GlobalSignalRouting.java:518-527 | deduplication keeps exactly the elements |
| Sequences.DedupDistinct | src/com/xilinx/rapidwright/rwroute/GlobalSignalRouting.java:518-527 | deduplication leaves no repeats |
| Sequences.DedupOfDistinct | src/com/xilinx/rapidwright/rwroute/GlobalSignalRouting.java:518-527 | a list with no repeats is unchanged by deduplication |
| Sequences.DedupIdempotent | src/com/xilinx/rapidwright/rwroute/GlobalSignalRouting.java:518-527 | deduplicating twice is deduplicating once |
| Sequences.DedupFirstSeenOrder | src/com/xilinx/rapidwright/rwroute/GlobalSignalRouting.java:518-527 | the deduplicated list keeps the order of first occurrence |
| Sequences.FirstIndexOfPrefix | src/com/xilinx/rapidwright/rwroute/GlobalSignalRouting.java:524 | appending does not move an element's first occurrence |
| ClockRouting.InputPinRegionsMembers | src/com/xilinx/rapidwright/rwroute/GlobalSignalRouting.java:518-527 | the collected regions are exactly those of the input pins' tiles |
| ClockRouting.ClockRegionsOfNet | src/com/xilinx/rapidwright/rwroute/GlobalSignalRouting.java:518-527 | the regions of the input pins, without repeats, in first-seen order, and each such region is present |
| ClockRouting.UpDownPartition | src/com/xilinx/rapidwright/rwroute/GlobalSignalRouting.java:556-566 | each region goes to exactly one list: up when its row is at or above the centroid's row, down otherwise; together the lists hold the input |
| ClockRouting.ClockRegionGroups.UpDownClockRegions | src/com/xilinx/rapidwright/rwroute/GlobalSignalRouting.java:556-566 | the up and down lists are extended by the filtered regions in input order and are never cleared, so they accumulate across calls |
| ClockRouting.FirstLeafMeaning | src/com/xilinx/rapidwright/rwroute/GlobalSignalRouting.java:580-585 | the inner search finds the first NODE_GLOBAL_LEAF uphill node, and fails only when there is none |
| ClockRouting.LeafViaNone | src/com/xilinx/rapidwright/rwroute/GlobalSignalRouting.java:577-587 | a pin has no leaf buffer iff no uphill middle node in its INT tile has a leaf node uphill |
| ClockRouting.LeafViaSome | src/com/xilinx/rapidwright/rwroute/GlobalSignalRouting.java:577-587 | the leaf buffer comes from the last middle node in the INT tile that has one |
| ClockRouting.LeafIsTwoHopsUp | src/com/xilinx/rapidwright/rwroute/GlobalSignalRouting.java:577-587 | the leaf buffer is a NODE_GLOBAL_LEAF node two uphill hops away, through a node in the pin's INT tile |
| ClockRouting.FindFirstLeaf | src/com/xilinx/rapidwright/rwroute/GlobalSignalRouting.java:580-585 | the loop with `break` returns the first leaf node uphill of a middle node |
| ClockRouting.FindLeafBuffer | src/com/xilinx/rapidwright/rwroute/GlobalSignalRouting.java:577-590 | the nested loops return the pin's leaf buffer |
| ClockRouting.LcbPinMappings | src/com/xilinx/rapidwright/rwroute/GlobalSignalRouting.java:573-600 | the method builds the leaf-buffer mapping pin by pin, and stops at the first input pin without a leaf buffer |
| ClockRouting.LcbGroupsErrorSticks | src/com/xilinx/rapidwright/rwroute/GlobalSignalRouting.java:589-590 | once a pin has failed, later pins do not change the outcome |
| ClockRouting.LcbGroupsError | src/com/xilinx/rapidwright/rwroute/GlobalSignalRouting.java:575-590 | the mapping fails iff some input pin has no leaf buffer, and the error is the first such pin |
| ClockRouting.LcbGroupsLists | src/com/xilinx/rapidwright/rwroute/GlobalSignalRouting.java:573-600 | the keys are exactly the input pins' leaf buffers; each list holds the input pins of that leaf, in order |
| ClockRouting.PinsOfLeafEmpty | src/com/xilinx/rapidwright/rwroute/GlobalSignalRouting.java:573-600 | a leaf that no input pin maps to has an empty list |
| ClockRouting.PinsOfLeafMembers | src/com/xilinx/rapidwright/rwroute/GlobalSignalRouting.java:573-600 | a leaf's list holds exactly the input pins with that leaf |
| ClockRouting.EveryPinInOneList | src/com/xilinx/rapidwright/rwroute/GlobalSignalRouting.java:573-600 | on success every input pin lies in exactly one list, the one of its own leaf buffer |
| ClockRouting.RegionNamesEmpty | src/com/xilinx/rapidwright/rwroute/GlobalSignalRouting.java:179-183 | there are no region names iff no wire of the node lies in a clock region |
| ClockRouting.CountRegions | src/com/xilinx/rapidwright/rwroute/GlobalSignalRouting.java:178-191 | the counts are keyed by exactly the region names, and each count is the number of wires in that region |
| ClockRouting.DominateClockRegion | src/com/xilinx/rapidwright/rwroute/GlobalSignalRouting.java:173-203 | null iff no wire has a region; otherwise some region name of maximal count |
| ClockRouting.GroupedByRegionAdd | src/com/xilinx/rapidwright/rwroute/GlobalSignalRouting.java:161-169 | adding one line to its region's set keeps the grouping correct for the names handled so far |
| ClockRouting.StartingPoint | src/com/xilinx/rapidwright/rwroute/GlobalSignalRouting.java:159-171 | the keys are exactly the regions named by the lines; each region holds exactly the lines whose names map to it |
| ClockRouting.ResolveMembers | src/com/xilinx/rapidwright/rwroute/GlobalSignalRouting.java:347-355 | resolved nodes are exactly those of the names that resolve; no node is made up |
| ClockRouting.ResolveAllFound | src/com/xilinx/rapidwright/rwroute/GlobalSignalRouting.java:347-355 | when every name resolves, the nodes are in name order, one per name |
| ClockRouting.ResolveNames | src/com/xilinx/rapidwright/rwroute/GlobalSignalRouting.java:347-355 | the inner loop keeps the resolved nodes in order and drops the names that do not resolve |
| ClockRouting.ListOfNodesFromRoutes | src/com/xilinx/rapidwright/rwroute/GlobalSignalRouting.java:344-360 | the same keys as the routes; each value is the resolved node list |
| ClockRouting.ClockNet.RemoveDuplicatePips | src/com/xilinx/rapidwright/rwroute/GlobalSignalRouting.java:149-151 | the net's PIPs have no repeats and are the same set as before; delays are untouched (the same step is at 269-271, 427-430 and 502-505) |
| ClockRouting.RouteCentroidToHorDistributionLines | src/com/xilinx/rapidwright/rwroute/GlobalSignalRouting.java:321-336 | the PIPs of every reversed path are added to the net before the intent check; exactly the paths whose new first node is NODE_GLOBAL_HDISTR are in the result, mapped to that node; an empty path fails |
| ClockRouting.RowTapStep | src/com/xilinx/rapidwright/rwroute/GlobalSignalRouting.java:291-296 | setting one row buffer's delay to its first tap keeps the delay assignment correct |
| ClockRouting.LeafTapStep | src/com/xilinx/rapidwright/rwroute/GlobalSignalRouting.java:298-312 | handling one PIP keeps the assignment correct: a leaf-tap PIP's site gets the second tap of its region when the table has that region |
| ClockRouting.LeafSitesGrow | src/com/xilinx/rapidwright/rwroute/GlobalSignalRouting.java:298-310 | the leaf sites after one more PIP are the earlier ones plus that PIP's site when it is a leaf tap of a known region |
| ClockRouting.FindRegionTaps | src/com/xilinx/rapidwright/rwroute/GlobalSignalRouting.java:302-307 | no taps iff no key has the region; otherwise the taps of a key with that region |
| ClockRouting.SetRowTaps | src/com/xilinx/rapidwright/rwroute/GlobalSignalRouting.java:290-296 | every row buffer site gets its first tap, and no other site changes |
| ClockRouting.SetBufceRowLeafTap | src/com/xilinx/rapidwright/rwroute/GlobalSignalRouting.java:287-319 | an empty table changes nothing; otherwise leaf sites get the second tap of their region, other row sites their first tap, and all other delays and the PIPs are unchanged |
| SkewRouteDelay.NoSpaceAt | src/com/xilinx/rapidwright/timing/ClkSkewsAndRouteDelays.java:130 | a whitespace-free token has no whitespace at any index |
| SkewRouteDelay.DropSpaces | src/com/xilinx/rapidwright/timing/ClkSkewsAndRouteDelays.java:130 | a suffix of the line that does not start with whitespace |
| SkewRouteDelay.DropSpacesDropsSpaces | src/com/xilinx/rapidwright/timing/ClkSkewsAndRouteDelays.java:130 | only whitespace is dropped |
| SkewRouteDelay.DropTrailingEmpty | src/com/xilinx/rapidwright/timing/ClkSkewsAndRouteDelays.java:130-151 | `split` drops trailing empty strings: a prefix that does not end in "" |
| SkewRouteDelay.DropTrailingEmptyKeeps | src/com/xilinx/rapidwright/timing/ClkSkewsAndRouteDelays.java:130-151 | a non-empty token is never dropped |
| SkewRouteDelay.PiecesShape | src/com/xilinx/rapidwright/timing/ClkSkewsAndRouteDelays.java:130-151 | no piece holds whitespace; only the first and the last can be empty; the first is empty iff the line starts with whitespace |
| SkewRouteDelay.SplitTokens | src/com/xilinx/rapidwright/timing/ClkSkewsAndRouteDelays.java:130-151 | `split("\\s+")` yields whitespace-free tokens, and only the first can be empty |
| SkewRouteDelay.LeadingSpaceGivesEmptyToken | src/com/xilinx/rapidwright/timing/ClkSkewsAndRouteDelays.java:130-151 | a line that starts with whitespace yields a leading empty token |
| SkewRouteDelay.PrependWord | src/com/xilinx/rapidwright/timing/ClkSkewsAndRouteDelays.java:130 | a whitespace-free word before text whose first piece is empty becomes that first piece, the other pieces unchanged |
| SkewRouteDelay.PiecesOfJoin | src/com/xilinx/rapidwright/timing/ClkSkewsAndRouteDelays.java:130 | splitting words joined by single spaces gives back the pieces |
| SkewRouteDelay.SplitJoin | src/com/xilinx/rapidwright/timing/ClkSkewsAndRouteDelays.java:130-151 | round trip: splitting words joined by single spaces gives back the words |
| SkewRouteDelay.ParseShort | src/com/xilinx/rapidwright/timing/ClkSkewsAndRouteDelays.java:137 | an accepted token lies in [-32768, 32767] and starts with a digit or a sign |
| SkewRouteDelay.DecimalValue | src/com/xilinx/rapidwright/timing/ClkSkewsAndRouteDelays.java:137 | decimal digits read back to their value |
| SkewRouteDelay.ParseShortToString | src/com/xilinx/rapidwright/timing/ClkSkewsAndRouteDelays.java:137 | round trip: every 16-bit value parses back from its decimal text |
| SkewRouteDelay.ParseShortRejectsOverflow | src/com/xilinx/rapidwright/timing/ClkSkewsAndRouteDelays.java:137 | every decimal text of a value above 32767, bare or with `+`, and every `-` text of a value below -32768 is rejected |
| SkewRouteDelay.ParseShortsOutcome | src/com/xilinx/rapidwright/timing/ClkSkewsAndRouteDelays.java:136-138 | all values are read iff every token is a short, each from its own token in order; otherwise the error names a bad token |
| SkewRouteDelay.ParseShorts | src/com/xilinx/rapidwright/timing/ClkSkewsAndRouteDelays.java:136-138 | on success one short per token, each in [-32768, 32767]; on failure the error names one of the tokens |
| SkewRouteDelay.SkewDelayRecord | src/com/xilinx/rapidwright/timing/ClkSkewsAndRouteDelays.java:130-139 | two or fewer tokens is an incomplete line; otherwise the key is (token 0, token 1) |
| SkewRouteDelay.SkewDelayRecordRoundTrip | src/com/xilinx/rapidwright/timing/ClkSkewsAndRouteDelays.java:130-139 | round trip: a record written as key and shorts separated by spaces parses back to that key and those values |
| SkewRouteDelay.RouteRecordTokens | src/com/xilinx/rapidwright/timing/ClkSkewsAndRouteDelays.java:151-160 | a route record needs more than one token, else it is the incomplete-line error for that line; the key followed by the values is the token list |
| SkewRouteDelay.ParseShortsOfTexts | src/com/xilinx/rapidwright/timing/ClkSkewsAndRouteDelays.java:136-138 | the decimal texts of shorts parse back to the shorts |
| SkewRouteDelay.SectionEnd | src/com/xilinx/rapidwright/timing/ClkSkewsAndRouteDelays.java:124-148 | a section ends just past its first empty line, or at the end of the file |
| SkewRouteDelay.ReadSection | src/com/xilinx/rapidwright/timing/ClkSkewsAndRouteDelays.java:122-161 | a section read without error moves the reader forward, and stays within the file |
| SkewRouteDelay.SectionEndIsFirstEmptyLine | src/com/xilinx/rapidwright/timing/ClkSkewsAndRouteDelays.java:124-129 | no line before the section's end is empty |
| SkewRouteDelay.ReadSectionSkipsComment | src/com/xilinx/rapidwright/timing/ClkSkewsAndRouteDelays.java:125-150 | a `#` line is skipped |
| SkewRouteDelay.ReadSectionRecord | src/com/xilinx/rapidwright/timing/ClkSkewsAndRouteDelays.java:130-160 | a record line either ends parsing with its error or puts its key and value into the table |
| SkewRouteDelay.ReadSectionOutcome | src/com/xilinx/rapidwright/timing/ClkSkewsAndRouteDelays.java:122-161 | a section reads without error iff every record line before its end parses; the reader then stands at the section's end |
| SkewRouteDelay.ReadSectionLastRecordWins | src/com/xilinx/rapidwright/timing/ClkSkewsAndRouteDelays.java:139-160 | a repeated key keeps the value of its last record |
| SkewRouteDelay.ReadSectionUntouched | src/com/xilinx/rapidwright/timing/ClkSkewsAndRouteDelays.java:139-160 | a key with no record in the section keeps its earlier entry, or stays absent |
| SkewRouteDelay.FindHeader | src/com/xilinx/rapidwright/timing/ClkSkewsAndRouteDelays.java:100-105 | a found header line equals the section name, and the reader stands just past it |
| SkewRouteDelay.FindHeaderFirst | src/com/xilinx/rapidwright/timing/ClkSkewsAndRouteDelays.java:100-112 | the first matching line is taken; no header is found iff no later line equals the name |
| SkewRouteDelay.ParseSection | src/com/xilinx/rapidwright/timing/ClkSkewsAndRouteDelays.java:94-120 | a missing header is the missing-section error; otherwise the reader moves forward |
| SkewRouteDelay.SectionReadEnd | src/com/xilinx/rapidwright/timing/ClkSkewsAndRouteDelays.java:94-120 | once the header is found, a section read without error ends at the first empty line after it (or the end of the file) |
| SkewRouteDelay.ParseSectionSpan | src/com/xilinx/rapidwright/timing/ClkSkewsAndRouteDelays.java:94-120 | a section read without error starts after the first header line and ends at its first empty line |
| SkewRouteDelay.SectionsInFileOrder | src/com/xilinx/rapidwright/timing/ClkSkewsAndRouteDelays.java:86-91 | a file read without error has its skew, route and delay headers in that order, each after the end of the previous section |
| SkewRouteDelay.LineReader.ReadLine | src/com/xilinx/rapidwright/timing/ClkSkewsAndRouteDelays.java:145 | the next line, and the reader moves by one; at the end of the file null, and the reader stays |
| SkewRouteDelay.ClkSkewsAndRouteDelays.ParseDataSection | src/com/xilinx/rapidwright/timing/ClkSkewsAndRouteDelays.java:94-161 | the loops that consume the reader fill the table as the section specification says, and leave the reader at the section's end |
| SkewRouteDelay.ClkSkewsAndRouteDelays.ReadSkewDelayToMap | src/com/xilinx/rapidwright/timing/ClkSkewsAndRouteDelays.java:122-141 | the loop over the reader agrees with the section specification: same table, same error, and the reader stops just past the section's end |
| SkewRouteDelay.ClkSkewsAndRouteDelays.ReadShorts | src/com/xilinx/rapidwright/timing/ClkSkewsAndRouteDelays.java:135-138 | the values loop parses every token as a short, in order, and stops at the first bad token |
| SkewRouteDelay.ClkSkewsAndRouteDelays.ReadRouteToMap | src/com/xilinx/rapidwright/timing/ClkSkewsAndRouteDelays.java:143-161 | the loop over the reader agrees with the route-section specification: an empty line ends the section before the comment test |
| SkewRouteDelay.ClkSkewsAndRouteDelays.ReadRouteStep | src/com/xilinx/rapidwright/timing/ClkSkewsAndRouteDelays.java:145-160 | one pass of the loop: an empty line or the end of the file ends the section, a comment is skipped, and a record either enters the table or ends parsing, exactly as the section specification takes the same line |
| SkewRouteDelay.ClkSkewsAndRouteDelays.PutRouteLine | src/com/xilinx/rapidwright/timing/ClkSkewsAndRouteDelays.java:151-160 | a record line either ends the section read with its error or enters the table, and the rest of the section is read into the updated table |
| SkewRouteDelay.ClkSkewsAndRouteDelays.ReadRouteLine | src/com/xilinx/rapidwright/timing/ClkSkewsAndRouteDelays.java:151-160 | the record of one route line: the key and values, or the incomplete-line error for one token or fewer |
| SkewRouteDelay.ClkSkewsAndRouteDelays.RouteValues | src/com/xilinx/rapidwright/timing/ClkSkewsAndRouteDelays.java:156-159 | the key followed by the collected values is the whole token list |
| SkewRouteDelay.ClkSkewsAndRouteDelays.ParseDataFromFile | src/com/xilinx/rapidwright/timing/ClkSkewsAndRouteDelays.java:81-92 | the three sections are read in order from one reader; no error iff the file parses, and then the tables are the parsed ones |
| SkewRouteDelay.ParseShortsPrefixError | src/com/xilinx/rapidwright/timing/ClkSkewsAndRouteDelays.java:136-138 | the first bad token decides the error; later tokens do not matter |
| SkewRouteDelay.Load | src/com/xilinx/rapidwright/timing/ClkSkewsAndRouteDelays.java:63-79 | the object holds the parsed tables, or the parse error is reported |
| PartialRouting.RerouteActionsMembers | src/com/xilinx/rapidwright/rwroute/PartialRouter2.java:53-76 | a conflict net is unrouted iff it does not keep its routing; the first loop preserves nothing |
| PartialRouting.PreserveActionsMembers | src/com/xilinx/rapidwright/rwroute/PartialRouter2.java:55-79 | a conflict net is preserved iff it keeps its routing; the second loop unroutes nothing |
| PartialRouting.ConflictNetOutcome | src/com/xilinx/rapidwright/rwroute/PartialRouter2.java:53-79 | every conflict net ends in exactly one outcome: preserved if it is not WIRE, lacks a source or sinks, or has more than one sink pin; unrouted and re-wrapped otherwise |
| PartialRouting.InputPinsMembers | src/com/xilinx/rapidwright/rwroute/PartialRouter2.java:99-103 | the sinks are exactly the net's input pins |
| PartialRouting.Reservations | src/com/xilinx/rapidwright/rwroute/PartialRouter2.java:107-109 | one reservation per sink |
| PartialRouting.StaticNetOutcome | src/com/xilinx/rapidwright/rwroute/PartialRouter2.java:98-120 | a static net is preserved iff it has no input pins or already has PIPs; otherwise it gets routing targets |
| PartialRouting.ReservationsOnly | src/com/xilinx/rapidwright/rwroute/PartialRouter2.java:107-109 | the reservation loop only reserves nodes |
| PartialRouting.ReservationsCover | src/com/xilinx/rapidwright/rwroute/PartialRouter2.java:107-109 | reservation `k` reserves sink `k`'s connected node for the net |
| PartialRouting.ReservedBeforeTargets | src/com/xilinx/rapidwright/rwroute/PartialRouter2.java:105-110 | the targets are exactly the input pins, and every input pin's connected node is reserved before the targets are added |
| PartialRouting.PartialRouter2.constructor | src/com/xilinx/rapidwright/rwroute/PartialRouter2.java:53-80 | the first loop releases, re-wraps and unroutes the re-routed conflict nets; the second loop preserves the others in order |
| PartialRouting.PartialRouter2.AddGlobalClkRoutingTargets | src/com/xilinx/rapidwright/rwroute/PartialRouter2.java:83-95 | without PIPs: a clock target if routable, else counted as not needing routing; with PIPs: preserved and counted as a preserved clock |
| PartialRouting.PartialRouter2.AddStaticNetRoutingTargets | src/com/xilinx/rapidwright/rwroute/PartialRouter2.java:98-120 | no input pins: preserved and counted as not needing routing; input pins and PIPs: preserved and counted; otherwise the sinks' nodes are reserved, then the targets are added |
| PartialRouting.PartialRouter2.AddNetConnectionToRoutingTargets | src/com/xilinx/rapidwright/rwroute/PartialRouter2.java:123-133 | without PIPs the net gets a wrapper and connections; with PIPs it is preserved and counted |
| Strings.IndexOfFrom | test/shared/com/xilinx/rapidwright/edif/EquivalentEDIF.java:140-141 | the first occurrence at or after the start, or -1 when there is none |
| Strings.ContainsText | test/shared/com/xilinx/rapidwright/edif/EquivalentEDIF.java:140-141 | `String.contains`: true iff the text occurs at some index |
| Strings.LexLeTotal | test/shared/com/xilinx/rapidwright/edif/EquivalentEDIF.java:160-161 | the string order relates every two strings |
| Strings.LexLeAntisymmetric | test/shared/com/xilinx/rapidwright/edif/EquivalentEDIF.java:160-161 | two strings that are each at or below the other are equal |
| Strings.LexLeTransitive | test/shared/com/xilinx/rapidwright/edif/EquivalentEDIF.java:160-161 | the string order is transitive |
| EquivalentEdif.KeptLinesCount | test/shared/com/xilinx/rapidwright/edif/EquivalentEDIF.java:139-143 | each line not holding `(metax` or `(timeStamp` is kept as often as it occurs; the others never are |
| EquivalentEdif.KeptLinesSubsequence | test/shared/com/xilinx/rapidwright/edif/EquivalentEDIF.java:139-143 | the kept lines appear in file order |
| EquivalentEdif.ReadEdifLines | test/shared/com/xilinx/rapidwright/edif/EquivalentEDIF.java:135-148 | the loop keeps exactly the filtered lines, in order |
| EquivalentEdif.LexLeIsTotalOrder | test/shared/com/xilinx/rapidwright/edif/EquivalentEDIF.java:160-161 | the string order standing for `compareTo` is a total order |
| EquivalentEdif.Insert | test/shared/com/xilinx/rapidwright/edif/EquivalentEDIF.java:160-161 | insertion adds exactly the new element |
| EquivalentEdif.InsertSorted | test/shared/com/xilinx/rapidwright/edif/EquivalentEDIF.java:160-161 | inserting into a sorted list keeps it sorted |
| EquivalentEdif.Sort | test/shared/com/xilinx/rapidwright/edif/EquivalentEDIF.java:160-161 | sorting is a permutation |
| EquivalentEdif.SortSorted | test/shared/com/xilinx/rapidwright/edif/EquivalentEDIF.java:160-161 | the sorted list is sorted |
| EquivalentEdif.SortedUnique | test/shared/com/xilinx/rapidwright/edif/EquivalentEDIF.java:160-171 | two sorted lists with the same elements are equal |
| EquivalentEdif.SameTails | test/shared/com/xilinx/rapidwright/edif/EquivalentEDIF.java:164-170 | with equal heads and equal multisets, the tails have equal multisets |
| EquivalentEdif.SortedHeadsEqual | test/shared/com/xilinx/rapidwright/edif/EquivalentEDIF.java:164-170 | sorted lists with the same elements share their least element |
| EquivalentEdif.SortLines | test/shared/com/xilinx/rapidwright/edif/EquivalentEDIF.java:160-161 | `Collections.sort`: the result is sorted and a permutation of the input |
| EquivalentEdif.LexSortedEqualIff | test/shared/com/xilinx/rapidwright/edif/EquivalentEDIF.java:160-171 | sorted lists are equal iff their multisets are equal |
| EquivalentEdif.CompareEdifFiles | test/shared/com/xilinx/rapidwright/edif/EquivalentEDIF.java:157-172 | true iff the filtered lines of the two files are equal as multisets |
| EquivalentEdif.SameLines | test/shared/com/xilinx/rapidwright/edif/EquivalentEDIF.java:162-171 | the size check and the line-by-line loop answer true exactly when the two lists are equal |
| EquivalentEdif.PermutedFileSameKeptLines | test/shared/com/xilinx/rapidwright/edif/EquivalentEDIF.java:150-161 | reordering a file's lines does not change the comparison |
| EquivalentEdif.KeptCountsDiffer | test/shared/com/xilinx/rapidwright/edif/EquivalentEDIF.java:162 | different filtered line counts mean the files differ |

## Left out

- **File I/O.**
  - Opening the template file and its existence check are left out.
  - So is the `BufferedReader` of the EDIF reader, together with its `UncheckedIOException`.
  - `readDesignNetsFromFile` is left out.
  - Files are sequences of lines.
- **Debug output.** Debug flags, printing, and the error messages printed for failed sinks and missing HDISTR nodes are left out.
  - This includes the `sites` list of `setBUFCERowLeafTap`, which is only printed.
- **`RoutingNode` fields.** Its unused `delayFromSource` float is left out.
- **Device lookups.** `RouterHelper.createRoutingNode`, `RouterHelper.getPIPsFromListOfReversedNodes`, `Node.getNode`, `Device.getSite`, the clock-region lookups and `SiteInst.getNetFromSiteWire` are uninterpreted function fields. `createRoutingNode` is taken never to return null, so the `nParent == null` branch is not modelled.
- **Rail wire names.** The VCC and GND wire names come from `Net`, which is not part of this model. The model takes them to be `VCC_WIRE` and `GND_WIRE`. `Devices.DrivenLutKeepsItsKind` relies on that text: neither name is a prefix of a LUT output name `CLE_CLE_…_O`, since neither starts with `C`.
- **Not modelled at all.**
  - The UltraScale clock-routing stages, and the orchestrators that call them (`clkEnableRoute`, `clkRouteWithClkSkewRouteDelays`, `defaultClkRoute`, `symmetricClkRouting`). Their code is not part of this model.
  - `findCentroid`, which rests on floating-point geometry whose code is not part of this model.
  - The centroid pick that depends on map order.
  - The `RWRoute` superclass of the partial router, including its constructor's own work before the conflict-net loop, and the calls the overrides make into it. Those calls are recorded as log entries.
  - The bounding-box configuration passed to the wire-net wrapper.
- **Choices that depend on `HashMap` iteration order** are arbitrary choices in the model:
  - the tie-break in `getDominateClockRegion`;
  - which key of a region `setBUFCERowLeafTap` takes its leaf tap from;
  - the order in which `routeCentroidToHorDistributionLines` appends paths.
- **Static-net result map.** The map returned by `routeStaticNet` is keyed by pin index, not by pin object. The `setRouted(true)` flag of a routed sink is the returned `routed` set.
- StaticRouting.GlobalSignalRouting.SearchSink: returns the number of expansions as a separate result rather than keeping the watchdog as a variable visible to callers.
- StaticRouting.GlobalSignalRouting.RouteStaticNet: a failed search is explained by its search run (whose count tells an exhausted budget from an emptied queue); Java only prints a message for either.
- **String order.** `Strings.LexLe` compares characters as code points, where Java's `compareTo` compares UTF-16 code units. The two orders differ only when a character above U+FFFF is compared with one in U+E000–U+FFFF; CompareEdifFiles's answer (multiset equality) does not depend on the order.
- ClockRouting.ClockNet.RemoveDuplicatePips: the Java code rebuilds the PIP list from a `HashSet`, so its order is unspecified. The model keeps first-seen order, and its contract promises only that there are no repeats and the same PIPs.
- ClockRouting.RouteCentroidToHorDistributionLines: Java reverses each caller's list in place. The model reverses a copy, so the caller's map keeps the original order. An empty path, where Java's `path.get(0)` throws, is the error result.
- ClockRouting.SetBufceRowLeafTap: requires every tap list to hold a row tap, and every entry of a clock region that some leaf-tap PIP lies in to hold a leaf tap too. Java reads the leaf tap only of the one entry its `HashMap` iteration picks, and throws `IndexOutOfBoundsException` on a list that is too short; that exception is not modelled.
- ClockRouting.ClockRegionGroups.UpDownClockRegions: a null region in the input, on which Java throws, is not modelled. Regions are values.
- ClockRouting.DominateClockRegion: the result is some name of maximal count, not the particular one `HashMap` order would give.
- SkewRouteDelay.ParseShort: accepts ASCII digits only. `Short.parseShort` also accepts other Unicode decimal digits.
- SkewRouteDelay.Load: stands for the constructor `ClkSkewsAndRouteDelays(String)`. Java prints the `IOException` and continues, while the model returns every parse failure as an error.
- **Line splitting.** `Pattern`-based splitting is modelled only for the whitespace class `\s`: space, tab, newline, vertical tab, form feed and carriage return.
- **Numeric types.** Java `short` values are integers in [-32768, 32767]. The partial router's counters are unbounded naturals, and Java `int` overflow of the counters is not modelled.
