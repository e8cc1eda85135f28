/**
 * The in-file helpers of the clock router: grouping sink pins and wires by clock
 * region and by leaf clock buffer, resolving node names of route templates,
 * replaying templates onto the clock net, setting buffer tap delays, and the final
 * removal of duplicate PIPs. A `RouteNode` (tile and wire) is identified with the
 * node it names.
 */
module ClockRouting {
  import opened Wrappers
  import opened Strings
  import opened Sequences
  import opened Devices

  /** A clock region: its name (such as `X2Y3`) and its instance coordinates. */
  datatype ClockRegion = ClockRegion(name: string, x: int, y: int)

  /** The device queries of the clock helpers. */
  datatype ClockFabric = ClockFabric(
    /** `Tile.getClockRegion` (`None`: the tile lies in no clock region). */
    regionOfTile: TileId -> Option<ClockRegion>,
    /** The tiles of `Node.getAllWiresInNode`, in order. */
    wireTilesOfNode: Node -> seq<TileId>,
    /** `Device.getClockRegion(name)`. */
    regionByName: string -> ClockRegion,
    /** `Node.getNode(name, device)` (`None`: no such node). */
    nodeByName: string -> Option<Node>,
    /** `Device.getSite(name)`. */
    siteByName: string -> SiteId,
    /** `Node.toString`: tile name, a slash, wire name. */
    nodeName: Node -> string,
    /** The site of the site pin a node connects to. */
    siteOfNode: Node -> SiteId,
    /** The clock region of a site's tile. */
    regionOfSite: SiteId -> ClockRegion)

  // ---------------------------------------------------------------------------
  // getClockRegionsOfNet
  // ---------------------------------------------------------------------------

  /** The clock regions of the tiles of the input pins, in pin order, repeats included. */
  function InputPinRegions(fabric: ClockFabric, pins: seq<Pin>): seq<Option<ClockRegion>> {
    if pins == [] then []
    else
      var rest := InputPinRegions(fabric, pins[..|pins| - 1]);
      var p := pins[|pins| - 1];
      if p.isOutPin then rest else rest + [fabric.regionOfTile(p.tile)]
  }

  lemma {:induction false} InputPinRegionsMembers(fabric: ClockFabric, pins: seq<Pin>)
    ensures forall r :: r in InputPinRegions(fabric, pins) <==>
      exists k :: 0 <= k < |pins| && !pins[k].isOutPin && fabric.regionOfTile(pins[k].tile) == r
  {
    if pins != [] {
      var init := pins[..|pins| - 1];
      InputPinRegionsMembers(fabric, init);
      forall r | exists k :: 0 <= k < |pins| && !pins[k].isOutPin && fabric.regionOfTile(pins[k].tile) == r
        ensures r in InputPinRegions(fabric, pins)
      {
        var k :| 0 <= k < |pins| && !pins[k].isOutPin && fabric.regionOfTile(pins[k].tile) == r;
        if k < |init| {
          assert init[k] == pins[k];
        }
      }
      forall r | r in InputPinRegions(fabric, init)
        ensures exists k :: 0 <= k < |pins| && !pins[k].isOutPin && fabric.regionOfTile(pins[k].tile) == r
      {
        var k :| 0 <= k < |init| && !init[k].isOutPin && fabric.regionOfTile(init[k].tile) == r;
        assert pins[k] == init[k];
      }
    }
  }

  /**
   * getClockRegionsOfNet: the distinct clock regions of the input pins' tiles, each
   * listed once, in the order the pins first reach them.
   */
  method ClockRegionsOfNet(fabric: ClockFabric, pins: seq<Pin>) returns (regions: seq<Option<ClockRegion>>)
    ensures regions == Dedup(InputPinRegions(fabric, pins))
    ensures Distinct(regions) && InFirstSeenOrder(InputPinRegions(fabric, pins), regions)
    ensures forall r :: r in regions <==>
      exists k :: 0 <= k < |pins| && !pins[k].isOutPin && fabric.regionOfTile(pins[k].tile) == r
  {
    regions := [];
    for i := 0 to |pins|
      invariant regions == Dedup(InputPinRegions(fabric, pins[..i]))
    {
      assert pins[..i + 1][..i] == pins[..i];
      var p := pins[i];
      if !p.isOutPin {
        var cr := fabric.regionOfTile(p.tile);
        if cr !in regions {
          regions := regions + [cr];
        }
      }
    }
    assert pins[..|pins|] == pins;
    DedupDistinct(InputPinRegions(fabric, pins));
    DedupFirstSeenOrder(InputPinRegions(fabric, pins));
    DedupSameElements(InputPinRegions(fabric, pins));
    InputPinRegionsMembers(fabric, pins);
  }

  // ---------------------------------------------------------------------------
  // upDownClockRegions
  // ---------------------------------------------------------------------------

  /** The regions in the centroid's row or above it, in order. */
  function AtOrAbove(regions: seq<ClockRegion>, y: int): seq<ClockRegion> {
    if regions == [] then []
    else
      var rest := AtOrAbove(regions[..|regions| - 1], y);
      if regions[|regions| - 1].y >= y then rest + [regions[|regions| - 1]] else rest
  }

  /** The regions below the centroid's row, in order. */
  function Below(regions: seq<ClockRegion>, y: int): seq<ClockRegion> {
    if regions == [] then []
    else
      var rest := Below(regions[..|regions| - 1], y);
      if regions[|regions| - 1].y < y then rest + [regions[|regions| - 1]] else rest
  }

  /** Every region goes to exactly one of the two lists, which together hold the input's elements. */
  lemma {:induction false} UpDownPartition(regions: seq<ClockRegion>, y: int)
    ensures multiset(AtOrAbove(regions, y)) + multiset(Below(regions, y)) == multiset(regions)
    ensures forall r :: r in AtOrAbove(regions, y) <==> r in regions && r.y >= y
    ensures forall r :: r in Below(regions, y) <==> r in regions && r.y < y
  {
    if regions != [] {
      var init := regions[..|regions| - 1];
      UpDownPartition(init, y);
      assert regions == init + [regions[|regions| - 1]];
    }
  }

  /** The two lists `upDownClockRegions` appends to; they live as long as the router and are never cleared. */
  class ClockRegionGroups {
    var up: seq<ClockRegion>
    var down: seq<ClockRegion>

    constructor ()
      ensures up == [] && down == []
    {
      up := [];
      down := [];
    }

    /** upDownClockRegions: appends each region to `up` if its row is at or above the centroid's, else to `down`. */
    method UpDownClockRegions(regions: seq<ClockRegion>, centroid: ClockRegion)
      modifies this
      ensures up == old(up) + AtOrAbove(regions, centroid.y)
      ensures down == old(down) + Below(regions, centroid.y)
    {
      for i := 0 to |regions|
        invariant up == old(up) + AtOrAbove(regions[..i], centroid.y)
        invariant down == old(down) + Below(regions[..i], centroid.y)
      {
        assert regions[..i + 1][..i] == regions[..i];
        if regions[i].y >= centroid.y {
          up := up + [regions[i]];
        } else {
          down := down + [regions[i]];
        }
      }
      assert regions[..|regions|] == regions;
    }
  }

  // ---------------------------------------------------------------------------
  // getLCBPinMappings
  // ---------------------------------------------------------------------------

  /** The first NODE_GLOBAL_LEAF node of `ups`, if any. */
  function FirstLeaf(dev: Device, ups: seq<Node>): Option<Node> {
    if ups == [] then None
    else if dev.intent(ups[0]) == NodeGlobalLeaf then Some(ups[0])
    else FirstLeaf(dev, ups[1..])
  }

  /** `FirstLeaf` finds the leaf node of `ups` that no other leaf node precedes, and fails only when there is none. */
  lemma {:induction false} FirstLeafMeaning(dev: Device, ups: seq<Node>)
    ensures FirstLeaf(dev, ups).None? <==> forall k :: 0 <= k < |ups| ==> dev.intent(ups[k]) != NodeGlobalLeaf
    ensures FirstLeaf(dev, ups).Some? ==>
      exists k :: 0 <= k < |ups| && ups[k] == FirstLeaf(dev, ups).value && dev.intent(ups[k]) == NodeGlobalLeaf
        && forall j :: 0 <= j < k ==> dev.intent(ups[j]) != NodeGlobalLeaf
  {
    if ups != [] && dev.intent(ups[0]) != NodeGlobalLeaf {
      FirstLeafMeaning(dev, ups[1..]);
      assert forall k :: 1 <= k < |ups| ==> ups[k] == ups[1..][k - 1];
      if FirstLeaf(dev, ups).Some? {
        var k :| 0 <= k < |ups[1..]| && ups[1..][k] == FirstLeaf(dev, ups).value && dev.intent(ups[1..][k]) == NodeGlobalLeaf
          && forall j :: 0 <= j < k ==> dev.intent(ups[1..][j]) != NodeGlobalLeaf;
        assert ups[k + 1] == ups[1..][k];
      }
    }
  }

  /**
   * The leaf buffer found through the middle nodes `mids`: the first leaf uphill of
   * the last middle node that lies in `intTile` and has a leaf uphill.
   */
  function LeafVia(dev: Device, intTile: TileId, mids: seq<Node>): Option<Node> {
    if mids == [] then None
    else
      var m := mids[|mids| - 1];
      var leaf := FirstLeaf(dev, dev.uphill(m));
      if dev.tileOf(m) == intTile && leaf.Some? then leaf else LeafVia(dev, intTile, mids[..|mids| - 1])
  }

  /** The leaf clock buffer of a sink pin: found through the uphill nodes of its connected node. */
  function LeafOf(dev: Device, p: Pin): Option<Node> {
    LeafVia(dev, p.intTile, dev.uphill(p.connectedNode))
  }

  /**
   * A pin's leaf buffer is a NODE_GLOBAL_LEAF node two uphill hops from the pin's
   * node, through a node in the pin's INT tile; no middle node after that one has a
   * leaf uphill, and a pin has no leaf buffer exactly when no middle node in its INT
   * tile has one.
   */
  lemma {:induction false} LeafViaNone(dev: Device, intTile: TileId, mids: seq<Node>)
    ensures LeafVia(dev, intTile, mids).None? <==>
      forall k :: 0 <= k < |mids| && dev.tileOf(mids[k]) == intTile ==> FirstLeaf(dev, dev.uphill(mids[k])).None?
  {
    if mids != [] {
      var init := mids[..|mids| - 1];
      LeafViaNone(dev, intTile, init);
      assert mids == init + [mids[|mids| - 1]];
    }
  }

  lemma {:induction false} LeafViaSome(dev: Device, intTile: TileId, mids: seq<Node>)
    requires LeafVia(dev, intTile, mids).Some?
    ensures
      exists k :: 0 <= k < |mids| && dev.tileOf(mids[k]) == intTile
        && FirstLeaf(dev, dev.uphill(mids[k])) == LeafVia(dev, intTile, mids)
        && forall j :: k < j < |mids| && dev.tileOf(mids[j]) == intTile ==> FirstLeaf(dev, dev.uphill(mids[j])).None?
  {
    var last := |mids| - 1;
    var m := mids[last];
    if !(dev.tileOf(m) == intTile && FirstLeaf(dev, dev.uphill(m)).Some?) {
      var init := mids[..last];
      LeafViaSome(dev, intTile, init);
      var k :| 0 <= k < |init| && dev.tileOf(init[k]) == intTile
        && FirstLeaf(dev, dev.uphill(init[k])) == LeafVia(dev, intTile, init)
        && forall j :: k < j < |init| && dev.tileOf(init[j]) == intTile ==> FirstLeaf(dev, dev.uphill(init[j])).None?;
      assert mids[k] == init[k];
      forall j | k < j < |mids| && dev.tileOf(mids[j]) == intTile
        ensures FirstLeaf(dev, dev.uphill(mids[j])).None?
      {
        if j < last {
          assert mids[j] == init[j];
        }
      }
    }
  }

  lemma LeafIsTwoHopsUp(dev: Device, p: Pin)
    requires LeafOf(dev, p).Some?
    ensures dev.intent(LeafOf(dev, p).value) == NodeGlobalLeaf
    ensures exists m :: m in dev.uphill(p.connectedNode) && dev.tileOf(m) == p.intTile && LeafOf(dev, p).value in dev.uphill(m)
  {
    LeafViaSome(dev, p.intTile, dev.uphill(p.connectedNode));
    var k :| 0 <= k < |dev.uphill(p.connectedNode)| && dev.tileOf(dev.uphill(p.connectedNode)[k]) == p.intTile
      && FirstLeaf(dev, dev.uphill(dev.uphill(p.connectedNode)[k])) == LeafOf(dev, p);
    FirstLeafMeaning(dev, dev.uphill(dev.uphill(p.connectedNode)[k]));
  }

  /** The inner loop of getLCBPinMappings: the first leaf node uphill of `m`. */
  method FindFirstLeaf(dev: Device, m: Node) returns (n: Option<Node>)
    ensures n == FirstLeaf(dev, dev.uphill(m))
  {
    var ups := dev.uphill(m);
    n := None;
    var j := 0;
    while j < |ups|
      invariant 0 <= j <= |ups|
      invariant FirstLeaf(dev, ups) == FirstLeaf(dev, ups[j..])
    {
      if dev.intent(ups[j]) == NodeGlobalLeaf {
        n := Some(ups[j]);
        break;
      }
      assert ups[j..][1..] == ups[j + 1..];
      j := j + 1;
    }
  }

  /**
   * The outer loop of getLCBPinMappings for one pin: every uphill node in the pin's
   * INT tile that has a leaf uphill overwrites the answer.
   */
  method FindLeafBuffer(dev: Device, p: Pin) returns (n: Option<Node>)
    ensures n == LeafOf(dev, p)
  {
    var mids := dev.uphill(p.connectedNode);
    n := None;
    for i := 0 to |mids|
      invariant n == LeafVia(dev, p.intTile, mids[..i])
    {
      assert mids[..i + 1][..i] == mids[..i];
      if dev.tileOf(mids[i]) == p.intTile {
        var leaf := FindFirstLeaf(dev, mids[i]);
        if leaf.Some? {
          n := leaf;
        }
      }
    }
    assert mids[..|mids|] == mids;
  }

  /** The input pins of `pins` whose leaf buffer is `leaf`, in pin order. */
  function PinsOfLeaf(dev: Device, pins: seq<Pin>, leaf: Node): seq<Pin> {
    if pins == [] then []
    else
      var rest := PinsOfLeaf(dev, pins[..|pins| - 1], leaf);
      var p := pins[|pins| - 1];
      if !p.isOutPin && LeafOf(dev, p) == Some(leaf) then rest + [p] else rest
  }

  /**
   * The mapping getLCBPinMappings builds, pin by pin: the first input pin without a
   * leaf buffer is the error; otherwise each input pin is appended to its leaf's list.
   */
  function LcbGroups(dev: Device, pins: seq<Pin>): Result<map<Node, seq<Pin>>, Pin> {
    if pins == [] then Ok(map[])
    else
      var p := pins[|pins| - 1];
      match LcbGroups(dev, pins[..|pins| - 1])
      case Err(e) => Err(e)
      case Ok(m) =>
        if p.isOutPin then Ok(m)
        else match LeafOf(dev, p)
          case None => Err(p)
          case Some(leaf) => Ok(m[leaf := (if leaf in m then m[leaf] else []) + [p]])
  }

  /** getLCBPinMappings: the leaf-buffer mapping, or the first input pin without a leaf buffer. */
  method LcbPinMappings(dev: Device, pins: seq<Pin>) returns (r: Result<map<Node, seq<Pin>>, Pin>)
    ensures r == LcbGroups(dev, pins)
  {
    var lcbMappings: map<Node, seq<Pin>> := map[];
    for i := 0 to |pins|
      invariant LcbGroups(dev, pins[..i]) == Ok(lcbMappings)
    {
      assert pins[..i + 1][..i] == pins[..i];
      var p := pins[i];
      if !p.isOutPin {
        var n := FindLeafBuffer(dev, p);
        if n.None? {
          LcbGroupsErrorSticks(dev, pins, i + 1);
          return Err(p);
        }
        var sinks := if n.value in lcbMappings then lcbMappings[n.value] else [];
        lcbMappings := lcbMappings[n.value := sinks + [p]];
      }
    }
    assert pins[..|pins|] == pins;
    r := Ok(lcbMappings);
  }

  /** Once a prefix of the pins fails, the whole list fails with the same pin. */
  lemma {:induction false} LcbGroupsErrorSticks(dev: Device, pins: seq<Pin>, i: nat)
    requires i <= |pins| && LcbGroups(dev, pins[..i]).Err?
    ensures LcbGroups(dev, pins) == LcbGroups(dev, pins[..i])
    decreases |pins|
  {
    if i < |pins| {
      var init := pins[..|pins| - 1];
      assert init[..i] == pins[..i];
      LcbGroupsErrorSticks(dev, init, i);
    } else {
      assert pins[..i] == pins;
    }
  }

  /** The mapping fails exactly when some input pin has no leaf buffer, and then names the first such pin. */
  lemma {:induction false} LcbGroupsError(dev: Device, pins: seq<Pin>)
    ensures LcbGroups(dev, pins).Err? <==> exists k :: 0 <= k < |pins| && !pins[k].isOutPin && LeafOf(dev, pins[k]).None?
    ensures LcbGroups(dev, pins).Err? ==>
      exists k :: 0 <= k < |pins| && pins[k] == LcbGroups(dev, pins).error && !pins[k].isOutPin && LeafOf(dev, pins[k]).None?
        && forall j :: 0 <= j < k ==> pins[j].isOutPin || LeafOf(dev, pins[j]).Some?
  {
    if pins != [] {
      var init := pins[..|pins| - 1];
      LcbGroupsError(dev, init);
      assert forall k :: 0 <= k < |init| ==> init[k] == pins[k];
    }
  }

  /** On success the keys are the leaf buffers of the input pins, and each list holds that leaf's input pins in order. */
  lemma {:induction false} LcbGroupsLists(dev: Device, pins: seq<Pin>)
    requires LcbGroups(dev, pins).Ok?
    ensures forall leaf :: leaf in LcbGroups(dev, pins).value <==>
      exists k :: 0 <= k < |pins| && !pins[k].isOutPin && LeafOf(dev, pins[k]) == Some(leaf)
    ensures forall leaf :: leaf in LcbGroups(dev, pins).value ==> LcbGroups(dev, pins).value[leaf] == PinsOfLeaf(dev, pins, leaf)
  {
    if pins != [] {
      var init := pins[..|pins| - 1];
      LcbGroupsLists(dev, init);
      assert forall k :: 0 <= k < |init| ==> init[k] == pins[k];
      var m := LcbGroups(dev, init).value;
      forall leaf | leaf !in m
        ensures PinsOfLeaf(dev, init, leaf) == []
      {
        PinsOfLeafEmpty(dev, init, leaf);
      }
    }
  }

  lemma {:induction false} PinsOfLeafEmpty(dev: Device, pins: seq<Pin>, leaf: Node)
    requires forall k :: 0 <= k < |pins| && !pins[k].isOutPin ==> LeafOf(dev, pins[k]) != Some(leaf)
    ensures PinsOfLeaf(dev, pins, leaf) == []
  {
    if pins != [] {
      PinsOfLeafEmpty(dev, pins[..|pins| - 1], leaf);
    }
  }

  /** The input pins of a leaf's list are exactly the input pins whose leaf buffer it is. */
  lemma {:induction false} PinsOfLeafMembers(dev: Device, pins: seq<Pin>, leaf: Node)
    ensures forall p :: p in PinsOfLeaf(dev, pins, leaf) <==> p in pins && !p.isOutPin && LeafOf(dev, p) == Some(leaf)
  {
    if pins != [] {
      PinsOfLeafMembers(dev, pins[..|pins| - 1], leaf);
      assert pins == pins[..|pins| - 1] + [pins[|pins| - 1]];
    }
  }

  /** Every input pin lands in exactly one list: the list of its own leaf buffer. */
  lemma EveryPinInOneList(dev: Device, pins: seq<Pin>, p: Pin)
    requires LcbGroups(dev, pins).Ok? && p in pins && !p.isOutPin
    ensures LeafOf(dev, p).Some? && LeafOf(dev, p).value in LcbGroups(dev, pins).value
    ensures p in LcbGroups(dev, pins).value[LeafOf(dev, p).value]
    ensures forall leaf :: leaf in LcbGroups(dev, pins).value && p in LcbGroups(dev, pins).value[leaf] ==> leaf == LeafOf(dev, p).value
  {
    LcbGroupsError(dev, pins);
    LcbGroupsLists(dev, pins);
    var m := LcbGroups(dev, pins).value;
    forall leaf | leaf in m
      ensures p in m[leaf] <==> LeafOf(dev, p) == Some(leaf)
    {
      PinsOfLeafMembers(dev, pins, leaf);
    }
    var leaf := LeafOf(dev, p).value;
    PinsOfLeafMembers(dev, pins, leaf);
  }

  // ---------------------------------------------------------------------------
  // getDominateClockRegion
  // ---------------------------------------------------------------------------

  /** The clock region names of the tiles of a node's wires, for the wires that lie in a clock region. */
  function RegionNames(fabric: ClockFabric, tiles: seq<TileId>): seq<string> {
    if tiles == [] then []
    else
      var rest := RegionNames(fabric, tiles[..|tiles| - 1]);
      match fabric.regionOfTile(tiles[|tiles| - 1])
      case None => rest
      case Some(cr) => rest + [cr.name]
  }

  /** No wire of the node lies in a clock region exactly when there are no region names. */
  lemma {:induction false} RegionNamesEmpty(fabric: ClockFabric, tiles: seq<TileId>)
    ensures RegionNames(fabric, tiles) == [] <==> forall k :: 0 <= k < |tiles| ==> fabric.regionOfTile(tiles[k]).None?
  {
    if tiles != [] {
      var init := tiles[..|tiles| - 1];
      RegionNamesEmpty(fabric, init);
      assert forall k :: 0 <= k < |init| ==> init[k] == tiles[k];
    }
  }

  /** The first loop of getDominateClockRegion: the number of the node's wires in each clock region, by name. */
  method CountRegions(fabric: ClockFabric, tiles: seq<TileId>) returns (crCounts: map<string, int>)
    ensures forall n :: n in crCounts <==> n in RegionNames(fabric, tiles)
    ensures forall n :: n in crCounts ==> crCounts[n] == multiset(RegionNames(fabric, tiles))[n]
  {
    crCounts := map[];
    for i := 0 to |tiles|
      invariant forall n :: n in crCounts <==> n in RegionNames(fabric, tiles[..i])
      invariant forall n :: n in crCounts ==> crCounts[n] == multiset(RegionNames(fabric, tiles[..i]))[n]
    {
      assert tiles[..i + 1][..i] == tiles[..i];
      var cr := fabric.regionOfTile(tiles[i]);
      if cr.Some? {
        var count := if cr.value.name in crCounts then crCounts[cr.value.name] + 1 else 1;
        crCounts := crCounts[cr.value.name := count];
      }
    }
    assert tiles[..|tiles|] == tiles;
  }

  /**
   * getDominateClockRegion: counts the node's wires per clock region name, then keeps
   * a name of strictly greater count than all before it, in the map's iteration order.
   * The result is a name of maximal count, or null when no wire lies in a clock region.
   */
  method DominateClockRegion(fabric: ClockFabric, node: Node) returns (dominate: Option<string>)
    ensures dominate.None? <==> RegionNames(fabric, fabric.wireTilesOfNode(node)) == []
    ensures dominate.Some? ==>
      var names := RegionNames(fabric, fabric.wireTilesOfNode(node));
      dominate.value in names && forall n :: n in names ==> multiset(names)[n] <= multiset(names)[dominate.value]
  {
    var crCounts := CountRegions(fabric, fabric.wireTilesOfNode(node));
    dominate := None;
    var max := 0;
    var keys := crCounts.Keys;
    while keys != {}
      invariant keys <= crCounts.Keys
      invariant dominate.None? ==> max == 0 && keys == crCounts.Keys
      invariant dominate.Some? ==> dominate.value in crCounts && crCounts[dominate.value] == max
      invariant forall n :: n in crCounts && n !in keys ==> crCounts[n] <= max
      decreases |keys|
    {
      var cr :| cr in keys;
      if crCounts[cr] > max {
        max := crCounts[cr];
        dominate := Some(cr);
      }
      keys := keys - {cr};
    }
  }

  // ---------------------------------------------------------------------------
  // getStartingPoint
  // ---------------------------------------------------------------------------

  /** The distribution lines, among those named in `names`, whose clock region name resolves to `cr`. */
  ghost function LinesOfRegion(fabric: ClockFabric, crDistLines: map<string, Node>, names: set<string>, cr: ClockRegion): set<Node> {
    set name | name in crDistLines && name in names && fabric.regionByName(name) == cr :: crDistLines[name]
  }

  /** `startingPoints` groups the lines named in `done` by region. */
  ghost predicate GroupedByRegion(fabric: ClockFabric, crDistLines: map<string, Node>, done: set<string>,
                                  startingPoints: map<ClockRegion, set<Node>>)
  {
    && (forall cr :: cr in startingPoints <==> exists name :: name in done && fabric.regionByName(name) == cr)
    && forall cr :: cr in startingPoints ==> startingPoints[cr] == LinesOfRegion(fabric, crDistLines, done, cr)
  }

  /** Adding one more line to its region's group keeps the grouping. */
  lemma GroupedByRegionAdd(fabric: ClockFabric, crDistLines: map<string, Node>, done: set<string>,
                           startingPoints: map<ClockRegion, set<Node>>, name: string)
    requires name in crDistLines && done <= crDistLines.Keys
    requires GroupedByRegion(fabric, crDistLines, done, startingPoints)
    ensures var cr := fabric.regionByName(name);
      var routeNodes := if cr in startingPoints then startingPoints[cr] else {};
      GroupedByRegion(fabric, crDistLines, done + {name}, startingPoints[cr := routeNodes + {crDistLines[name]}])
  {
    var cr := fabric.regionByName(name);
    var routeNodes := if cr in startingPoints then startingPoints[cr] else {};
    var sp := startingPoints[cr := routeNodes + {crDistLines[name]}];
    forall c | c in sp
      ensures sp[c] == LinesOfRegion(fabric, crDistLines, done + {name}, c)
    {
      if c != cr {
        assert LinesOfRegion(fabric, crDistLines, done + {name}, c) == LinesOfRegion(fabric, crDistLines, done, c);
      } else if cr !in startingPoints {
        assert LinesOfRegion(fabric, crDistLines, done, cr) == {};
      }
    }
  }

  /**
   * getStartingPoint: groups the horizontal distribution lines by the clock region
   * their region name resolves to.
   */
  method StartingPoint(fabric: ClockFabric, crDistLines: map<string, Node>) returns (startingPoints: map<ClockRegion, set<Node>>)
    ensures forall cr :: cr in startingPoints <==> exists name :: name in crDistLines && fabric.regionByName(name) == cr
    ensures forall cr :: cr in startingPoints ==> startingPoints[cr] == LinesOfRegion(fabric, crDistLines, crDistLines.Keys, cr)
  {
    startingPoints := map[];
    var todo := crDistLines.Keys;
    ghost var done: set<string> := {};
    while todo != {}
      invariant todo <= crDistLines.Keys && done <= crDistLines.Keys
      invariant forall n :: n in crDistLines ==> (n in done <==> n !in todo)
      invariant GroupedByRegion(fabric, crDistLines, done, startingPoints)
      decreases |todo|
    {
      var crName :| crName in todo;
      var cr := fabric.regionByName(crName);
      var routeNodes := if cr in startingPoints then startingPoints[cr] else {};
      GroupedByRegionAdd(fabric, crDistLines, done, startingPoints, crName);
      startingPoints := startingPoints[cr := routeNodes + {crDistLines[crName]}];
      todo := todo - {crName};
      done := done + {crName};
    }
    assert done == crDistLines.Keys;
  }

  // ---------------------------------------------------------------------------
  // getListOfNodesFromRoutes
  // ---------------------------------------------------------------------------

  /** The nodes named by `names`, in order, leaving out the names that name no node. */
  function Resolve(fabric: ClockFabric, names: seq<string>): seq<Node> {
    if names == [] then []
    else
      var rest := Resolve(fabric, names[..|names| - 1]);
      match fabric.nodeByName(names[|names| - 1])
      case None => rest
      case Some(n) => rest + [n]
  }

  /** A resolved node is named by one of the names; no node is made up. */
  lemma {:induction false} ResolveMembers(fabric: ClockFabric, names: seq<string>)
    ensures |Resolve(fabric, names)| <= |names|
    ensures forall x :: x in Resolve(fabric, names) <==> exists k :: 0 <= k < |names| && fabric.nodeByName(names[k]) == Some(x)
  {
    if names != [] {
      var init := names[..|names| - 1];
      ResolveMembers(fabric, init);
      assert names == init + [names[|names| - 1]];
      assert forall k :: 0 <= k < |init| ==> init[k] == names[k];
    }
  }

  /** When every name resolves, the path has one node per name, in order. */
  lemma {:induction false} ResolveAllFound(fabric: ClockFabric, names: seq<string>)
    requires forall k :: 0 <= k < |names| ==> fabric.nodeByName(names[k]).Some?
    ensures |Resolve(fabric, names)| == |names|
    ensures forall k :: 0 <= k < |names| ==> Resolve(fabric, names)[k] == fabric.nodeByName(names[k]).value
  {
    if names != [] {
      var init := names[..|names| - 1];
      ResolveAllFound(fabric, init);
      assert forall k :: 0 <= k < |init| ==> init[k] == names[k];
    }
  }

  /** The inner loop of getListOfNodesFromRoutes. */
  method ResolveNames(fabric: ClockFabric, names: seq<string>) returns (pathNodes: seq<Node>)
    ensures pathNodes == Resolve(fabric, names)
  {
    pathNodes := [];
    for i := 0 to |names|
      invariant pathNodes == Resolve(fabric, names[..i])
    {
      assert names[..i + 1][..i] == names[..i];
      var node := fabric.nodeByName(names[i]);
      if node.Some? {
        pathNodes := pathNodes + [node.value];
      }
    }
    assert names[..|names|] == names;
  }

  /** getListOfNodesFromRoutes: every route template's node names resolved to nodes. */
  method ListOfNodesFromRoutes(fabric: ClockFabric, dstRoutes: map<string, seq<string>>) returns (dstPaths: map<string, seq<Node>>)
    ensures dstPaths.Keys == dstRoutes.Keys
    ensures forall dst :: dst in dstPaths ==> dstPaths[dst] == Resolve(fabric, dstRoutes[dst])
  {
    dstPaths := map[];
    var todo := dstRoutes.Keys;
    while todo != {}
      invariant todo <= dstRoutes.Keys
      invariant dstPaths.Keys == dstRoutes.Keys - todo
      invariant forall dst :: dst in dstPaths ==> dstPaths[dst] == Resolve(fabric, dstRoutes[dst])
      decreases |todo|
    {
      var dst :| dst in todo;
      var pathNodes := ResolveNames(fabric, dstRoutes[dst]);
      dstPaths := dstPaths[dst := pathNodes];
      todo := todo - {dst};
    }
  }

  // ---------------------------------------------------------------------------
  // The clock net: routeCentroidToHorDistributionLines, setBUFCERowLeafTap, PIP dedup
  // ---------------------------------------------------------------------------

  /** The parts of a clock net the helpers change: its PIP list and the delays of its buffers. */
  class ClockNet {
    var pips: seq<Pip>
    var bufferDelay: map<SiteId, int>

    constructor (initialPips: seq<Pip>)
      ensures pips == initialPips && bufferDelay == map[]
    {
      pips := initialPips;
      bufferDelay := map[];
    }

    /** The final step of every clock router: the PIPs, each kept once. */
    method RemoveDuplicatePips()
      modifies this
      ensures Distinct(pips) && forall x :: x in pips <==> x in old(pips)
      ensures bufferDelay == old(bufferDelay)
    {
      var kept: seq<Pip> := [];
      var seen: set<Pip> := {};
      for i := 0 to |pips|
        invariant kept == Dedup(pips[..i])
        invariant forall x :: x in seen <==> x in kept
      {
        assert pips[..i + 1][..i] == pips[..i];
        if pips[i] !in seen {
          kept := kept + [pips[i]];
          seen := seen + {pips[i]};
        }
      }
      assert pips[..|pips|] == pips;
      DedupDistinct(pips);
      DedupSameElements(pips);
      pips := kept;
    }
  }

  /** The last node of a template path: its first node once the path is reversed. */
  function LastNode(path: seq<Node>): Node
    requires path != []
  {
    path[|path| - 1]
  }

  /**
   * routeCentroidToHorDistributionLines: each template path, reversed, has its PIPs
   * appended to the net; its new first node is kept as the region's horizontal
   * distribution line only if it is a NODE_GLOBAL_HDISTR. An empty path ends the
   * replay with an error (the lookup of its first node fails).
   */
  method RouteCentroidToHorDistributionLines(dev: Device, clk: ClockNet, crPaths: map<string, seq<Node>>)
    returns (r: Result<map<string, Node>, string>)
    modifies clk
    ensures r.Err? <==> exists cr :: cr in crPaths && crPaths[cr] == []
    ensures r.Err? ==> r.error in crPaths && crPaths[r.error] == []
    ensures |clk.pips| >= |old(clk.pips)| && clk.pips[..|old(clk.pips)|] == old(clk.pips)
    ensures r.Ok? ==> forall x :: x in clk.pips[|old(clk.pips)|..] <==>
      exists cr :: cr in crPaths && x in dev.pipsOfReversedPath(Reverse(crPaths[cr]))
    ensures r.Ok? ==> forall cr :: cr in r.value <==>
      cr in crPaths && crPaths[cr] != [] && dev.intent(LastNode(crPaths[cr])) == NodeGlobalHdistr
    ensures r.Ok? ==> forall cr :: cr in r.value ==> r.value[cr] == LastNode(crPaths[cr])
    ensures clk.bufferDelay == old(clk.bufferDelay)
  {
    var hor: map<string, Node> := map[];
    var todo := crPaths.Keys;
    ghost var added: seq<Pip> := [];
    while todo != {}
      invariant todo <= crPaths.Keys
      invariant clk.pips == old(clk.pips) + added
      invariant forall x :: x in added <==>
        exists cr :: cr in crPaths && cr !in todo && x in dev.pipsOfReversedPath(Reverse(crPaths[cr]))
      invariant forall cr :: cr in crPaths && cr !in todo ==> crPaths[cr] != []
      invariant forall cr :: cr in hor <==>
        cr in crPaths && cr !in todo && dev.intent(LastNode(crPaths[cr])) == NodeGlobalHdistr
      invariant forall cr :: cr in hor ==> hor[cr] == LastNode(crPaths[cr])
      invariant clk.bufferDelay == old(clk.bufferDelay)
      decreases |todo|
    {
      var cr :| cr in todo;
      var path := Reverse(crPaths[cr]);
      var newPips := dev.pipsOfReversedPath(path);
      clk.pips := clk.pips + newPips;
      added := added + newPips;
      if path == [] {
        return Err(cr);
      }
      var hdistr := path[0];
      todo := todo - {cr};
      if dev.intent(hdistr) != NodeGlobalHdistr {
        continue;
      }
      hor := hor[cr := hdistr];
    }
    assert clk.pips[|old(clk.pips)|..] == added;
    r := Ok(hor);
  }

  // ---------------------------------------------------------------------------
  // setBUFCERowLeafTap
  // ---------------------------------------------------------------------------

  /** The delay table: (clock region name, row buffer site name) to its taps, row tap first, leaf tap second. */
  type TapTable = map<(string, string), seq<int>>

  /** A PIP from a leaf clock buffer's input to its leaf output. */
  predicate IsLeafTapPip(fabric: ClockFabric, p: Pip) {
    ContainsText(fabric.nodeName(p.start), "_CLK_IN") && ContainsText(fabric.nodeName(p.end), "_CLK_LEAF")
  }

  /** `s` is the row buffer site of an entry among `keys`. */
  ghost predicate RowSiteOf(fabric: ClockFabric, keys: set<(string, string)>, s: SiteId) {
    exists k :: k in keys && fabric.siteByName(k.1) == s
  }

  /** `s` is the site of a leaf-tap PIP among `ps`, and the table has an entry for its clock region. */
  ghost predicate LeafSiteOf(fabric: ClockFabric, taps: TapTable, ps: seq<Pip>, s: SiteId) {
    && (exists i :: 0 <= i < |ps| && IsLeafTapPip(fabric, ps[i]) && fabric.siteOfNode(ps[i].start) == s)
    && exists k :: k in taps && k.0 == fabric.regionOfSite(s).name
  }

  /**
   * The delays after the row taps of the entries `done` and the leaf taps of the
   * PIPs `ps` were set: a leaf site has the leaf tap of an entry of its region, a row
   * site that is no leaf site has the row tap of its entry, and other delays are kept.
   */
  ghost predicate TapsSet(fabric: ClockFabric, taps: TapTable, done: set<(string, string)>, ps: seq<Pip>,
                          before: map<SiteId, int>, after: map<SiteId, int>)
  {
    && done <= taps.Keys
    && (forall s :: s in after <==> s in before || RowSiteOf(fabric, done, s) || LeafSiteOf(fabric, taps, ps, s))
    && (forall s {:trigger LeafSiteOf(fabric, taps, ps, s)} :: LeafSiteOf(fabric, taps, ps, s) ==>
          exists k :: k in taps && k.0 == fabric.regionOfSite(s).name && |taps[k]| >= 2 && after[s] == taps[k][1])
    && (forall s {:trigger RowSiteOf(fabric, done, s)} :: RowSiteOf(fabric, done, s) && !LeafSiteOf(fabric, taps, ps, s) ==>
          exists k :: k in done && fabric.siteByName(k.1) == s && |taps[k]| >= 1 && after[s] == taps[k][0])
    && (forall s :: s in before && !RowSiteOf(fabric, done, s) && !LeafSiteOf(fabric, taps, ps, s) ==> after[s] == before[s])
  }

  /** The delays after the row taps of the entries `done` were set: each row site has the row tap of an entry, other delays are kept. */
  ghost predicate RowTapsSet(fabric: ClockFabric, taps: TapTable, done: set<(string, string)>,
                             before: map<SiteId, int>, after: map<SiteId, int>)
  {
    && done <= taps.Keys
    && (forall s :: s in after <==> s in before || RowSiteOf(fabric, done, s))
    && (forall s {:trigger RowSiteOf(fabric, done, s)} :: RowSiteOf(fabric, done, s) ==>
          exists k :: k in done && fabric.siteByName(k.1) == s && |taps[k]| >= 1 && after[s] == taps[k][0])
    && (forall s :: s in before && !RowSiteOf(fabric, done, s) ==> after[s] == before[s])
  }

  /** Setting the row tap of one more entry. */
  lemma RowTapStep(fabric: ClockFabric, taps: TapTable, done: set<(string, string)>,
                   before: map<SiteId, int>, after: map<SiteId, int>, k: (string, string))
    requires RowTapsSet(fabric, taps, done, before, after) && k in taps && |taps[k]| >= 1
    ensures RowTapsSet(fabric, taps, done + {k}, before, after[fabric.siteByName(k.1) := taps[k][0]])
  {
    var after' := after[fabric.siteByName(k.1) := taps[k][0]];
    forall s | RowSiteOf(fabric, done + {k}, s)
      ensures exists k' :: k' in done + {k} && fabric.siteByName(k'.1) == s && |taps[k']| >= 1 && after'[s] == taps[k'][0]
    {
      if s != fabric.siteByName(k.1) {
        assert RowSiteOf(fabric, done, s);
        var k' :| k' in done && fabric.siteByName(k'.1) == s && |taps[k']| >= 1 && after[s] == taps[k'][0];
        assert after'[s] == taps[k'][0];
      }
    }
    forall s | s in before && !RowSiteOf(fabric, done + {k}, s)
      ensures after'[s] == before[s]
    {
      assert !RowSiteOf(fabric, done, s);
    }
  }

  /** Once the row taps are set, no PIP has been handled yet, so the row phase meets the whole assignment's description. */
  lemma RowTapsThenLeafTaps(fabric: ClockFabric, taps: TapTable, before: map<SiteId, int>, after: map<SiteId, int>)
    requires RowTapsSet(fabric, taps, taps.Keys, before, after)
    ensures TapsSet(fabric, taps, taps.Keys, [], before, after)
  {
    assert forall s :: !LeafSiteOf(fabric, taps, [], s);
  }

  /** Handling one more PIP: a leaf-tap PIP whose region has an entry sets its site's leaf tap. */
  lemma LeafTapStep(fabric: ClockFabric, taps: TapTable, ps: seq<Pip>, p: Pip,
                    before: map<SiteId, int>, after: map<SiteId, int>, after': map<SiteId, int>)
    requires TapsSet(fabric, taps, taps.Keys, ps, before, after)
    requires var s := fabric.siteOfNode(p.start);
      if IsLeafTapPip(fabric, p) && exists k :: k in taps && k.0 == fabric.regionOfSite(s).name then
        exists k :: k in taps && k.0 == fabric.regionOfSite(s).name && |taps[k]| >= 2 && after' == after[s := taps[k][1]]
      else after' == after
    ensures TapsSet(fabric, taps, taps.Keys, ps + [p], before, after')
  {
    forall s
      ensures LeafSiteOf(fabric, taps, ps + [p], s) <==>
        LeafSiteOf(fabric, taps, ps, s) || (s == fabric.siteOfNode(p.start) && IsLeafTapPip(fabric, p)
          && exists k :: k in taps && k.0 == fabric.regionOfSite(s).name)
    {
      LeafSitesGrow(fabric, taps, ps, p, s);
    }
  }

  /** The leaf sites of one more PIP: those before, and the PIP's own site if it is a leaf-tap PIP with an entry. */
  lemma LeafSitesGrow(fabric: ClockFabric, taps: TapTable, ps: seq<Pip>, p: Pip, s: SiteId)
    ensures LeafSiteOf(fabric, taps, ps + [p], s) <==>
      LeafSiteOf(fabric, taps, ps, s) || (s == fabric.siteOfNode(p.start) && IsLeafTapPip(fabric, p)
        && exists k :: k in taps && k.0 == fabric.regionOfSite(s).name)
  {
    var ps' := ps + [p];
    if LeafSiteOf(fabric, taps, ps, s) {
      var i :| 0 <= i < |ps| && IsLeafTapPip(fabric, ps[i]) && fabric.siteOfNode(ps[i].start) == s;
      assert ps'[i] == ps[i];
    }
    if s == fabric.siteOfNode(p.start) && IsLeafTapPip(fabric, p) {
      assert ps'[|ps|] == p;
    }
  }

  /**
   * Every entry of a clock region that some leaf-tap PIP of `ps` lies in holds a
   * leaf tap: `taps.get(1)` is only asked of such entries.
   */
  predicate LeafTapsPresent(fabric: ClockFabric, taps: TapTable, ps: seq<Pip>) {
    forall i, k ::
      (0 <= i < |ps| && IsLeafTapPip(fabric, ps[i]) && k in taps &&
       k.0 == fabric.regionOfSite(fabric.siteOfNode(ps[i].start)).name) ==> |taps[k]| >= 2
  }

  /** The inner loop of setBUFCERowLeafTap: the taps of an entry of clock region `cr` (the last one the iteration meets). */
  method FindRegionTaps(taps: TapTable, cr: string) returns (found: Option<seq<int>>)
    ensures found.None? <==> forall k :: k in taps ==> k.0 != cr
    ensures found.Some? ==> exists k :: k in taps && k.0 == cr && taps[k] == found.value
  {
    found := None;
    var todo := taps.Keys;
    while todo != {}
      invariant todo <= taps.Keys
      invariant found.None? <==> forall k :: k in taps && k !in todo ==> k.0 != cr
      invariant found.Some? ==> exists k :: k in taps && k.0 == cr && taps[k] == found.value
      decreases |todo|
    {
      var k :| k in todo;
      if k.0 == cr {
        found := Some(taps[k]);
      }
      todo := todo - {k};
    }
  }

  /** The first loop of setBUFCERowLeafTap: every row buffer site gets its entry's row tap. */
  method SetRowTaps(fabric: ClockFabric, clk: ClockNet, bufceRowTaps: TapTable)
    requires forall k :: k in bufceRowTaps ==> |bufceRowTaps[k]| >= 1
    modifies clk
    ensures clk.pips == old(clk.pips)
    ensures RowTapsSet(fabric, bufceRowTaps, bufceRowTaps.Keys, old(clk.bufferDelay), clk.bufferDelay)
  {
    ghost var done: set<(string, string)> := {};
    var todo := bufceRowTaps.Keys;
    while todo != {}
      invariant todo <= bufceRowTaps.Keys && done <= bufceRowTaps.Keys
      invariant forall k :: k in bufceRowTaps ==> (k in done <==> k !in todo)
      invariant RowTapsSet(fabric, bufceRowTaps, done, old(clk.bufferDelay), clk.bufferDelay)
      invariant clk.pips == old(clk.pips)
      decreases |todo|
    {
      var crSite :| crSite in todo;
      RowTapStep(fabric, bufceRowTaps, done, old(clk.bufferDelay), clk.bufferDelay, crSite);
      clk.bufferDelay := clk.bufferDelay[fabric.siteByName(crSite.1) := bufceRowTaps[crSite][0]];
      todo := todo - {crSite};
      done := done + {crSite};
    }
    assert done == bufceRowTaps.Keys;
  }

  /**
   * setBUFCERowLeafTap: with a nonempty table, every row buffer site gets its entry's
   * row tap, then the site of every leaf-tap PIP whose clock region has an entry gets
   * that entry's leaf tap.
   */
  method SetBufceRowLeafTap(fabric: ClockFabric, clk: ClockNet, bufceRowTaps: TapTable)
    requires forall k :: k in bufceRowTaps ==> |bufceRowTaps[k]| >= 1
    requires LeafTapsPresent(fabric, bufceRowTaps, clk.pips)
    modifies clk
    ensures clk.pips == old(clk.pips)
    ensures bufceRowTaps == map[] ==> clk.bufferDelay == old(clk.bufferDelay)
    ensures bufceRowTaps != map[] ==>
      TapsSet(fabric, bufceRowTaps, bufceRowTaps.Keys, clk.pips, old(clk.bufferDelay), clk.bufferDelay)
  {
    if bufceRowTaps == map[] {
      return;
    }
    SetRowTaps(fabric, clk, bufceRowTaps);
    RowTapsThenLeafTaps(fabric, bufceRowTaps, old(clk.bufferDelay), clk.bufferDelay);
    var pips := clk.pips;
    for i := 0 to |pips|
      invariant clk.pips == pips
      invariant TapsSet(fabric, bufceRowTaps, bufceRowTaps.Keys, pips[..i], old(clk.bufferDelay), clk.bufferDelay)
    {
      ghost var delays := clk.bufferDelay;
      var p := pips[i];
      if IsLeafTapPip(fabric, p) {
        var s := fabric.siteOfNode(p.start);
        var taps := FindRegionTaps(bufceRowTaps, fabric.regionOfSite(s).name);
        if taps.Some? {
          clk.bufferDelay := clk.bufferDelay[s := taps.value[1]];
        }
      }
      assert pips[..i + 1] == pips[..i] + [p];
      LeafTapStep(fabric, bufceRowTaps, pips[..i], p, old(clk.bufferDelay), delays, clk.bufferDelay);
    }
    assert pips[..|pips|] == pips;
  }
}
