/**
 * The slice of the device and design database that the global-signal router asks
 * questions of. Nodes, tiles and sites are identified by number; every query the
 * router makes of the device (uphill nodes, intent codes, wire names, route-thrus)
 * or of the design (which net drives a site wire) is a function field of `Device`.
 */
module Devices {
  import opened Wrappers
  import opened Strings

  type Node = nat
  type TileId = nat
  type SiteId = nat

  /** The types of net the router distinguishes. */
  datatype NetType = Wire | Vcc | Gnd | Clock | Unknown

  /** The wire intent codes the router tests for; every other code is `OtherIntent`. */
  datatype IntentCode =
    | NodeGlobalVdistr | NodeGlobalHroute | NodeGlobalHdistr | NodeHlong | NodeVlong
    | NodeGlobalVroute | NodeGlobalLeaf | NodeGlobalBufg | OtherIntent

  /** A programmable interconnect point, from one node to another. */
  datatype Pip = Pip(start: Node, end: Node)

  /** A used site: the type of the net, if any, on each of its site wires. */
  datatype SiteInst = SiteInst(netOnSiteWire: string -> Option<NetType>)

  /** A pin of a net: its direction, the node it connects to and the sites it sits in. */
  datatype Pin = Pin(isOutPin: bool, connectedNode: Node, tile: TileId, site: SiteId, intTile: TileId)

  datatype Device = Device(
    uphill: Node -> seq<Node>,
    /** `isRouteThru(from, to)`: the arc from `from` to `to` passes through a site. */
    isRouteThru: (Node, Node) -> bool,
    intent: Node -> IntentCode,
    tileOf: Node -> TileId,
    wireName: Node -> string,
    /** What the design places on the first site of the node's tile (`None`: the site is unused). */
    sliceOf: Node -> Option<SiteInst>,
    /** The PIPs joining the nodes of a path given sink first (`getPIPsFromListOfReversedNodes`). */
    pipsOfReversedPath: seq<Node> -> seq<Pip>)

  /** The names of the VCC and GND rail wires. */
  const VccWireName: string := "VCC_WIRE"
  const GndWireName: string := "GND_WIRE"

  const LutLetters: string := "ABCDEFGH"

  /** The sixteen LUT output wire names `CLE_CLE_{L,M}_SITE_0_{A..H}_O`. */
  const LutOutputPinNames: set<string> :=
    set cle <- "LM", pin <- LutLetters :: "CLE_CLE_" + [cle] + "_SITE_0_" + [pin] + "_O"

  /** The shape of a LUT output name: the CLE column letter at index 8, the LUT letter at index 17. */
  predicate IsLutOutputName(w: string) {
    |w| == 20 && w[..8] == "CLE_CLE_" && w[8] in "LM" && w[9..17] == "_SITE_0_"
    && w[17] in LutLetters && w[18..] == "_O"
  }

  lemma LutOutputPinNamesShape(w: string)
    ensures w in LutOutputPinNames <==> IsLutOutputName(w)
  {
    if IsLutOutputName(w) {
      assert w == "CLE_CLE_" + [w[8]] + "_SITE_0_" + [w[17]] + "_O";
    }
    if w in LutOutputPinNames {
      var cle, pin :| cle in "LM" && pin in LutLetters && w == "CLE_CLE_" + [cle] + "_SITE_0_" + [pin] + "_O";
      assert w[8] == cle && w[17] == pin;
    }
  }

  /** The LUT letter of a LUT output name is its third character from the end. */
  lemma LutOutputLetter(w: string)
    requires w in LutOutputPinNames
    ensures w[|w| - 3] in LutLetters && |w| == 20
  {
    LutOutputPinNamesShape(w);
  }

  /** The rail wire name a static net of type `t` looks for: any type but VCC looks for GND. */
  function RailName(t: NetType): (r: string)
    ensures r == VccWireName <==> t == Vcc
    ensures r == VccWireName || r == GndWireName
  {
    if t == Vcc then VccWireName else GndWireName
  }

  /**
   * isNodeUsableStaticSource: a rail wire of the net's kind, or a LUT output whose
   * site is unused, whose `<letter>_O` site wire carries no net, or carries a net of
   * the same type.
   */
  predicate UsableStaticSource(dev: Device, n: Node, t: NetType)
    ensures StartsWith(dev.wireName(n), RailName(t)) ==> UsableStaticSource(dev, n, t)
    ensures UsableStaticSource(dev, n, t) ==>
      StartsWith(dev.wireName(n), RailName(t)) || IsLutOutputName(dev.wireName(n))
  {
    var w := dev.wireName(n);
    LutOutputPinNamesShape(w);
    if StartsWith(w, RailName(t)) then true
    else if w in LutOutputPinNames then
      match dev.sliceOf(n)
      case None => true
      case Some(si) =>
        var driver := si.netOnSiteWire([w[|w| - 3]] + "_O");
        driver.None? || driver.value == t
    else false
  }

  /** isThisOurStaticSource: a node already on this net's routes, or a usable static source. */
  predicate IsOurStaticSource(dev: Device, n: Node, t: NetType, used: set<Node>)
    ensures IsOurStaticSource(dev, n, t, used) ==>
      n in used || StartsWith(dev.wireName(n), RailName(t)) || IsLutOutputName(dev.wireName(n))
  {
    n in used || UsableStaticSource(dev, n, t)
  }

  /** The intent codes of global clock resources and long wires, never used for static nets. */
  predicate PrunedIntent(ic: IntentCode) {
    ic in {NodeGlobalVdistr, NodeGlobalHroute, NodeGlobalHdistr, NodeHlong, NodeVlong,
           NodeGlobalVroute, NodeGlobalLeaf, NodeGlobalBufg}
  }

  /** pruneNode: the node is a pruned kind, unavailable, or already visited in this search. */
  predicate PruneNode(dev: Device, n: Node, unavailable: set<Node>, visited: set<Node>) {
    PrunedIntent(dev.intent(n)) || n in unavailable || n in visited
  }

  /**
   * A pruned node stays pruned while a search goes on, as the visited and unavailable
   * sets only grow; a visited node is always pruned, and so is every node whose intent
   * is a global clock resource or a long wire.
   */
  lemma PrunedStaysPruned(dev: Device, n: Node, unavailable: set<Node>, visited: set<Node>,
                          unavailable': set<Node>, visited': set<Node>)
    requires unavailable <= unavailable' && visited <= visited'
    ensures PruneNode(dev, n, unavailable, visited) ==> PruneNode(dev, n, unavailable', visited')
    ensures n in visited ==> PruneNode(dev, n, unavailable, visited)
    ensures PrunedIntent(dev.intent(n)) ==> PruneNode(dev, n, unavailable, visited)
  {
  }

  // ---------------------------------------------------------------------------
  // What the predicates decide
  // ---------------------------------------------------------------------------

  /** A wire that is neither a rail wire of the net's kind nor a LUT output is never a source. */
  lemma OtherWiresUnusable(dev: Device, n: Node, t: NetType)
    requires !StartsWith(dev.wireName(n), RailName(t)) && !IsLutOutputName(dev.wireName(n))
    ensures !UsableStaticSource(dev, n, t)
  {
    LutOutputPinNamesShape(dev.wireName(n));
  }

  /**
   * A LUT output that is not a rail wire is usable exactly when its site is unused,
   * its `<letter>_O` site wire has no net, or that net's type is the static net's type.
   */
  lemma LutOutputUsable(dev: Device, n: Node, t: NetType, letter: char)
    requires IsLutOutputName(dev.wireName(n)) && !StartsWith(dev.wireName(n), RailName(t))
    requires letter == dev.wireName(n)[17]
    ensures UsableStaticSource(dev, n, t) <==>
      dev.sliceOf(n).None? || dev.sliceOf(n).value.netOnSiteWire([letter] + "_O") in {None, Some(t)}
  {
    var w := dev.wireName(n);
    LutOutputPinNamesShape(w);
    assert w[|w| - 3] == letter;
    if dev.sliceOf(n).Some? {
      var driver := dev.sliceOf(n).value.netOnSiteWire([letter] + "_O");
      assert UsableStaticSource(dev, n, t) <==> driver.None? || driver.value == t;
    }
  }

  /** An unused LUT output can serve VCC and GND nets alike. */
  lemma UnusedLutServesBoth(dev: Device, n: Node)
    requires IsLutOutputName(dev.wireName(n)) && dev.sliceOf(n).None?
    ensures UsableStaticSource(dev, n, Vcc) && UsableStaticSource(dev, n, Gnd)
  {
    LutOutputPinNamesShape(dev.wireName(n));
  }

  /** A LUT output already driven by a VCC net is never a GND source. */
  lemma DrivenLutKeepsItsKind(dev: Device, n: Node)
    requires IsLutOutputName(dev.wireName(n)) && dev.sliceOf(n).Some?
    requires dev.sliceOf(n).value.netOnSiteWire([dev.wireName(n)[17]] + "_O") == Some(Vcc)
    ensures UsableStaticSource(dev, n, Vcc) && !UsableStaticSource(dev, n, Gnd)
  {
    LutOutputPinNamesShape(dev.wireName(n));
    assert dev.wireName(n)[..8] == "CLE_CLE_";
    assert !StartsWith(dev.wireName(n), GndWireName) by {
      assert dev.wireName(n)[0] == 'C';
    }
  }
}
