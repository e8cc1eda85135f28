/**
 * The routing-target rules of the partial router: which nets keep their routing
 * (are preserved) and which are handed to the router, and in what order the router's
 * bookkeeping calls are made. A net is reduced to the facts the rules test; the
 * router's state is the log of the calls it makes and its four counters.
 */
module PartialRouting {
  import opened Devices

  /** What the rules know of a net. */
  datatype NetFacts = NetFacts(
    id: nat,
    netType: NetType,
    hasPips: bool,
    /** `RouterHelper.isRoutableNetWithSourceSinks`: the net has a source and at least one sink. */
    routable: bool,
    sinkPinCount: nat,
    pins: seq<Pin>)

  /** The calls into the router the rules make, each naming its net. */
  datatype Action =
    | RemoveNetNodesFromPreserved(net: nat)
    | CreateNetWrapperReuse(net: nat)
    | Unroute(net: nat)
    | Preserve(net: nat)
    | AddClkNet(net: nat)
    | AddReservedNode(node: Node, net: nat)
    | AddStaticTargets(net: nat, sinks: seq<Pin>)
    | CreateNetWrapper(net: nat, multiSlr: bool)

  // ---------------------------------------------------------------------------
  // The constructor's conflict-net filter
  // ---------------------------------------------------------------------------

  /** A conflict net keeps its routing: it is no WIRE net, lacks a source or sinks, or has more than one sink pin. */
  predicate KeepsRouting(n: NetFacts) {
    n.netType != Wire || !n.routable || n.sinkPinCount > 1
  }

  /** The calls the first loop makes for the conflict nets it re-routes. */
  function RerouteActions(nets: seq<NetFacts>): seq<Action> {
    if nets == [] then []
    else
      var n := nets[|nets| - 1];
      RerouteActions(nets[..|nets| - 1])
        + if KeepsRouting(n) then [] else [RemoveNetNodesFromPreserved(n.id), CreateNetWrapperReuse(n.id), Unroute(n.id)]
  }

  /** The conflict nets that keep their routing, in order (`toPreserveNets`). */
  function ToPreserve(nets: seq<NetFacts>): seq<NetFacts> {
    if nets == [] then []
    else
      var rest := ToPreserve(nets[..|nets| - 1]);
      if KeepsRouting(nets[|nets| - 1]) then rest + [nets[|nets| - 1]] else rest
  }

  function PreserveActions(nets: seq<NetFacts>): seq<Action> {
    if nets == [] then [] else PreserveActions(nets[..|nets| - 1]) + [Preserve(nets[|nets| - 1].id)]
  }

  /** The nets re-routed are exactly the conflict nets that do not keep their routing, and none is preserved there. */
  lemma {:induction false} RerouteActionsMembers(nets: seq<NetFacts>, id: nat)
    ensures Unroute(id) in RerouteActions(nets) <==> exists k :: 0 <= k < |nets| && nets[k].id == id && !KeepsRouting(nets[k])
    ensures Preserve(id) !in RerouteActions(nets)
  {
    if nets != [] {
      var init := nets[..|nets| - 1];
      RerouteActionsMembers(init, id);
      assert forall k :: 0 <= k < |init| ==> init[k] == nets[k];
    }
  }

  /** The nets preserved are exactly the conflict nets that keep their routing, and none is unrouted there. */
  lemma {:induction false} PreserveActionsMembers(nets: seq<NetFacts>, id: nat)
    ensures Preserve(id) in PreserveActions(ToPreserve(nets)) <==> exists k :: 0 <= k < |nets| && nets[k].id == id && KeepsRouting(nets[k])
    ensures Unroute(id) !in PreserveActions(ToPreserve(nets))
  {
    if nets != [] {
      var init := nets[..|nets| - 1];
      PreserveActionsMembers(init, id);
      assert forall k :: 0 <= k < |init| ==> init[k] == nets[k];
      if KeepsRouting(nets[|nets| - 1]) {
        assert ToPreserve(nets)[..|ToPreserve(nets)| - 1] == ToPreserve(init);
      }
    }
  }

  /**
   * Every conflict net ends in exactly one outcome: it is preserved when it keeps its
   * routing, and is unrouted and re-wrapped otherwise.
   */
  lemma ConflictNetOutcome(nets: seq<NetFacts>, k: nat)
    requires k < |nets|
    requires forall i, j :: 0 <= i < j < |nets| ==> nets[i].id != nets[j].id
    ensures var log := RerouteActions(nets) + PreserveActions(ToPreserve(nets));
      && (Preserve(nets[k].id) in log <==> KeepsRouting(nets[k]))
      && (Unroute(nets[k].id) in log <==> !KeepsRouting(nets[k]))
  {
    RerouteActionsMembers(nets, nets[k].id);
    PreserveActionsMembers(nets, nets[k].id);
  }

  // ---------------------------------------------------------------------------
  // addStaticNetRoutingTargets
  // ---------------------------------------------------------------------------

  /** The input pins of a net, in order. */
  function InputPins(pins: seq<Pin>): seq<Pin> {
    if pins == [] then []
    else
      var rest := InputPins(pins[..|pins| - 1]);
      if pins[|pins| - 1].isOutPin then rest else rest + [pins[|pins| - 1]]
  }

  lemma {:induction false} InputPinsMembers(pins: seq<Pin>)
    ensures forall p :: p in InputPins(pins) <==> p in pins && !p.isOutPin
  {
    if pins != [] {
      InputPinsMembers(pins[..|pins| - 1]);
      assert pins == pins[..|pins| - 1] + [pins[|pins| - 1]];
    }
  }

  /** The reservation of every sink's connected node for the net, in sink order. */
  function Reservations(sinks: seq<Pin>, net: nat): (r: seq<Action>)
    ensures |r| == |sinks|
  {
    if sinks == [] then [] else Reservations(sinks[..|sinks| - 1], net) + [AddReservedNode(sinks[|sinks| - 1].connectedNode, net)]
  }

  /** The calls addStaticNetRoutingTargets makes for a static net. */
  function StaticActions(n: NetFacts): seq<Action> {
    var sinks := InputPins(n.pins);
    if sinks != [] && !n.hasPips then Reservations(sinks, n.id) + [AddStaticTargets(n.id, sinks)]
    else [Preserve(n.id)]
  }

  /**
   * A static net is preserved exactly when it has no input pins or already has PIPs;
   * otherwise it gets routing targets and is not preserved.
   */
  lemma StaticNetOutcome(n: NetFacts)
    ensures Preserve(n.id) in StaticActions(n) <==> InputPins(n.pins) == [] || n.hasPips
    ensures (exists sinks :: AddStaticTargets(n.id, sinks) in StaticActions(n)) <==> !(InputPins(n.pins) == [] || n.hasPips)
  {
    var sinks := InputPins(n.pins);
    if sinks != [] && !n.hasPips {
      ReservationsOnly(sinks, n.id);
      assert StaticActions(n)[|sinks|] == AddStaticTargets(n.id, sinks);
    }
  }

  lemma {:induction false} ReservationsOnly(sinks: seq<Pin>, net: nat)
    ensures forall a :: a in Reservations(sinks, net) ==> a.AddReservedNode?
  {
    if sinks != [] {
      ReservationsOnly(sinks[..|sinks| - 1], net);
    }
  }

  /** Every reservation names the net and a sink's connected node, and every sink's node is reserved. */
  lemma {:induction false} ReservationsCover(sinks: seq<Pin>, net: nat)
    ensures forall k :: 0 <= k < |sinks| ==> Reservations(sinks, net)[k] == AddReservedNode(sinks[k].connectedNode, net)
  {
    if sinks != [] {
      var init := sinks[..|sinks| - 1];
      ReservationsCover(init, net);
      assert forall k :: 0 <= k < |init| ==> init[k] == sinks[k];
    }
  }

  /**
   * When a static net is given routing targets, the targets are all its input pins,
   * and every input pin's connected node was reserved for the net before.
   */
  lemma ReservedBeforeTargets(n: NetFacts, t: nat, sinks: seq<Pin>)
    requires t < |StaticActions(n)| && StaticActions(n)[t] == AddStaticTargets(n.id, sinks)
    ensures forall p :: p in sinks <==> p in n.pins && !p.isOutPin
    ensures forall p :: p in n.pins && !p.isOutPin ==>
      exists i :: 0 <= i < t && StaticActions(n)[i] == AddReservedNode(p.connectedNode, n.id)
  {
    var all := InputPins(n.pins);
    InputPinsMembers(n.pins);
    ReservationsCover(all, n.id);
    ReservationsOnly(all, n.id);
    assert forall i :: 0 <= i < |all| ==> StaticActions(n)[i] == Reservations(all, n.id)[i];
    assert t == |all|;
    forall p | p in n.pins && !p.isOutPin
      ensures exists i :: 0 <= i < t && StaticActions(n)[i] == AddReservedNode(p.connectedNode, n.id)
    {
      var i :| 0 <= i < |all| && all[i] == p;
      assert StaticActions(n)[i] == Reservations(all, n.id)[i];
    }
  }

  // ---------------------------------------------------------------------------
  // The router
  // ---------------------------------------------------------------------------

  class PartialRouter2 {
    /** The calls made so far, in order. */
    var log: seq<Action>
    var numNotNeedingRouting: nat
    var numPreservedClks: nat
    var numPreservedStaticNets: nat
    var numPreservedWireNets: nat

    /**
     * The constructor's handling of the conflict nets: each one that does not keep its
     * routing has its nodes released, gets a wrapper reusing its connections and is
     * unrouted; then every conflict net that keeps its routing is preserved.
     */
    constructor (conflictNets: seq<NetFacts>)
      ensures log == RerouteActions(conflictNets) + PreserveActions(ToPreserve(conflictNets))
      ensures numNotNeedingRouting == 0 && numPreservedClks == 0
      ensures numPreservedStaticNets == 0 && numPreservedWireNets == 0
    {
      var actions: seq<Action> := [];
      var toPreserveNets: seq<NetFacts> := [];
      for i := 0 to |conflictNets|
        invariant actions == RerouteActions(conflictNets[..i])
        invariant toPreserveNets == ToPreserve(conflictNets[..i])
      {
        assert conflictNets[..i + 1][..i] == conflictNets[..i];
        var net := conflictNets[i];
        if net.netType != Wire {
          toPreserveNets := toPreserveNets + [net];
          continue;
        }
        if !net.routable {
          toPreserveNets := toPreserveNets + [net];
          continue;
        }
        if net.sinkPinCount > 1 {
          toPreserveNets := toPreserveNets + [net];
          continue;
        }
        actions := actions + [RemoveNetNodesFromPreserved(net.id)];
        actions := actions + [CreateNetWrapperReuse(net.id)];
        actions := actions + [Unroute(net.id)];
      }
      assert conflictNets[..|conflictNets|] == conflictNets;
      var rerouted := actions;
      for i := 0 to |toPreserveNets|
        invariant actions == rerouted + PreserveActions(toPreserveNets[..i])
      {
        assert toPreserveNets[..i + 1][..i] == toPreserveNets[..i];
        actions := actions + [Preserve(toPreserveNets[i].id)];
      }
      assert toPreserveNets[..|toPreserveNets|] == toPreserveNets;
      log := actions;
      numNotNeedingRouting := 0;
      numPreservedClks := 0;
      numPreservedStaticNets := 0;
      numPreservedWireNets := 0;
    }

    /**
     * addGlobalClkRoutingTargets: a clock net without PIPs becomes a clock target when
     * it has a source and sinks, and is counted as not needing routing otherwise; a
     * clock net with PIPs is preserved and counted.
     */
    method AddGlobalClkRoutingTargets(clk: NetFacts)
      modifies this
      ensures !clk.hasPips && clk.routable ==> log == old(log) + [AddClkNet(clk.id)]
      ensures !clk.hasPips && !clk.routable ==> log == old(log)
      ensures clk.hasPips ==> log == old(log) + [Preserve(clk.id)]
      ensures numNotNeedingRouting == old(numNotNeedingRouting) + (if !clk.hasPips && !clk.routable then 1 else 0)
      ensures numPreservedClks == old(numPreservedClks) + (if clk.hasPips then 1 else 0)
      ensures numPreservedStaticNets == old(numPreservedStaticNets) && numPreservedWireNets == old(numPreservedWireNets)
    {
      if !clk.hasPips {
        if clk.routable {
          log := log + [AddClkNet(clk.id)];
        } else {
          numNotNeedingRouting := numNotNeedingRouting + 1;
        }
      } else {
        log := log + [Preserve(clk.id)];
        numPreservedClks := numPreservedClks + 1;
      }
    }

    /**
     * addStaticNetRoutingTargets: a static net with input pins and no PIPs has every
     * input pin's node reserved and its input pins added as targets; with PIPs it is
     * preserved and counted; without input pins it is preserved and counted as not
     * needing routing.
     */
    method AddStaticNetRoutingTargets(staticNet: NetFacts)
      modifies this
      ensures log == old(log) + StaticActions(staticNet)
      ensures numNotNeedingRouting == old(numNotNeedingRouting) + (if InputPins(staticNet.pins) == [] then 1 else 0)
      ensures numPreservedStaticNets ==
        old(numPreservedStaticNets) + (if InputPins(staticNet.pins) != [] && staticNet.hasPips then 1 else 0)
      ensures numPreservedClks == old(numPreservedClks) && numPreservedWireNets == old(numPreservedWireNets)
    {
      var pins := staticNet.pins;
      var sinks: seq<Pin> := [];
      for i := 0 to |pins|
        invariant sinks == InputPins(pins[..i])
      {
        assert pins[..i + 1][..i] == pins[..i];
        if pins[i].isOutPin {
          continue;
        }
        sinks := sinks + [pins[i]];
      }
      assert pins[..|pins|] == pins;
      if |sinks| > 0 {
        if !staticNet.hasPips {
          ghost var start := log;
          for i := 0 to |sinks|
            invariant log == start + Reservations(sinks[..i], staticNet.id)
            invariant numNotNeedingRouting == old(numNotNeedingRouting) && numPreservedClks == old(numPreservedClks)
            invariant numPreservedStaticNets == old(numPreservedStaticNets) && numPreservedWireNets == old(numPreservedWireNets)
          {
            assert sinks[..i + 1][..i] == sinks[..i];
            log := log + [AddReservedNode(sinks[i].connectedNode, staticNet.id)];
          }
          assert sinks[..|sinks|] == sinks;
          log := log + [AddStaticTargets(staticNet.id, sinks)];
        } else {
          log := log + [Preserve(staticNet.id)];
          numPreservedStaticNets := numPreservedStaticNets + 1;
        }
      } else {
        log := log + [Preserve(staticNet.id)];
        numNotNeedingRouting := numNotNeedingRouting + 1;
      }
    }

    /**
     * addNetConnectionToRoutingTargets: a wire net without PIPs gets a wrapper and
     * connections; one with PIPs is preserved and counted.
     */
    method AddNetConnectionToRoutingTargets(net: NetFacts, multiSlr: bool)
      modifies this
      ensures log == old(log) + [if net.hasPips then Preserve(net.id) else CreateNetWrapper(net.id, multiSlr)]
      ensures numPreservedWireNets == old(numPreservedWireNets) + (if net.hasPips then 1 else 0)
      ensures numNotNeedingRouting == old(numNotNeedingRouting) && numPreservedClks == old(numPreservedClks)
      ensures numPreservedStaticNets == old(numPreservedStaticNets)
    {
      if !net.hasPips {
        log := log + [CreateNetWrapper(net.id, multiSlr)];
      } else {
        log := log + [Preserve(net.id)];
        numPreservedWireNets := numPreservedWireNets + 1;
      }
    }
  }
}
