/**
 * Routing of a static (VCC or GND) net: for each input pin, a breadth-first search
 * backwards over uphill nodes from the pin's connected node until a node that can
 * drive the net is dequeued; the path is then traced back along `prev` pointers.
 *
 * The router keeps one wrapper per node (`createdRoutingNodes`); a wrapper is
 * identified with its node, and the cache is modelled by the wrapper's `prev`
 * pointer for every node that has a wrapper.
 */
module StaticRouting {
  import opened Wrappers
  import opened Sequences
  import opened Devices

  /** The expansions a single sink's search may make before it gives up, less one. */
  const Watchdog: int := 10000

  /**
   * `n` may be reached from `p` during the search: `n` is uphill of `p` without a
   * route-thru, and is not a global clock resource, a long wire, or unavailable.
   */
  predicate Arc(dev: Device, unavailable: set<Node>, p: Node, n: Node) {
    n in dev.uphill(p) && !dev.isRouteThru(n, p) && !PrunedIntent(dev.intent(n)) && n !in unavailable
  }

  /** `u` enqueues its uphill node `x`: the arc is no route-thru and `pruneNode` keeps `x`. */
  predicate Enqueues(dev: Device, unavailable: set<Node>, visited: set<Node>, u: Node, x: Node) {
    !dev.isRouteThru(x, u) && !PruneNode(dev, x, unavailable, visited)
  }

  /** The nodes of `ups` that `u` enqueues, in order. */
  function Enqueued(dev: Device, unavailable: set<Node>, visited: set<Node>, u: Node, ups: seq<Node>): (r: seq<Node>)
    ensures |r| <= |ups|
  {
    if ups == [] then []
    else
      var rest := Enqueued(dev, unavailable, visited, u, ups[..|ups| - 1]);
      if Enqueues(dev, unavailable, visited, u, ups[|ups| - 1]) then rest + [ups[|ups| - 1]] else rest
  }

  /** What is enqueued is exactly the uphill nodes that pass both tests. */
  lemma {:induction false} EnqueuedMembers(dev: Device, unavailable: set<Node>, visited: set<Node>, u: Node, ups: seq<Node>)
    ensures forall x :: x in Enqueued(dev, unavailable, visited, u, ups) <==>
      x in ups && Enqueues(dev, unavailable, visited, u, x)
  {
    if ups != [] {
      EnqueuedMembers(dev, unavailable, visited, u, ups[..|ups| - 1]);
      assert ups == ups[..|ups| - 1] + [ups[|ups| - 1]];
    }
  }

  /** A node that `u` enqueues is reachable from `u` along an arc, and was not visited. */
  lemma EnqueuedIsArc(dev: Device, unavailable: set<Node>, visited: set<Node>, u: Node, x: Node)
    requires x in Enqueued(dev, unavailable, visited, u, dev.uphill(u))
    ensures Arc(dev, unavailable, u, x) && x !in visited
  {
    EnqueuedMembers(dev, unavailable, visited, u, dev.uphill(u));
  }

  /** The `prev` of `x` after an expansion of `u`: `u` if `x` was enqueued, else as before (null for a new wrapper). */
  function Repointed(prev: map<Node, Option<Node>>, x: Node, enqueued: bool, u: Node): Option<Node> {
    if enqueued then Some(u) else if x in prev then prev[x] else None
  }

  /**
   * The search so far: every dequeued node but the seed has a `prev` that was
   * dequeued strictly before it (`rank` is the order of first dequeue) along an arc,
   * and the seed's `prev` is null.
   */
  ghost predicate SearchTree(dev: Device, unavailable: set<Node>, seed: Node,
                             prev: map<Node, Option<Node>>, visited: set<Node>, rank: map<Node, nat>)
  {
    && (forall n :: n in visited ==> n in prev && n in rank)
    && seed in prev && prev[seed] == None
    && forall n {:trigger prev[n]} :: n in visited && n != seed ==>
         prev[n].Some? && prev[n].value in visited && rank[prev[n].value] < rank[n]
         && Arc(dev, unavailable, prev[n].value, n)
  }

  /** Every queued node has a wrapper, and every queued node but the seed was reached along an arc from a dequeued node. */
  ghost predicate QueueReached(dev: Device, unavailable: set<Node>, seed: Node,
                               prev: map<Node, Option<Node>>, visited: set<Node>, q: seq<Node>)
  {
    forall k :: 0 <= k < |q| ==>
      q[k] in prev && (q[k] != seed ==> prev[q[k]].Some? && prev[q[k]].value in visited && Arc(dev, unavailable, prev[q[k]].value, q[k]))
  }

  /**
   * A route for one sink, listed sink first as the router returns it: it starts at
   * the sink's connected node, each next node is reached along an arc, and no node
   * repeats.
   */
  ghost predicate SinkRoute(dev: Device, unavailable: set<Node>, seed: Node, p: seq<Node>) {
    && p != [] && p[0] == seed && Distinct(p)
    && forall i :: 0 <= i < |p| - 1 ==> Arc(dev, unavailable, p[i], p[i + 1])
  }

  /**
   * A static route never runs over a global clock resource, a long wire or an
   * unavailable node: every node after the sink's own node passed `pruneNode`'s tests.
   */
  lemma RouteAvoidsPruned(dev: Device, unavailable: set<Node>, seed: Node, p: seq<Node>)
    requires SinkRoute(dev, unavailable, seed, p)
    ensures forall k :: 1 <= k < |p| ==> !PrunedIntent(dev.intent(p[k])) && p[k] !in unavailable
  {
    forall k | 1 <= k < |p|
      ensures !PrunedIntent(dev.intent(p[k])) && p[k] !in unavailable
    {
      assert Arc(dev, unavailable, p[k - 1], p[k]);
    }
  }

  /**
   * A route found for one sink: it ends at the first node that is a source for the
   * net (already on the net's routes, or a usable static source), and no node before
   * its end is one.
   */
  ghost predicate SourceRoute(dev: Device, unavailable: set<Node>, netType: NetType, used: set<Node>, seed: Node, p: seq<Node>) {
    && SinkRoute(dev, unavailable, seed, p)
    && IsOurStaticSource(dev, p[|p| - 1], netType, used)
    && forall k :: 0 <= k < |p| - 1 ==> !IsOurStaticSource(dev, p[k], netType, used)
  }

  /**
   * The search has not lost sight of any node: every node reached along an arc from
   * a node of `done` is dequeued already or still waiting in the queue.
   */
  ghost predicate Covered(dev: Device, unavailable: set<Node>, done: set<Node>, visited: set<Node>, q: seq<Node>) {
    forall v, x :: v in done && Arc(dev, unavailable, v, x) ==> x in visited || x in q
  }

  /**
   * What the search for one sink decides, one pass of routeStaticNet's loop per call:
   * the first dequeued node that is our static source, if the search meets one, and
   * how many dequeued nodes it expanded. `watchdog` is the number of expansions
   * still allowed after the next one; the search gives up once it is used up.
   */
  function SearchRun(dev: Device, unavailable: set<Node>, netType: NetType, used: set<Node>,
                     q: seq<Node>, visited: set<Node>, watchdog: nat): (r: (Option<Node>, nat))
    ensures r.1 <= watchdog + 1
    ensures r.0.Some? ==> IsOurStaticSource(dev, r.0.value, netType, used)
    decreases watchdog
  {
    if q == [] then (None, 0)
    else
      var n := q[0];
      var visited' := visited + {n};
      if IsOurStaticSource(dev, n, netType, used) then (Some(n), 0)
      else if watchdog == 0 then (None, 1)
      else
        var q' := q[1..] + Enqueued(dev, unavailable, visited', n, dev.uphill(n));
        var r := SearchRun(dev, unavailable, netType, used, q', visited', watchdog - 1);
        (r.0, r.1 + 1)
  }

  /** A search whose next dequeued node is our static source ends there, expanding nothing more. */
  lemma SearchRunMeetsSource(dev: Device, unavailable: set<Node>, netType: NetType, used: set<Node>,
                             q: seq<Node>, visited: set<Node>, watchdog: nat)
    requires q != [] && IsOurStaticSource(dev, q[0], netType, used)
    ensures SearchRun(dev, unavailable, netType, used, q, visited, watchdog) == (Some(q[0]), 0)
  {
  }

  /** With no expansion left, a search whose next node is no source expands it and gives up. */
  lemma SearchRunGivesUp(dev: Device, unavailable: set<Node>, netType: NetType, used: set<Node>,
                         q: seq<Node>, visited: set<Node>)
    requires q != [] && !IsOurStaticSource(dev, q[0], netType, used)
    ensures SearchRun(dev, unavailable, netType, used, q, visited, 0) == (None, 1)
  {
  }

  /** Otherwise the search expands its next node and goes on with one expansion fewer. */
  lemma SearchRunExpands(dev: Device, unavailable: set<Node>, netType: NetType, used: set<Node>,
                         q: seq<Node>, visited: set<Node>, watchdog: nat,
                         q': seq<Node>, visited': set<Node>, watchdog': nat)
    requires q != [] && !IsOurStaticSource(dev, q[0], netType, used) && watchdog == watchdog' + 1
    requires visited' == visited + {q[0]} && q' == q[1..] + Enqueued(dev, unavailable, visited', q[0], dev.uphill(q[0]))
    ensures SearchRun(dev, unavailable, netType, used, q, visited, watchdog).0
            == SearchRun(dev, unavailable, netType, used, q', visited', watchdog').0
    ensures SearchRun(dev, unavailable, netType, used, q, visited, watchdog).1
            == SearchRun(dev, unavailable, netType, used, q', visited', watchdog').1 + 1
  {
  }

  /** The invariant of one sink's search loop. */
  ghost predicate Searching(dev: Device, unavailable: set<Node>, netType: NetType, used: set<Node>, seed: Node,
                            prev: map<Node, Option<Node>>, visited: set<Node>, rank: map<Node, nat>, next: nat, q: seq<Node>)
  {
    && SearchTree(dev, unavailable, seed, prev, visited, rank)
    && (forall m :: m in rank ==> rank[m] < next)
    && (seed !in visited ==> q == [seed])
    && QueueReached(dev, unavailable, seed, prev, visited, q)
    && (forall n :: n in visited ==> !IsOurStaticSource(dev, n, netType, used))
    && Covered(dev, unavailable, visited, visited, q)
  }

  class GlobalSignalRouting {
    /** The wrapper cache: the nodes that have a wrapper, each with its `prev` pointer. */
    var prev: map<Node, Option<Node>>

    constructor ()
      ensures prev == map[]
    {
      prev := map[];
    }

    /** createRoutingNode: the node's cached wrapper, created with a null `prev` on first use. */
    method CreateRoutingNode(n: Node)
      modifies this
      ensures prev == if n in old(prev) then old(prev) else old(prev)[n := None]
    {
      if n !in prev {
        prev := prev[n := None];
      }
    }

    /**
     * Expands the dequeued node `u`: every uphill node that is not a route-thru gets
     * a wrapper, and those `pruneNode` keeps get `u` as their `prev` and join the queue.
     */
    method Expand(dev: Device, unavailable: set<Node>, visited: set<Node>, u: Node, q: seq<Node>)
      returns (q': seq<Node>)
      modifies this
      ensures q' == q + Enqueued(dev, unavailable, visited, u, dev.uphill(u))
      ensures forall x :: x in prev <==> x in old(prev) || (x in dev.uphill(u) && !dev.isRouteThru(x, u))
      ensures forall x :: x in prev ==>
        prev[x] == Repointed(old(prev), x, x in dev.uphill(u) && Enqueues(dev, unavailable, visited, u, x), u)
    {
      var ups := dev.uphill(u);
      q' := q;
      for j := 0 to |ups|
        invariant q' == q + Enqueued(dev, unavailable, visited, u, ups[..j])
        invariant forall x :: x in prev <==> x in old(prev) || (x in ups[..j] && !dev.isRouteThru(x, u))
        invariant forall x :: x in prev ==>
          prev[x] == Repointed(old(prev), x, x in ups[..j] && Enqueues(dev, unavailable, visited, u, x), u)
      {
        var x := ups[j];
        assert ups[..j + 1] == ups[..j] + [x];
        q' := ExpandUphill(dev, unavailable, visited, u, x, q');
      }
      assert ups[..|ups|] == ups;
    }

    /** One uphill node `x` of `u`: a wrapper unless the arc is a route-thru, and enqueued when `pruneNode` keeps it. */
    method ExpandUphill(dev: Device, unavailable: set<Node>, visited: set<Node>, u: Node, x: Node, q: seq<Node>)
      returns (q': seq<Node>)
      modifies this
      ensures q' == if Enqueues(dev, unavailable, visited, u, x) then q + [x] else q
      ensures forall y :: y in prev <==> y in old(prev) || (y == x && !dev.isRouteThru(x, u))
      ensures forall y :: y in prev ==>
        prev[y] == Repointed(old(prev), y, y == x && Enqueues(dev, unavailable, visited, u, x), u)
    {
      q' := q;
      if !dev.isRouteThru(x, u) {
        CreateRoutingNode(x);
        if !PruneNode(dev, x, unavailable, visited) {
          prev := prev[x := Some(u)];
          q' := q' + [x];
        }
      }
    }

    /** Traces back from the first dequeued source: the path found is a route to that source. */
    method TraceBackToSource(ghost dev: Device, ghost unavailable: set<Node>, ghost netType: NetType, ghost seed: Node,
                             found: Node, ghost visited: set<Node>, ghost earlier: set<Node>, ghost rank: map<Node, nat>,
                             used: set<Node>)
      returns (path: seq<Node>, usedAfter: set<Node>)
      requires SearchTree(dev, unavailable, seed, prev, visited, rank)
      requires visited == earlier + {found} && IsOurStaticSource(dev, found, netType, used)
      requires forall n :: n in earlier ==> !IsOurStaticSource(dev, n, netType, used)
      ensures SourceRoute(dev, unavailable, netType, used, seed, path) && path[|path| - 1] == found
      ensures usedAfter == used + set x: Node | x in path
    {
      path, usedAfter := TraceBack(dev, unavailable, seed, found, visited, rank, used);
      TracedToSource(dev, unavailable, netType, used, seed, path, earlier);
    }

    /** Expands a dequeued node that is no source, keeping the invariants of the search. */
    method ExpandVisited(dev: Device, unavailable: set<Node>, ghost seed: Node, visited: set<Node>,
                         ghost rank: map<Node, nat>, ghost done: set<Node>, n: Node, q: seq<Node>)
      returns (q': seq<Node>)
      requires SearchTree(dev, unavailable, seed, prev, visited, rank) && seed in visited
      requires QueueReached(dev, unavailable, seed, prev, visited, q)
      requires Covered(dev, unavailable, done, visited, q) && visited == done + {n}
      modifies this
      ensures q' == q + Enqueued(dev, unavailable, visited, n, dev.uphill(n))
      ensures SearchTree(dev, unavailable, seed, prev, visited, rank)
      ensures QueueReached(dev, unavailable, seed, prev, visited, q')
      ensures Covered(dev, unavailable, visited, visited, q')
    {
      ghost var prevBefore := prev;
      q' := Expand(dev, unavailable, visited, n, q);
      ExpandKeepsTree(dev, unavailable, seed, prevBefore, prev, visited, rank, n);
      ExpandKeepsQueue(dev, unavailable, seed, prevBefore, prev, visited, n, q, q');
      ExpandKeepsCover(dev, unavailable, done, visited, n, q, q');
    }

    /**
     * Follows the `prev` pointers from the dequeued source `found` back to the seed,
     * adding every node to `used`; the collected list is then reversed, so the path
     * is returned sink first.
     */
    method TraceBack(ghost dev: Device, ghost unavailable: set<Node>, ghost seed: Node, found: Node,
                     ghost visited: set<Node>, ghost rank: map<Node, nat>, used: set<Node>)
      returns (path: seq<Node>, usedAfter: set<Node>)
      requires SearchTree(dev, unavailable, seed, prev, visited, rank)
      requires found in visited
      ensures SinkRoute(dev, unavailable, seed, path) && path[|path| - 1] == found
      ensures forall x :: x in path ==> x in visited
      ensures forall k :: 0 <= k < |path| - 1 ==> path[k] != found
      ensures usedAfter == used + set x: Node | x in path
    {
      var cur := Some(found);
      var pathNodes: seq<Node> := [];
      usedAfter := used;
      while cur.Some?
        invariant Chain(dev, unavailable, visited, rank, pathNodes)
        invariant pathNodes == [] ==> cur == Some(found)
        invariant pathNodes != [] ==> pathNodes[0] == found && cur == prev[pathNodes[|pathNodes| - 1]]
        invariant cur.Some? ==> cur.value in visited
        invariant cur.Some? && pathNodes != [] ==>
          rank[cur.value] < rank[pathNodes[|pathNodes| - 1]] && Arc(dev, unavailable, cur.value, pathNodes[|pathNodes| - 1])
        invariant cur.None? ==> pathNodes != [] && pathNodes[|pathNodes| - 1] == seed
        invariant usedAfter == used + set x: Node | x in pathNodes
        decreases if cur.Some? then rank[cur.value] + 1 else 0
      {
        var n := cur.value;
        usedAfter := usedAfter + {n};
        ChainExtend(dev, unavailable, visited, rank, pathNodes, n);
        pathNodes := pathNodes + [n];
        cur := prev[n];
      }
      path := Reverse(pathNodes);
      ChainReversed(dev, unavailable, visited, rank, pathNodes);
      assert forall k :: 0 <= k < |path| - 1 ==> path[k] != path[|path| - 1];
    }

    /**
     * One pass of the search loop: the next node is dequeued and marked visited; the
     * path is traced back if it is our static source, and otherwise it is expanded.
     */
    method SearchPass(dev: Device, ghost seed: Node, netType: NetType, unavailable: set<Node>, used: set<Node>,
                      q: seq<Node>, visited: set<Node>, ghost rank: map<Node, nat>, ghost next: nat)
      returns (path: Option<seq<Node>>, usedAfter: set<Node>, q': seq<Node>, visited': set<Node>,
               ghost rank': map<Node, nat>, ghost next': nat)
      requires q != [] && Searching(dev, unavailable, netType, used, seed, prev, visited, rank, next, q)
      modifies this
      ensures visited' == visited + {q[0]}
      ensures path.Some? <==> IsOurStaticSource(dev, q[0], netType, used)
      ensures path.Some? ==>
        && SourceRoute(dev, unavailable, netType, used, seed, path.value) && path.value[|path.value| - 1] == q[0]
        && usedAfter == used + set x: Node | x in path.value
      ensures path.None? ==>
        && usedAfter == used
        && q' == q[1..] + Enqueued(dev, unavailable, visited', q[0], dev.uphill(q[0]))
        && Searching(dev, unavailable, netType, used, seed, prev, visited', rank', next', q')
    {
      var n := q[0];
      DequeueKeepsSearch(dev, unavailable, seed, prev, visited, rank, next, q);
      DequeueKeepsCover(dev, unavailable, visited, visited, q);
      q' := q[1..];
      rank', next' := rank, next;
      if n !in visited {
        rank' := rank[n := next];
        next' := next + 1;
      }
      visited' := visited + {n};
      usedAfter := used;
      if IsOurStaticSource(dev, n, netType, used) {
        var p;
        p, usedAfter := TraceBackToSource(dev, unavailable, netType, seed, n, visited', visited, rank', used);
        path := Some(p);
        return;
      }
      path := None;
      q' := ExpandVisited(dev, unavailable, seed, visited', rank', visited, n, q');
    }

    /**
     * The search for one sink. It stops at the first dequeued node that is a source
     * for the net (a node already on the net's routes, or a usable static source),
     * and gives up when the queue runs empty or after 10001 expansions.
     */
    method SearchSink(dev: Device, seed: Node, netType: NetType, unavailable: set<Node>, used: set<Node>)
      returns (path: Option<seq<Node>>, usedAfter: set<Node>, expansions: nat)
      modifies this
      ensures expansions <= Watchdog + 1
      ensures path.None? ==> usedAfter == used
      ensures path.None? && expansions <= Watchdog ==> forall p :: !SourceRoute(dev, unavailable, netType, used, seed, p)
      ensures path.Some? ==>
        SourceRoute(dev, unavailable, netType, used, seed, path.value) && usedAfter == used + set x: Node | x in path.value
      ensures expansions == SearchRun(dev, unavailable, netType, used, [seed], {}, Watchdog).1
      ensures path.Some? <==> SearchRun(dev, unavailable, netType, used, [seed], {}, Watchdog).0.Some?
      ensures path.Some? ==> SearchRun(dev, unavailable, netType, used, [seed], {}, Watchdog).0 == Some(path.value[|path.value| - 1])
    {
      CreateRoutingNode(seed);
      prev := prev[seed := None];
      var q := [seed];
      var visited: set<Node> := {};
      ghost var rank: map<Node, nat> := map[];
      ghost var next: nat := 0;
      var watchdog := Watchdog;
      expansions := 0;
      path := None;
      usedAfter := used;
      ghost var run := SearchRun(dev, unavailable, netType, used, q, visited, watchdog);
      while q != []
        invariant Searching(dev, unavailable, netType, used, seed, prev, visited, rank, next, q)
        invariant 0 <= watchdog && expansions == Watchdog - watchdog
        invariant path.None? && usedAfter == used
        invariant run.0 == SearchRun(dev, unavailable, netType, used, q, visited, watchdog).0
        invariant run.1 == SearchRun(dev, unavailable, netType, used, q, visited, watchdog).1 + expansions
        decreases watchdog
      {
        ghost var qBefore, visitedBefore, wBefore := q, visited, watchdog;
        var found;
        found, usedAfter, q, visited, rank, next := SearchPass(dev, seed, netType, unavailable, used, q, visited, rank, next);
        if found.Some? {
          path := found;
          SearchRunMeetsSource(dev, unavailable, netType, used, qBefore, visitedBefore, wBefore);
          break;
        }
        expansions := expansions + 1;
        watchdog := watchdog - 1;
        if watchdog < 0 {
          SearchRunGivesUp(dev, unavailable, netType, used, qBefore, visitedBefore);
          break;
        }
        SearchRunExpands(dev, unavailable, netType, used, qBefore, visitedBefore, wBefore, q, visited, watchdog);
      }
      if path.None? && q == [] {
        NoSourceRouteLeft(dev, unavailable, netType, used, seed, visited);
      }
    }

    /**
     * routeStaticNet: searches a route for every input pin in pin order, sharing the
     * nodes of earlier routes as sources. A pin whose search fails is left out of the
     * returned map and not marked routed; the net's PIPs are those of the found routes.
     */
    method RouteStaticNet(dev: Device, pins: seq<Pin>, netType: NetType, unavailable: set<Node>)
      returns (sinkPathNodes: map<nat, seq<Node>>, netPips: set<Pip>, routed: set<nat>)
      modifies this
      ensures routed == sinkPathNodes.Keys
      ensures forall k :: k in sinkPathNodes ==>
        k < |pins| && !pins[k].isOutPin && SinkRoute(dev, unavailable, pins[k].connectedNode, sinkPathNodes[k])
      ensures forall k {:trigger SharesOnlyItsSource(dev, netType, sinkPathNodes, k)} :: k in sinkPathNodes ==> SharesOnlyItsSource(dev, netType, sinkPathNodes, k)
      ensures FailuresExplained(dev, unavailable, netType, pins, sinkPathNodes, |pins|)
      ensures forall x :: x in netPips <==>
        exists k :: k in sinkPathNodes && x in dev.pipsOfReversedPath(sinkPathNodes[k])
    {
      sinkPathNodes := map[];
      routed := {};
      var used: set<Node> := {};
      for i: nat := 0 to |pins|
        invariant routed == sinkPathNodes.Keys
        invariant RouteState(dev, unavailable, netType, pins, i, sinkPathNodes, used)
      {
        sinkPathNodes, used := RoutePin(dev, pins, netType, unavailable, i, sinkPathNodes, used);
        if i in sinkPathNodes {
          routed := routed + {i};
        }
      }
      netPips := NetPips(dev, sinkPathNodes, |pins|);
    }

    /** One pass of routeStaticNet's loop: pin `i` is skipped if it is an output, else searched and, when found, routed. */
    method RoutePin(dev: Device, pins: seq<Pin>, netType: NetType, unavailable: set<Node>, i: nat,
                    paths: map<nat, seq<Node>>, used: set<Node>)
      returns (paths': map<nat, seq<Node>>, used': set<Node>)
      requires i < |pins| && RouteState(dev, unavailable, netType, pins, i, paths, used)
      modifies this
      ensures RouteState(dev, unavailable, netType, pins, i + 1, paths', used')
      ensures paths'.Keys == paths.Keys || paths'.Keys == paths.Keys + {i}
    {
      paths', used' := paths, used;
      if pins[i].isOutPin {
        RoutesSoFarNext(dev, unavailable, netType, pins, i, paths, used);
        return;
      }
      var path, usedAfter, expansions := SearchSink(dev, pins[i].connectedNode, netType, unavailable, used);
      if path.Some? {
        RouteFoundPin(dev, unavailable, netType, pins, i, paths, used, path.value, usedAfter);
        paths' := paths[i := path.value];
        used' := usedAfter;
      } else {
        RouteFailedPin(dev, unavailable, netType, pins, i, paths, used, expansions);
      }
    }

    /** The union of the PIPs of the routes of the pins before `n` (all routes when no pin index reaches `n`). */
    static method NetPips(dev: Device, sinkPathNodes: map<nat, seq<Node>>, n: nat) returns (netPips: set<Pip>)
      ensures forall x :: x in netPips <==>
        exists k :: k in sinkPathNodes && k < n && x in dev.pipsOfReversedPath(sinkPathNodes[k])
    {
      netPips := {};
      for i: nat := 0 to n
        invariant forall x :: x in netPips <==>
          exists k :: k in sinkPathNodes && k < i && x in dev.pipsOfReversedPath(sinkPathNodes[k])
      {
        if i in sinkPathNodes {
          netPips := netPips + set x | x in dev.pipsOfReversedPath(sinkPathNodes[i]);
        }
      }
    }
  }

  /** The nodes on the routes of the pins before `k`: the sources pin `k`'s search may end at. */
  ghost function UsedBefore(paths: map<nat, seq<Node>>, k: nat): set<Node> {
    set j, x | j in paths && j < k && x in paths[j] :: x
  }

  /** What the search for pin `k` decides, given the routes of the pins before it. */
  ghost function PinSearch(dev: Device, unavailable: set<Node>, netType: NetType, pins: seq<Pin>,
                     paths: map<nat, seq<Node>>, k: nat): (Option<Node>, nat)
    requires k < |pins|
  {
    SearchRun(dev, unavailable, netType, UsedBefore(paths, k), [pins[k].connectedNode], {}, Watchdog)
  }

  /**
   * The outcome of input pin `k` is the outcome of its search: it has a route exactly
   * when the search meets a source, the route ends at that source, and a pin without
   * a route whose search stayed within the budget has no route at all to a usable
   * static source or to a node of an earlier pin's route.
   */
  ghost predicate PinExplained(dev: Device, unavailable: set<Node>, netType: NetType, pins: seq<Pin>,
                               paths: map<nat, seq<Node>>, k: nat)
    requires k < |pins|
  {
    var run := PinSearch(dev, unavailable, netType, pins, paths, k);
    && (k in paths <==> run.0.Some?)
    && (k in paths ==> paths[k] != [] && paths[k][|paths[k]| - 1] == run.0.value)
    && (k !in paths && run.1 <= Watchdog ==>
          forall p :: !SourceRoute(dev, unavailable, netType, UsedBefore(paths, k), pins[k].connectedNode, p))
  }

  /** Every input pin before `i` has the outcome of its search. */
  ghost predicate FailuresExplained(dev: Device, unavailable: set<Node>, netType: NetType, pins: seq<Pin>,
                                    paths: map<nat, seq<Node>>, i: nat)
  {
    forall k: nat :: k < i && k < |pins| && !pins[k].isOutPin ==> PinExplained(dev, unavailable, netType, pins, paths, k)
  }

  /** The state of routeStaticNet before pin `i`. */
  ghost predicate RouteState(dev: Device, unavailable: set<Node>, netType: NetType, pins: seq<Pin>, i: nat,
                             paths: map<nat, seq<Node>>, used: set<Node>)
  {
    && RoutesSoFar(dev, unavailable, netType, pins, i, paths, used)
    && FailuresExplained(dev, unavailable, netType, pins, paths, i)
  }

  /** Before pin `i`, the used nodes are exactly those of the earlier pins' routes. */
  lemma UsedIsUsedBefore(dev: Device, unavailable: set<Node>, netType: NetType, pins: seq<Pin>, i: nat,
                         paths: map<nat, seq<Node>>, used: set<Node>)
    requires RoutesSoFar(dev, unavailable, netType, pins, i, paths, used)
    ensures used == UsedBefore(paths, i)
  {
    forall n | n in used
      ensures n in UsedBefore(paths, i)
    {
      var k :| k in paths && n in paths[k];
      assert k < i;
    }
  }

  /** A route recorded for pin `i` is not among the routes any pin up to `i` may end at. */
  lemma UsedBeforeAdd(paths: map<nat, seq<Node>>, i: nat, p: seq<Node>, k: nat)
    requires forall j :: j in paths ==> j < i
    requires k <= i
    ensures UsedBefore(paths[i := p], k) == UsedBefore(paths, k)
  {
    forall x | x in UsedBefore(paths[i := p], k)
      ensures x in UsedBefore(paths, k)
    {
      var j :| j in paths[i := p] && j < k && x in paths[i := p][j];
      assert j != i && j in paths;
    }
    forall x | x in UsedBefore(paths, k)
      ensures x in UsedBefore(paths[i := p], k)
    {
      var j :| j in paths && j < k && x in paths[j];
      assert j in paths[i := p] && paths[i := p][j] == paths[j];
    }
  }

  /** A route found for input pin `i` at the node its search meets explains pin `i`, and keeps the earlier pins explained. */
  lemma FoundPin(dev: Device, unavailable: set<Node>, netType: NetType, pins: seq<Pin>,
                 paths: map<nat, seq<Node>>, used: set<Node>, i: nat, p: seq<Node>)
    requires FailuresExplained(dev, unavailable, netType, pins, paths, i)
    requires forall k :: k in paths ==> k < i
    requires used == UsedBefore(paths, i) && i < |pins| && p != []
    requires SearchRun(dev, unavailable, netType, used, [pins[i].connectedNode], {}, Watchdog).0 == Some(p[|p| - 1])
    ensures FailuresExplained(dev, unavailable, netType, pins, paths[i := p], i + 1)
  {
    AddRouteKeepsFailures(dev, unavailable, netType, pins, paths, i, p);
    UsedBeforeAdd(paths, i, p, i);
    assert PinSearch(dev, unavailable, netType, pins, paths[i := p], i) == PinSearch(dev, unavailable, netType, pins, paths, i);
  }

  /** An input pin whose search meets no source is explained when, within the budget, it has no route at all. */
  lemma FailedPin(dev: Device, unavailable: set<Node>, netType: NetType, pins: seq<Pin>,
                  paths: map<nat, seq<Node>>, used: set<Node>, i: nat, expansions: nat)
    requires FailuresExplained(dev, unavailable, netType, pins, paths, i)
    requires used == UsedBefore(paths, i) && i < |pins| && i !in paths
    requires var run := SearchRun(dev, unavailable, netType, used, [pins[i].connectedNode], {}, Watchdog);
      run.0.None? && run.1 == expansions
    requires expansions <= Watchdog ==>
      forall p :: !SourceRoute(dev, unavailable, netType, used, pins[i].connectedNode, p)
    ensures FailuresExplained(dev, unavailable, netType, pins, paths, i + 1)
  {
    assert PinExplained(dev, unavailable, netType, pins, paths, i);
  }

  /** Recording the route that input pin `i`'s search found keeps the state of routeStaticNet. */
  lemma RouteFoundPin(dev: Device, unavailable: set<Node>, netType: NetType, pins: seq<Pin>, i: nat,
                      paths: map<nat, seq<Node>>, used: set<Node>, p: seq<Node>, usedAfter: set<Node>)
    requires i < |pins| && !pins[i].isOutPin && RouteState(dev, unavailable, netType, pins, i, paths, used)
    requires SourceRoute(dev, unavailable, netType, used, pins[i].connectedNode, p)
    requires SearchRun(dev, unavailable, netType, used, [pins[i].connectedNode], {}, Watchdog).0 == Some(p[|p| - 1])
    requires usedAfter == used + set x: Node | x in p
    ensures RouteState(dev, unavailable, netType, pins, i + 1, paths[i := p], usedAfter)
  {
    UsedIsUsedBefore(dev, unavailable, netType, pins, i, paths, used);
    FoundPin(dev, unavailable, netType, pins, paths, used, i, p);
    AddRoute(dev, unavailable, netType, pins, i, paths, used, p, usedAfter);
  }

  /** An input pin whose search fails leaves the routes as they were, and its failure is explained. */
  lemma RouteFailedPin(dev: Device, unavailable: set<Node>, netType: NetType, pins: seq<Pin>, i: nat,
                       paths: map<nat, seq<Node>>, used: set<Node>, expansions: nat)
    requires i < |pins| && !pins[i].isOutPin && RouteState(dev, unavailable, netType, pins, i, paths, used)
    requires var run := SearchRun(dev, unavailable, netType, used, [pins[i].connectedNode], {}, Watchdog);
      run.0.None? && run.1 == expansions
    requires expansions <= Watchdog ==>
      forall p :: !SourceRoute(dev, unavailable, netType, used, pins[i].connectedNode, p)
    ensures RouteState(dev, unavailable, netType, pins, i + 1, paths, used)
  {
    UsedIsUsedBefore(dev, unavailable, netType, pins, i, paths, used);
    FailedPin(dev, unavailable, netType, pins, paths, used, i, expansions);
    RoutesSoFarNext(dev, unavailable, netType, pins, i, paths, used);
  }

  /** Recording pin `i`'s route does not change the outcome of any earlier pin. */
  lemma AddRouteKeepsFailures(dev: Device, unavailable: set<Node>, netType: NetType, pins: seq<Pin>,
                              paths: map<nat, seq<Node>>, i: nat, p: seq<Node>)
    requires FailuresExplained(dev, unavailable, netType, pins, paths, i)
    requires forall k :: k in paths ==> k < i
    ensures FailuresExplained(dev, unavailable, netType, pins, paths[i := p], i)
  {
    forall k: nat | k < i && k < |pins| && !pins[k].isOutPin
      ensures PinExplained(dev, unavailable, netType, pins, paths[i := p], k)
    {
      PinStaysExplained(dev, unavailable, netType, pins, paths, i, p, k);
    }
  }

  /** Pin `k`'s outcome, for `k` before `i`, does not depend on the route of pin `i`. */
  lemma PinStaysExplained(dev: Device, unavailable: set<Node>, netType: NetType, pins: seq<Pin>,
                          paths: map<nat, seq<Node>>, i: nat, p: seq<Node>, k: nat)
    requires forall j :: j in paths ==> j < i
    requires k < i && k < |pins| && PinExplained(dev, unavailable, netType, pins, paths, k)
    ensures PinExplained(dev, unavailable, netType, pins, paths[i := p], k)
  {
    var paths' := paths[i := p];
    UsedBeforeAdd(paths, i, p, k);
    assert PinSearch(dev, unavailable, netType, pins, paths', k) == PinSearch(dev, unavailable, netType, pins, paths, k);
    assert k in paths' <==> k in paths;
    if k in paths {
      assert paths'[k] == paths[k];
    }
  }

  /**
   * The route of pin `k` ends at a usable static source or at a node of an earlier
   * pin's route, and none of its other nodes is a usable source or on an earlier route.
   */
  ghost predicate SharesOnlyItsSource(dev: Device, netType: NetType, paths: map<nat, seq<Node>>, k: nat) {
    k in paths && paths[k] != [] &&
    var p := paths[k];
    && (UsableStaticSource(dev, p[|p| - 1], netType) || exists j :: j in paths && j < k && p[|p| - 1] in paths[j])
    && forall m :: 0 <= m < |p| - 1 ==>
         !UsableStaticSource(dev, p[m], netType) && forall j :: j in paths && j < k ==> p[m] !in paths[j]
  }

  /**
   * The nodes collected while tracing back: each is a visited node reached along an
   * arc from the next, which was dequeued before it.
   */
  ghost predicate Chain(dev: Device, unavailable: set<Node>, visited: set<Node>, rank: map<Node, nat>, c: seq<Node>) {
    && (forall i :: 0 <= i < |c| ==> c[i] in visited && c[i] in rank)
    && forall i :: 0 <= i < |c| - 1 ==> rank[c[i + 1]] < rank[c[i]] && Arc(dev, unavailable, c[i + 1], c[i])
  }

  lemma ChainExtend(dev: Device, unavailable: set<Node>, visited: set<Node>, rank: map<Node, nat>, c: seq<Node>, n: Node)
    requires Chain(dev, unavailable, visited, rank, c) && n in visited && n in rank
    requires c != [] ==> rank[n] < rank[c[|c| - 1]] && Arc(dev, unavailable, n, c[|c| - 1])
    ensures Chain(dev, unavailable, visited, rank, c + [n])
  {
  }

  /** Ranks fall strictly along a chain, so no node occurs twice in it. */
  lemma {:induction false} ChainRanksFall(dev: Device, unavailable: set<Node>, visited: set<Node>, rank: map<Node, nat>, c: seq<Node>)
    requires Chain(dev, unavailable, visited, rank, c)
    ensures forall i, j :: 0 <= i < j < |c| ==> rank[c[j]] < rank[c[i]]
  {
    if |c| > 1 {
      ChainRanksFall(dev, unavailable, visited, rank, c[1..]);
      forall i, j | 0 <= i < j < |c|
        ensures rank[c[j]] < rank[c[i]]
      {
        if i > 0 {
          assert c[j] == c[1..][j - 1] && c[i] == c[1..][i - 1];
        } else if j > 1 {
          assert c[j] == c[1..][j - 1] && c[1] == c[1..][0];
        }
      }
    }
  }

  /** A chain ending at the seed, read backwards, is a route for the seed's sink. */
  lemma ChainReversed(dev: Device, unavailable: set<Node>, visited: set<Node>, rank: map<Node, nat>, c: seq<Node>)
    requires Chain(dev, unavailable, visited, rank, c) && c != []
    ensures SinkRoute(dev, unavailable, c[|c| - 1], Reverse(c)) && Reverse(c)[|c| - 1] == c[0]
    ensures forall x :: x in Reverse(c) <==> x in c
  {
    var r := Reverse(c);
    ChainRanksFall(dev, unavailable, visited, rank, c);
    forall i, j | 0 <= i < j < |r|
      ensures r[i] != r[j]
    {
      assert r[i] == c[|c| - 1 - i] && r[j] == c[|c| - 1 - j];
      assert rank[r[i]] < rank[r[j]];
    }
    forall i | 0 <= i < |r| - 1
      ensures Arc(dev, unavailable, r[i], r[i + 1])
    {
      assert r[i] == c[|c| - 1 - i] && r[i + 1] == c[|c| - 1 - i - 1];
    }
    forall x
      ensures x in r <==> x in c
    {
      if x in c {
        var k :| 0 <= k < |c| && c[k] == x;
        assert r[|c| - 1 - k] == x;
      }
    }
  }

  /** A traced-back route through nodes that were no source, ending at a source, is a `SourceRoute`. */
  lemma TracedToSource(dev: Device, unavailable: set<Node>, netType: NetType, used: set<Node>, seed: Node,
                       p: seq<Node>, earlier: set<Node>)
    requires SinkRoute(dev, unavailable, seed, p) && IsOurStaticSource(dev, p[|p| - 1], netType, used)
    requires forall x :: x in p ==> x in earlier || x == p[|p| - 1]
    requires forall k :: 0 <= k < |p| - 1 ==> p[k] != p[|p| - 1]
    requires forall n :: n in earlier ==> !IsOurStaticSource(dev, n, netType, used)
    ensures SourceRoute(dev, unavailable, netType, used, seed, p)
  {
    forall k | 0 <= k < |p| - 1
      ensures !IsOurStaticSource(dev, p[k], netType, used)
    {
      assert p[k] in p;
    }
  }

  /** Dequeuing keeps every covered successor in sight: the dequeued node is now visited. */
  lemma DequeueKeepsCover(dev: Device, unavailable: set<Node>, done: set<Node>, visited: set<Node>, q: seq<Node>)
    requires Covered(dev, unavailable, done, visited, q) && q != []
    ensures Covered(dev, unavailable, done, visited + {q[0]}, q[1..])
  {
    forall v, x | v in done && Arc(dev, unavailable, v, x)
      ensures x in visited + {q[0]} || x in q[1..]
    {
      if x in q && x != q[0] {
        var k :| 0 <= k < |q| && q[k] == x;
        assert q[1..][k - 1] == x;
      }
    }
  }

  /** Expanding `u` covers its successors: each is visited already or was just enqueued. */
  lemma ExpandKeepsCover(dev: Device, unavailable: set<Node>, done: set<Node>, visited: set<Node>, u: Node,
                         q0: seq<Node>, q1: seq<Node>)
    requires Covered(dev, unavailable, done, visited, q0)
    requires q1 == q0 + Enqueued(dev, unavailable, visited, u, dev.uphill(u))
    ensures Covered(dev, unavailable, done + {u}, visited, q1)
  {
    EnqueuedMembers(dev, unavailable, visited, u, dev.uphill(u));
    forall v, x | v in done + {u} && Arc(dev, unavailable, v, x)
      ensures x in visited || x in q1
    {
      if v == u && x !in visited {
        assert x in Enqueued(dev, unavailable, visited, u, dev.uphill(u));
      }
    }
  }

  /** Every node of a route from the seed stays among the visited nodes when these are closed under arcs. */
  lemma {:induction false} RouteInVisited(dev: Device, unavailable: set<Node>, seed: Node, visited: set<Node>, p: seq<Node>, i: nat)
    requires seed in visited && Covered(dev, unavailable, visited, visited, [])
    requires SinkRoute(dev, unavailable, seed, p) && i < |p|
    ensures p[i] in visited
  {
    if i > 0 {
      RouteInVisited(dev, unavailable, seed, visited, p, i - 1);
      assert Arc(dev, unavailable, p[i - 1], p[i]);
    }
  }

  /**
   * A search that ran out of queue without meeting a source leaves no route to a
   * source at all: every route from the seed runs through visited nodes only, and
   * none of those is a source.
   */
  lemma NoSourceRouteLeft(dev: Device, unavailable: set<Node>, netType: NetType, used: set<Node>, seed: Node, visited: set<Node>)
    requires seed in visited && Covered(dev, unavailable, visited, visited, [])
    requires forall n :: n in visited ==> !IsOurStaticSource(dev, n, netType, used)
    ensures forall p :: !SourceRoute(dev, unavailable, netType, used, seed, p)
  {
    forall p | SourceRoute(dev, unavailable, netType, used, seed, p)
      ensures false
    {
      RouteInVisited(dev, unavailable, seed, visited, p, |p| - 1);
    }
  }

  /** Dequeuing a node keeps the search tree: a node dequeued for the first time is ranked after all others. */
  lemma DequeueKeepsSearch(dev: Device, unavailable: set<Node>, seed: Node, prev: map<Node, Option<Node>>,
                           visited: set<Node>, rank: map<Node, nat>, next: nat, q: seq<Node>)
    requires SearchTree(dev, unavailable, seed, prev, visited, rank)
    requires forall m :: m in rank ==> rank[m] < next
    requires QueueReached(dev, unavailable, seed, prev, visited, q) && q != []
    requires seed !in visited ==> q[0] == seed
    ensures var n := q[0];
      var rank' := if n in visited then rank else rank[n := next];
      && SearchTree(dev, unavailable, seed, prev, visited + {n}, rank')
      && QueueReached(dev, unavailable, seed, prev, visited + {n}, q[1..])
      && seed in visited + {n}
  {
    DequeueKeepsTree(dev, unavailable, seed, prev, visited, rank, next, q);
    DequeueKeepsQueue(dev, unavailable, seed, prev, visited, q);
  }

  lemma DequeueKeepsTree(dev: Device, unavailable: set<Node>, seed: Node, prev: map<Node, Option<Node>>,
                         visited: set<Node>, rank: map<Node, nat>, next: nat, q: seq<Node>)
    requires SearchTree(dev, unavailable, seed, prev, visited, rank)
    requires forall m :: m in rank ==> rank[m] < next
    requires QueueReached(dev, unavailable, seed, prev, visited, q) && q != []
    requires seed !in visited ==> q[0] == seed
    ensures SearchTree(dev, unavailable, seed, prev, visited + {q[0]}, if q[0] in visited then rank else rank[q[0] := next])
  {
    var n := q[0];
    var rank' := if n in visited then rank else rank[n := next];
    forall m {:trigger prev[m]} | m in visited + {n} && m != seed
      ensures prev[m].Some? && prev[m].value in visited + {n} && rank'[prev[m].value] < rank'[m]
      ensures Arc(dev, unavailable, prev[m].value, m)
    {
      if m !in visited {
        assert m == n;
      }
    }
  }

  lemma DequeueKeepsQueue(dev: Device, unavailable: set<Node>, seed: Node, prev: map<Node, Option<Node>>,
                          visited: set<Node>, q: seq<Node>)
    requires QueueReached(dev, unavailable, seed, prev, visited, q) && q != []
    ensures QueueReached(dev, unavailable, seed, prev, visited + {q[0]}, q[1..])
  {
    forall k | 0 <= k < |q| - 1
      ensures q[1..][k] == q[k + 1]
    {
    }
  }

  /** Expansion changes `prev` only on nodes not yet dequeued, so the search tree is kept. */
  lemma ExpandKeepsTree(dev: Device, unavailable: set<Node>, seed: Node,
                        prev0: map<Node, Option<Node>>, prev1: map<Node, Option<Node>>,
                        visited: set<Node>, rank: map<Node, nat>, u: Node)
    requires SearchTree(dev, unavailable, seed, prev0, visited, rank) && seed in visited
    requires forall x :: x in prev0 ==> x in prev1
    requires forall x :: x in prev1 ==>
      prev1[x] == Repointed(prev0, x, x in dev.uphill(u) && Enqueues(dev, unavailable, visited, u, x), u)
    ensures SearchTree(dev, unavailable, seed, prev1, visited, rank)
  {
    forall n | n in visited
      ensures prev1[n] == prev0[n]
    {
      assert PruneNode(dev, n, unavailable, visited);
    }
  }

  /** After an expansion every queued node still has a wrapper and a `prev` it was reached from. */
  lemma ExpandKeepsQueue(dev: Device, unavailable: set<Node>, seed: Node,
                         prev0: map<Node, Option<Node>>, prev1: map<Node, Option<Node>>,
                         visited: set<Node>, u: Node, q0: seq<Node>, q1: seq<Node>)
    requires u in visited
    requires QueueReached(dev, unavailable, seed, prev0, visited, q0)
    requires q1 == q0 + Enqueued(dev, unavailable, visited, u, dev.uphill(u))
    requires forall x :: x in prev1 <==> x in prev0 || (x in dev.uphill(u) && !dev.isRouteThru(x, u))
    requires forall x :: x in prev1 ==>
      prev1[x] == Repointed(prev0, x, x in dev.uphill(u) && Enqueues(dev, unavailable, visited, u, x), u)
    ensures QueueReached(dev, unavailable, seed, prev1, visited, q1)
  {
    var added := Enqueued(dev, unavailable, visited, u, dev.uphill(u));
    forall k | 0 <= k < |q1|
      ensures q1[k] in prev1
      ensures q1[k] != seed ==>
        prev1[q1[k]].Some? && prev1[q1[k]].value in visited && Arc(dev, unavailable, prev1[q1[k]].value, q1[k])
    {
      var x := q1[k];
      if k >= |q0| {
        assert x == added[k - |q0|];
        EnqueuedIsArc(dev, unavailable, visited, u, x);
        EnqueuedMembers(dev, unavailable, visited, u, dev.uphill(u));
      } else if x in dev.uphill(u) && Enqueues(dev, unavailable, visited, u, x) {
        assert Arc(dev, unavailable, u, x);
      }
    }
  }

  /**
   * The state of routeStaticNet after the pins before `i`: every route belongs to an
   * input pin before `i` and shares only its source with earlier routes, and `used`
   * holds exactly the nodes of the routes.
   */
  ghost predicate RoutesSoFar(dev: Device, unavailable: set<Node>, netType: NetType, pins: seq<Pin>, i: nat,
                              paths: map<nat, seq<Node>>, used: set<Node>)
  {
    && (forall k :: k in paths ==>
          k < i && k < |pins| && !pins[k].isOutPin && SinkRoute(dev, unavailable, pins[k].connectedNode, paths[k]))
    && (forall n :: n in used <==> exists k :: k in paths && n in paths[k])
    && forall k {:trigger SharesOnlyItsSource(dev, netType, paths, k)} :: k in paths ==> SharesOnlyItsSource(dev, netType, paths, k)
  }

  /** A pin that gets no route leaves the state of routeStaticNet as it was. */
  lemma RoutesSoFarNext(dev: Device, unavailable: set<Node>, netType: NetType, pins: seq<Pin>, i: nat,
                        paths: map<nat, seq<Node>>, used: set<Node>)
    requires RoutesSoFar(dev, unavailable, netType, pins, i, paths, used)
    ensures RoutesSoFar(dev, unavailable, netType, pins, i + 1, paths, used)
  {
  }

  /** Adding the route found for input pin `i` keeps the state of routeStaticNet. */
  lemma AddRoute(dev: Device, unavailable: set<Node>, netType: NetType, pins: seq<Pin>, i: nat,
                 paths: map<nat, seq<Node>>, used: set<Node>, p: seq<Node>, usedAfter: set<Node>)
    requires RoutesSoFar(dev, unavailable, netType, pins, i, paths, used)
    requires i < |pins| && !pins[i].isOutPin
    requires SourceRoute(dev, unavailable, netType, used, pins[i].connectedNode, p)
    requires usedAfter == used + set x: Node | x in p
    ensures RoutesSoFar(dev, unavailable, netType, pins, i + 1, paths[i := p], usedAfter)
  {
    AddRouteKeepsRoutes(dev, unavailable, pins, i, paths, p);
    AddRouteUsed(paths, used, i, p, paths[i := p], usedAfter);
    AddRouteKeepsSharing(dev, netType, paths, used, i, p);
  }

  /** The new route belongs to input pin `i`, and the earlier ones to input pins before it. */
  lemma AddRouteKeepsRoutes(dev: Device, unavailable: set<Node>, pins: seq<Pin>, i: nat,
                            paths: map<nat, seq<Node>>, p: seq<Node>)
    requires forall k :: k in paths ==>
      k < i && k < |pins| && !pins[k].isOutPin && SinkRoute(dev, unavailable, pins[k].connectedNode, paths[k])
    requires i < |pins| && !pins[i].isOutPin && SinkRoute(dev, unavailable, pins[i].connectedNode, p)
    ensures forall k :: k in paths[i := p] ==>
      k < i + 1 && k < |pins| && !pins[k].isOutPin && SinkRoute(dev, unavailable, pins[k].connectedNode, paths[i := p][k])
  {
  }

  /** The used nodes grow by exactly the nodes of the new route. */
  lemma AddRouteUsed(paths: map<nat, seq<Node>>, used: set<Node>, i: nat, p: seq<Node>,
                     paths': map<nat, seq<Node>>, usedAfter: set<Node>)
    requires forall n :: n in used <==> exists k :: k in paths && n in paths[k]
    requires i !in paths && paths' == paths[i := p]
    requires usedAfter == used + set x: Node | x in p
    ensures forall n :: n in usedAfter <==> exists k :: k in paths' && n in paths'[k]
  {
    forall n | n in usedAfter
      ensures exists k :: k in paths' && n in paths'[k]
    {
      if n in used {
        var k :| k in paths && n in paths[k];
        assert k in paths' && n in paths'[k];
      } else {
        assert i in paths' && n in paths'[i];
      }
    }
  }

  /** Adding a newly found route keeps every earlier route's sharing property. */
  lemma AddRouteKeepsSharing(dev: Device, netType: NetType, paths: map<nat, seq<Node>>, used: set<Node>, i: nat, p: seq<Node>)
    requires forall k :: k in paths ==> k < i && paths[k] != []
    requires forall k {:trigger SharesOnlyItsSource(dev, netType, paths, k)} :: k in paths ==> SharesOnlyItsSource(dev, netType, paths, k)
    requires forall n :: n in used <==> exists k :: k in paths && n in paths[k]
    requires p != [] && IsOurStaticSource(dev, p[|p| - 1], netType, used)
    requires forall k :: 0 <= k < |p| - 1 ==> !IsOurStaticSource(dev, p[k], netType, used)
    ensures forall k {:trigger SharesOnlyItsSource(dev, netType, paths[i := p], k)} :: k in paths[i := p] ==> SharesOnlyItsSource(dev, netType, paths[i := p], k)
  {
    var paths' := paths[i := p];
    forall k | k in paths'
      ensures SharesOnlyItsSource(dev, netType, paths', k)
    {
      if k == i {
        var last := p[|p| - 1];
        if last in used {
          var j :| j in paths && last in paths[j];
          assert j in paths' && j < i && last in paths'[j];
        }
      } else {
        assert SharesOnlyItsSource(dev, netType, paths, k);
        var q := paths[k];
        if !UsableStaticSource(dev, q[|q| - 1], netType) {
          var j :| j in paths && j < k && q[|q| - 1] in paths[j];
          assert j in paths' && q[|q| - 1] in paths'[j];
        }
      }
    }
  }
}
