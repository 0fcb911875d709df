/** The graph of who calls whom across services, and the host it recommends a service to move to. */
module DependencyGraph {
  import opened Options
  import opened Decisions

  datatype ServiceNode = ServiceNode(appId: int, msgId: int)

  datatype Edge = Edge(caller: ServiceNode, callee: ServiceNode)

  datatype EdgeState = EdgeState(observations: nat, lastSeen: int)

  type Edges = map<Edge, EdgeState>

  type Locations = map<ServiceNode, string>

  const MIN_OBSERVATIONS: nat := 2
  const MIN_BENEFIT: nat := 1
  const EDGE_TTL_MS := 3000
  const COOLDOWN_MS := 2000

  predicate IsAcceptedEdge(s: EdgeState) { s.observations >= MIN_OBSERVATIONS }

  predicate HostHasCapacity(hostMap: HostMap, host: string) { host in hostMap && Available(hostMap[host]) > 0 }

  // ---------- sums over edges ----------

  ghost function Total(es: set<Edge>, weight: Edge -> nat): nat {
    if es == {} then 0
    else
      var e :| e in es;
      weight(e) + Total(es - {e}, weight)
  }

  lemma {:induction false} TotalRemove(es: set<Edge>, weight: Edge -> nat, e: Edge)
    requires e in es
    ensures Total(es, weight) == weight(e) + Total(es - {e}, weight)
    decreases |es|
  {
    var x :| x in es && Total(es, weight) == weight(x) + Total(es - {x}, weight);
    if x != e {
      TotalRemove(es - {x}, weight, e);
      TotalRemove(es - {e}, weight, x);
      assert es - {x} - {e} == es - {e} - {x};
    }
  }

  lemma {:induction false} TotalSum(es: set<Edge>, a: Edge -> nat, b: Edge -> nat, c: Edge -> nat)
    requires forall e :: e in es ==> a(e) == b(e) + c(e)
    ensures Total(es, a) == Total(es, b) + Total(es, c)
    decreases |es|
  {
    if es != {} {
      var e :| e in es;
      TotalRemove(es, a, e);
      TotalRemove(es, b, e);
      TotalRemove(es, c, e);
      TotalSum(es - {e}, a, b, c);
    }
  }

  lemma {:induction false} TotalBelow(es: set<Edge>, a: Edge -> nat, b: Edge -> nat)
    requires forall e :: e in es ==> a(e) <= b(e)
    ensures Total(es, a) <= Total(es, b)
    decreases |es|
  {
    if es != {} {
      var e :| e in es;
      TotalRemove(es, a, e);
      TotalRemove(es, b, e);
      TotalBelow(es - {e}, a, b);
    }
  }

  // ---------- costs ----------

  predicate Incident(e: Edge, node: ServiceNode) { e.caller == node || e.callee == node }

  /** What one edge costs: its observations, if it is accepted and its ends sit on different hosts. */
  function EdgeCost(edges: Edges, at: Locations, e: Edge): nat {
    if e in edges && IsAcceptedEdge(edges[e]) && e.caller in at && e.callee in at && at[e.caller] != at[e.callee]
    then edges[e].observations else 0
  }

  function Weight(edges: Edges, at: Locations): Edge -> nat { e => EdgeCost(edges, at, e) }

  /** The cross-host traffic of the whole graph. */
  ghost function GraphCost(edges: Edges, at: Locations): nat {
    Total(edges.Keys, Weight(edges, at))
  }

  /** The part of it on edges of one node, if that node were on `host`. */
  function IncidentEdgeCost(edges: Edges, at: Locations, node: ServiceNode, host: string, e: Edge): nat {
    if Incident(e, node) then EdgeCost(edges, at[node := host], e) else 0
  }

  function IncidentWeight(edges: Edges, at: Locations, node: ServiceNode, host: string): Edge -> nat {
    e => IncidentEdgeCost(edges, at, node, host, e)
  }

  ghost function IncidentCost(edges: Edges, at: Locations, node: ServiceNode, host: string): nat {
    Total(edges.Keys, IncidentWeight(edges, at, node, host))
  }

  function OtherEdgeCost(edges: Edges, at: Locations, node: ServiceNode, e: Edge): nat {
    if Incident(e, node) then 0 else EdgeCost(edges, at, e)
  }

  function OtherWeight(edges: Edges, at: Locations, node: ServiceNode): Edge -> nat {
    e => OtherEdgeCost(edges, at, node, e)
  }

  /** The accepted edges whose ends are placed on different hosts. */
  function Crossing(edges: Edges, at: Locations): set<Edge> {
    set e | e in edges && edges[e].observations >= MIN_OBSERVATIONS
            && e.caller in at && e.callee in at && at[e.caller] != at[e.callee]
  }

  function Observations(edges: Edges): Edge -> nat { e => if e in edges then edges[e].observations else 0 }

  lemma {:induction false} TotalOn(es: set<Edge>, part: set<Edge>, a: Edge -> nat, b: Edge -> nat)
    requires part <= es && (forall e :: e in part ==> a(e) == b(e)) && forall e :: e in es && e !in part ==> a(e) == 0
    ensures Total(es, a) == Total(part, b)
    decreases |es|
  {
    if es != {} {
      var e :| e in es;
      TotalRemove(es, a, e);
      if e in part {
        TotalRemove(part, b, e);
        TotalOn(es - {e}, part - {e}, a, b);
      } else {
        TotalOn(es - {e}, part, a, b);
      }
    } else {
      assert part == {};
    }
  }

  /** The cost of a placement is the sum of the observations of the accepted edges that cross hosts; of a node's
      own, those at the node, as if it were on the given host. */
  lemma CostMeans(edges: Edges, at: Locations, node: ServiceNode, host: string)
    ensures GraphCost(edges, at) == Total(Crossing(edges, at), Observations(edges))
    ensures IncidentCost(edges, at, node, host) ==
            Total((set e | e in Crossing(edges, at[node := host]) && (e.caller == node || e.callee == node)),
                  Observations(edges))
  {
    TotalOn(edges.Keys, Crossing(edges, at), Weight(edges, at), Observations(edges));
    var mine := set e | e in Crossing(edges, at[node := host]) && (e.caller == node || e.callee == node);
    TotalOn(edges.Keys, mine, IncidentWeight(edges, at, node, host), Observations(edges));
  }

  lemma CostSplits(edges: Edges, at: Locations, node: ServiceNode, host: string)
    ensures GraphCost(edges, at[node := host]) ==
            IncidentCost(edges, at, node, host) + Total(edges.Keys, OtherWeight(edges, at, node))
  {
    TotalSum(edges.Keys, Weight(edges, at[node := host]), IncidentWeight(edges, at, node, host),
             OtherWeight(edges, at, node));
  }

  /** Moving a node changes the whole graph's cost by exactly the change in the node's own. */
  lemma MoveChangesCostByBenefit(edges: Edges, at: Locations, node: ServiceNode, host: string)
    requires node in at
    ensures GraphCost(edges, at[node := host]) - GraphCost(edges, at) ==
            IncidentCost(edges, at, node, host) - IncidentCost(edges, at, node, at[node])
  {
    CostSplits(edges, at, node, host);
    CostSplits(edges, at, node, at[node]);
    assert at[node := at[node]] == at;
  }

  // ---------- candidates ----------

  /** Hosts of the node's neighbours over accepted edges. */
  ghost predicate IsCandidate(edges: Edges, at: Locations, node: ServiceNode, host: string) {
    exists e :: e in edges && Suggests(edges, at, node, e, host)
  }

  predicate Suggests(edges: Edges, at: Locations, node: ServiceNode, e: Edge, host: string)
    requires e in edges
  {
    && IsAcceptedEdge(edges[e])
    && ((e.caller == node && e.callee in at && at[e.callee] == host)
        || (e.callee == node && e.caller in at && at[e.caller] == host))
  }

  /** A host no neighbour sits on costs as much as any other can. */
  lemma OtherHostsAreWorst(edges: Edges, at: Locations, node: ServiceNode, host: string, other: string)
    requires node in at && !IsCandidate(edges, at, node, host)
    ensures IncidentCost(edges, at, node, other) <= IncidentCost(edges, at, node, host)
  {
    forall e | e in edges.Keys
      ensures IncidentEdgeCost(edges, at, node, other, e) <= IncidentEdgeCost(edges, at, node, host, e)
    {
      assert !Suggests(edges, at, node, e, host);
    }
    TotalBelow(edges.Keys, IncidentWeight(edges, at, node, other), IncidentWeight(edges, at, node, host));
  }

  /** Best among the candidates with capacity other than where the node is; at least `cost` if none. */
  ghost predicate BestCandidate(edges: Edges, at: Locations, node: ServiceNode, hostMap: HostMap,
                                best: Option<string>) {
    && node in at
    && (best.Some? ==>
          && best.value != at[node] && HostHasCapacity(hostMap, best.value)
          && IncidentCost(edges, at, node, best.value) + MIN_BENEFIT <= IncidentCost(edges, at, node, at[node]))
    && forall h :: IsCandidate(edges, at, node, h) && h != at[node] && HostHasCapacity(hostMap, h) ==>
         IncidentCost(edges, at, node, if best.Some? then best.value else at[node]) <= IncidentCost(edges, at, node, h)
  }

  /** The same among all hosts. */
  ghost predicate BestHost(edges: Edges, at: Locations, node: ServiceNode, hostMap: HostMap, best: Option<string>) {
    && node in at
    && (best.Some? ==>
          && best.value != at[node] && HostHasCapacity(hostMap, best.value)
          && IncidentCost(edges, at, node, best.value) + MIN_BENEFIT <= IncidentCost(edges, at, node, at[node]))
    && forall h :: h != at[node] && HostHasCapacity(hostMap, h) ==>
         IncidentCost(edges, at, node, if best.Some? then best.value else at[node]) <= IncidentCost(edges, at, node, h)
  }

  /** Looking at the neighbours' hosts is enough. */
  lemma CandidatesSuffice(edges: Edges, at: Locations, node: ServiceNode, hostMap: HostMap, best: Option<string>)
    requires BestCandidate(edges, at, node, hostMap, best)
    ensures BestHost(edges, at, node, hostMap, best)
  {
    forall h | h != at[node] && HostHasCapacity(hostMap, h)
      ensures IncidentCost(edges, at, node, if best.Some? then best.value else at[node])
              <= IncidentCost(edges, at, node, h)
    {
      if !IsCandidate(edges, at, node, h) {
        OtherHostsAreWorst(edges, at, node, h, if best.Some? then best.value else at[node]);
      }
    }
  }

  // ---------- the graph object ----------

  /** Edges not seen for longer than their time to live are forgotten. */
  function Pruned(edges: Edges, now: int): Edges {
    map e | e in edges && now - edges[e].lastSeen <= EDGE_TTL_MS :: edges[e]
  }

  class RpcDependencyGraph {
    var edges: Edges
    var placement: Locations
    var lastRecommendedAt: map<ServiceNode, int>

    constructor ()
      ensures edges == map[] && placement == map[] && lastRecommendedAt == map[]
    {
      edges, placement, lastRecommendedAt := map[], map[], map[];
    }

    method PruneStaleEdges(now: int)
      modifies this`edges
      ensures edges == Pruned(old(edges), now)
    {
      var rest := edges.Keys;
      while rest != {}
        invariant rest <= edges.Keys <= old(edges).Keys
        invariant forall e :: e in edges ==> edges[e] == old(edges)[e]
        invariant forall e :: e in old(edges) && e !in rest ==> (e in edges <==> e in Pruned(old(edges), now))
        decreases rest
      {
        var e :| e in rest;
        if now - edges[e].lastSeen > EDGE_TTL_MS { edges := edges - {e}; }
        rest := rest - {e};
      }
    }

    method CandidateHostsFor(node: ServiceNode) returns (hosts: set<string>)
      ensures forall h :: h in hosts <==> IsCandidate(edges, placement, node, h)
    {
      hosts := {};
      var rest := edges.Keys;
      while rest != {}
        invariant rest <= edges.Keys
        invariant forall h :: h in hosts ==> IsCandidate(edges, placement, node, h)
        invariant forall e, h :: e in edges && e !in rest && Suggests(edges, placement, node, e, h) ==> h in hosts
        decreases rest
      {
        var e :| e in rest;
        if IsAcceptedEdge(edges[e]) {
          if e.caller == node && e.callee in placement {
            assert Suggests(edges, placement, node, e, placement[e.callee]);
            hosts := hosts + {placement[e.callee]};
          }
          if e.callee == node && e.caller in placement {
            assert Suggests(edges, placement, node, e, placement[e.caller]);
            hosts := hosts + {placement[e.caller]};
          }
        }
        rest := rest - {e};
      }
    }

    /** Observations on the node's edges that would cross hosts with the node on `candidate`. */
    method IncidentEdgeCostIf(node: ServiceNode, candidate: string) returns (cost: nat)
      ensures cost == IncidentCost(edges, placement, node, candidate)
    {
      cost := 0;
      ghost var weight := IncidentWeight(edges, placement, node, candidate);
      var rest := edges.Keys;
      while rest != {}
        invariant rest <= edges.Keys
        invariant cost + Total(rest, weight) == Total(edges.Keys, weight)
        decreases rest
      {
        var e :| e in rest;
        TotalRemove(rest, weight, e);
        rest := rest - {e};
        if !IsAcceptedEdge(edges[e]) || !(e.caller == node || e.callee == node) { continue; }
        if e.caller != node && e.caller !in placement { continue; }
        var callerHost := if e.caller == node then candidate else placement[e.caller];
        if e.callee != node && e.callee !in placement { continue; }
        var calleeHost := if e.callee == node then candidate else placement[e.callee];
        if callerHost != calleeHost { cost := cost + edges[e].observations; }
      }
    }

    method BestOf(node: ServiceNode, candidates: set<string>, hostMap: HostMap) returns (best: Option<string>)
      requires node in placement && forall h :: h in candidates <==> IsCandidate(edges, placement, node, h)
      ensures BestCandidate(edges, placement, node, hostMap, best)
    {
      var current := placement[node];
      best := None;
      var bestCost := IncidentEdgeCostIf(node, current);
      ghost var currentCost := bestCost;
      var rest := candidates;
      while rest != {}
        invariant rest <= candidates
        invariant bestCost == IncidentCost(edges, placement, node, if best.Some? then best.value else current)
        invariant best.Some? ==> best.value != current && HostHasCapacity(hostMap, best.value) && bestCost < currentCost
        invariant forall h :: h in candidates && h !in rest && h != current && HostHasCapacity(hostMap, h) ==>
                    bestCost <= IncidentCost(edges, placement, node, h)
        decreases rest
      {
        var h :| h in rest;
        rest := rest - {h};
        if h == current || !HostHasCapacity(hostMap, h) { continue; }
        var cost := IncidentEdgeCostIf(node, h);
        if cost < bestCost { best, bestCost := Some(h), cost; }
      }
    }

    predicate Cooling(node: ServiceNode, now: int)
      reads this`lastRecommendedAt
    {
      node in lastRecommendedAt && now - lastRecommendedAt[node] < COOLDOWN_MS
    }

    /** The host the node should move to. Unless the node is cooling down or not placed, the answer is a
        host of least cost among all those with capacity, and None means that none of them is better. */
    method RecommendHost(node: ServiceNode, hostMap: HostMap, now: int) returns (host: Option<string>)
      modifies this`edges, this`lastRecommendedAt
      ensures edges == if old(Cooling(node, now)) then old(edges) else Pruned(old(edges), now)
      ensures old(Cooling(node, now)) || node !in placement ==> host.None?
      ensures !old(Cooling(node, now)) && node in placement ==> BestHost(edges, placement, node, hostMap, host)
      ensures host.Some? ==>
                && (node !in old(lastRecommendedAt) || now - old(lastRecommendedAt)[node] >= COOLDOWN_MS)
                && host.value in hostMap && hostMap[host.value].usedSlots < hostMap[host.value].slots
      ensures host.None? ==>
                || (node in old(lastRecommendedAt) && now - old(lastRecommendedAt)[node] < COOLDOWN_MS)
                || node !in placement
                || forall h :: h in hostMap && hostMap[h].usedSlots < hostMap[h].slots ==>
                     IncidentCost(edges, placement, node, placement[node]) <= IncidentCost(edges, placement, node, h)
      ensures lastRecommendedAt == if host.Some? then old(lastRecommendedAt)[node := now] else old(lastRecommendedAt)
    {
      if Cooling(node, now) { return None; }
      PruneStaleEdges(now);
      if node !in placement { return None; }
      var candidates := CandidateHostsFor(node);
      host := BestOf(node, candidates, hostMap);
      CandidatesSuffice(edges, placement, node, hostMap, host);
      if host.Some? { lastRecommendedAt := lastRecommendedAt[node := now]; }
    }
  }

  // ---------- repeated moves ----------

  datatype Move = Move(node: ServiceNode, host: string)

  /** Recommendations followed one after another while the telemetry stays as it is. */
  ghost predicate Followed(edges: Edges, hostMaps: seq<HostMap>, at: Locations, moves: seq<Move>)
    requires |hostMaps| == |moves|
    decreases |moves|
  {
    moves == []
    || (&& BestHost(edges, at, moves[0].node, hostMaps[0], Some(moves[0].host))
        && Followed(edges, hostMaps[1..], at[moves[0].node := moves[0].host], moves[1..]))
  }

  /** Every move followed takes at least one observation off the whole graph's cross-host cost, so there
      are at most as many moves as that cost. */
  lemma {:induction false} MovesTerminate(edges: Edges, hostMaps: seq<HostMap>, at: Locations, moves: seq<Move>)
    requires |hostMaps| == |moves| && Followed(edges, hostMaps, at, moves)
    ensures |moves| <= GraphCost(edges, at)
    decreases |moves|
  {
    if moves != [] {
      var m := moves[0];
      MoveChangesCostByBenefit(edges, at, m.node, m.host);
      MovesTerminate(edges, hostMaps[1..], at[m.node := m.host], moves[1..]);
    }
  }
}
