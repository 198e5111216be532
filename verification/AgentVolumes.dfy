/**
 Transactions and volumes per agent, computed in two ways: by a loop over a map, and by a count
 and three aggregates over disjoint parts of the table. Amounts arrive as decimal objects, which
 are truthy even when they are zero, so || moves on from null only.
 */
module AgentVolumes {
  import opened Text
  import opened MapSums

  datatype Tx = Tx(createdByAgentId: Option<string>, nairaEquivalent: Option<real>, foreignAmount: Option<real>, pickup: Option<real>)

  datatype Volume = Volume(count: nat, volume: real)

  function Value(t: Tx): real {
    if t.nairaEquivalent.Some? then t.nairaEquivalent.value
    else if t.foreignAmount.Some? then t.foreignAmount.value
    else if t.pickup.Some? then t.pickup.value
    else 0.0
  }

  /** The rows that the query of list returns: those of the agents on the page, blank ids left out. */
  function Visited(txs: seq<Tx>, agentIds: set<string>): seq<Tx> {
    if txs == [] then []
    else
      var last := txs[|txs| - 1];
      Visited(txs[..|txs| - 1], agentIds)
      + if last.createdByAgentId.Some? && last.createdByAgentId.value in agentIds then [last] else []
  }

  predicate IsOf(t: Tx, id: string) {
    t.createdByAgentId == Some(id)
  }

  // ----- get and export

  function Count(txs: seq<Tx>, id: string): nat {
    if txs == [] then 0 else Count(txs[..|txs| - 1], id) + if IsOf(txs[|txs| - 1], id) then 1 else 0
  }

  function SumNaira(txs: seq<Tx>, id: string): real {
    if txs == [] then 0.0
    else
      var t := txs[|txs| - 1];
      SumNaira(txs[..|txs| - 1], id) + if IsOf(t, id) && t.nairaEquivalent.Some? then t.nairaEquivalent.value else 0.0
  }

  function SumForeign(txs: seq<Tx>, id: string): real {
    if txs == [] then 0.0
    else
      var t := txs[|txs| - 1];
      SumForeign(txs[..|txs| - 1], id)
      + if IsOf(t, id) && t.nairaEquivalent.None? && t.foreignAmount.Some? then t.foreignAmount.value else 0.0
  }

  function SumPickup(txs: seq<Tx>, id: string): real {
    if txs == [] then 0.0
    else
      var t := txs[|txs| - 1];
      SumPickup(txs[..|txs| - 1], id)
      + if IsOf(t, id) && t.nairaEquivalent.None? && t.foreignAmount.None? && t.pickup.Some? then t.pickup.value else 0.0
  }

  function Aggregated(txs: seq<Tx>, id: string): Volume {
    Volume(Count(txs, id), SumNaira(txs, id) + SumForeign(txs, id) + SumPickup(txs, id))
  }

  // ----- list

  function CountOf(v: Volume): real {
    v.count as real
  }

  function Lookup(volumes: map<string, Volume>, id: string): Volume {
    if id in volumes then volumes[id] else Volume(0, 0.0)
  }

  /** One more row adds its value to exactly one of the three aggregates. */
  lemma AggregatedSnoc(txs: seq<Tx>, t: Tx, id: string)
    ensures var v := Aggregated(txs, id);
            Aggregated(txs + [t], id) == if IsOf(t, id) then Volume(v.count + 1, v.volume + Value(t)) else v
  {
  }

  /** The loop agrees with the aggregates for every agent, and its counts add up to the rows it visited. */
  method ListVolumes(txs: seq<Tx>, agentIds: set<string>) returns (volumes: map<string, Volume>)
    requires "" !in agentIds
    ensures forall id :: id in agentIds ==> Lookup(volumes, id) == Aggregated(txs, id)
    ensures forall id :: id in volumes ==> id in agentIds
    ensures SumBy(volumes, CountOf) == |Visited(txs, agentIds)| as real
  {
    hide Aggregated, SumBy;
    var transactions := Visited(txs, agentIds);
    EmptyTable();
    volumes := map[];
    for i := 0 to |transactions|
      invariant forall id :: Lookup(volumes, id) == Aggregated(transactions[..i], id)
      invariant forall id :: id in volumes ==> id in agentIds
      invariant SumBy(volumes, CountOf) == i as real
    {
      var t := transactions[i];
      VisitedOnlyAgents(txs, agentIds, i);
      var agentId := t.createdByAgentId.value;
      var prev := Lookup(volumes, agentId);
      var next := Volume(prev.count + 1, prev.volume + Value(t));
      SumByUpdate(volumes, CountOf, agentId, next);
      ghost var before := volumes;
      volumes := volumes[agentId := next];
      forall id
        ensures Lookup(volumes, id) == Aggregated(transactions[..i + 1], id)
      {
        assert transactions[..i + 1] == transactions[..i] + [t];
        AggregatedSnoc(transactions[..i], t, id);
        assert Lookup(before, id) == Aggregated(transactions[..i], id);
      }
    }
    assert transactions[..|transactions|] == transactions;
    forall id | id in agentIds
      ensures Aggregated(transactions, id) == Aggregated(txs, id)
    {
      VisitedKeepsAggregates(txs, agentIds, id);
    }
  }

  lemma EmptyTable()
    ensures forall id :: Aggregated([], id) == Volume(0, 0.0)
    ensures SumBy(map[], CountOf) == 0.0
  {
  }

  lemma {:induction false} VisitedOnlyAgents(txs: seq<Tx>, agentIds: set<string>, i: nat)
    requires i < |Visited(txs, agentIds)|
    ensures Visited(txs, agentIds)[i].createdByAgentId.Some? && Visited(txs, agentIds)[i].createdByAgentId.value in agentIds
  {
    var front := txs[..|txs| - 1];
    if i < |Visited(front, agentIds)| { VisitedOnlyAgents(front, agentIds, i); }
  }

  /** Rows of other agents do not matter for an agent on the page. */
  lemma {:induction false} VisitedKeepsAggregates(txs: seq<Tx>, agentIds: set<string>, id: string)
    requires id in agentIds
    ensures Aggregated(Visited(txs, agentIds), id) == Aggregated(txs, id)
  {
    if txs != [] {
      VisitedKeepsAggregates(txs[..|txs| - 1], agentIds, id);
      var visited := Visited(txs, agentIds);
      if visited != Visited(txs[..|txs| - 1], agentIds) {
        assert visited[..|visited| - 1] == Visited(txs[..|txs| - 1], agentIds);
      }
    }
  }
}
