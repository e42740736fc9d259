/**
 * The pure rules of the cascading-failure model: a node's health, the load
 * each redistribution rule computes for the next step, and what `advance`
 * does to a node and to the model's three id sets. The classes in module
 * Cascade are proved against these functions.
 *
 * Nodes are the ids `0..n-1`; the network is a set of directed edges. The
 * rules read neighbours in ascending id order, which gives the same counts,
 * sets and (exact, real) sums as the source's unordered set iteration.
 */
module CascadeRules {

  /** `model_type`, lower-cased. */
  datatype ModelType = Constant | Load | Overload

  /** `load_type`, lower-cased. */
  datatype LoadType = In | Out | Llss | Llsc

  /** The part of a node that other nodes read: its failure flag, its load and its capacity. */
  datatype Health = Health(failed: bool, load: real, capacity: real)

  /** Every field of a node that the simulation updates. */
  datatype NodeState = NodeState(health: Health, nextLoad: real, initialLoad: real, finalLoad: real)

  /** The model's `healthy_ids`, `failing_ids` and `failed_ids`. */
  datatype IdSets = IdSets(healthy: set<nat>, failing: set<nat>, failed: set<nat>)

  type Edges = set<(nat, nat)>

  /** The healthy-node branch of `llsc`, which enumerates simple paths in a graph library. */
  type ReachLoad = (seq<Health>, Edges, nat) -> real

  /** A node that is failing now will be failed after the next `advance`. */
  predicate Failing(h: Health) {
    !h.failed && h.load >= h.capacity
  }

  /** Failed or failing: the neighbours that the constant rules count. */
  predicate Down(h: Health) {
    h.failed || Failing(h)
  }

  predicate Healthy(h: Health) {
    !h.failed && !Failing(h)
  }

  predicate EdgesWithin(n: nat, edges: Edges) {
    forall e :: e in edges ==> e.0 < n && e.1 < n
  }

  /** The supported `(model_type, load_type)` pairs. */
  predicate Supported(mt: ModelType, lt: LoadType) {
    if mt == Constant then lt == In || lt == Out else lt == Llss || lt == Llsc
  }

  /** `net_fragility`: spare capacity; once the node has failed, capacity minus `final_load`. */
  function NetFragility(s: NodeState): (r: real)
    ensures !s.health.failed ==> (r <= 0.0 <==> Failing(s.health))
    ensures s.health.failed ==> r == s.health.capacity - s.finalLoad
  {
    if s.health.failed then s.health.capacity - s.finalLoad else s.health.capacity - s.health.load
  }

  /** The node ids `0..n-1`. */
  function Ids(n: nat): (r: set<nat>)
    ensures forall u: nat :: u in r <==> u < n
  {
    if n == 0 then {} else Ids(n - 1) + {n - 1}
  }

  /** The in-neighbours of `v` among the nodes `0..k-1`. */
  function Predecessors(edges: Edges, v: nat, k: nat): set<nat> {
    set u | u in Ids(k) && (u, v) in edges
  }

  /** The number of in-neighbours of `v` among the nodes `0..k-1`. */
  function InDegree(edges: Edges, v: nat, k: nat): nat {
    if k == 0 then 0 else InDegree(edges, v, k - 1) + (if (k - 1, v) in edges then 1 else 0)
  }

  /** The number of out-neighbours of `u` among the nodes `0..k-1`. */
  function OutDegree(edges: Edges, u: nat, k: nat): nat {
    if k == 0 then 0 else OutDegree(edges, u, k - 1) + (if (u, k - 1) in edges then 1 else 0)
  }

  /** The count `in_degree` reports is the number of distinct predecessors. */
  lemma {:induction false} InDegreeCountsPredecessors(edges: Edges, v: nat, k: nat)
    ensures InDegree(edges, v, k) == |Predecessors(edges, v, k)|
  {
    if k > 0 {
      InDegreeCountsPredecessors(edges, v, k - 1);
      var before := Predecessors(edges, v, k - 1);
      assert k - 1 !in before;
      if (k - 1, v) in edges {
        assert Predecessors(edges, v, k) == before + {k - 1};
      } else {
        assert Predecessors(edges, v, k) == before;
      }
    }
  }

  /** A node with an edge into a node of the network has at least one out-neighbour. */
  lemma {:induction false} OutDegreeOfInNeighbour(edges: Edges, u: nat, v: nat, k: nat)
    requires (u, v) in edges && v < k
    ensures OutDegree(edges, u, k) >= 1
  {
    if v < k - 1 {
      OutDegreeOfInNeighbour(edges, u, v, k - 1);
    }
  }

  /** The number of failed or failing in-neighbours of `v` among the nodes `0..k-1`. */
  function DownIn(hs: seq<Health>, edges: Edges, v: nat, k: nat): (r: nat)
    requires k <= |hs|
    ensures r <= InDegree(edges, v, k)
  {
    if k == 0 then 0
    else DownIn(hs, edges, v, k - 1) + (if (k - 1, v) in edges && Down(hs[k - 1]) then 1 else 0)
  }

  /** `inward`: the fraction of in-neighbours that are failed or failing. */
  function InwardLoad(hs: seq<Health>, edges: Edges, v: nat): (r: real)
    requires InDegree(edges, v, |hs|) > 0
    ensures 0.0 <= r <= 1.0
    ensures r == 1.0 <==> DownIn(hs, edges, v, |hs|) == InDegree(edges, v, |hs|)
  {
    var down := DownIn(hs, edges, v, |hs|) as real;
    var degree := InDegree(edges, v, |hs|) as real;
    assert down <= degree;
    if down == degree then 1.0
    else
      QuotientBelowOne(down, degree);
      down / degree
  }

  /** `outward` over the in-neighbours `0..k-1`: each failed or failing one adds `1/outdegree`. */
  function OutwardSum(hs: seq<Health>, edges: Edges, v: nat, k: nat): (r: real)
    requires k <= |hs| && v < |hs|
    ensures 0.0 <= r <= DownIn(hs, edges, v, k) as real
  {
    if k == 0 then 0.0
    else if (k - 1, v) in edges && Down(hs[k - 1]) then
      OutDegreeOfInNeighbour(edges, k - 1, v, |hs|);
      var share := 1.0 / OutDegree(edges, k - 1, |hs|) as real;
      assert 0.0 < share <= 1.0;
      OutwardSum(hs, edges, v, k - 1) + share
    else OutwardSum(hs, edges, v, k - 1)
  }

  /** `failed_in` over the in-neighbours `0..k-1`: those that are failing (not those already failed). */
  function FailedIn(hs: seq<Health>, edges: Edges, v: nat, k: nat): (r: set<nat>)
    requires k <= |hs|
    ensures forall u :: u in r <==> u < k && (u, v) in edges && Failing(hs[u])
  {
    if k == 0 then {}
    else FailedIn(hs, edges, v, k - 1) + (if (k - 1, v) in edges && Failing(hs[k - 1]) then {k - 1} else {})
  }

  /** `healthy_out` over the out-neighbours `0..k-1`: those neither failed nor failing. */
  function HealthyOut(hs: seq<Health>, edges: Edges, u: nat, k: nat): (r: set<nat>)
    requires k <= |hs|
    ensures forall w :: w in r <==> w < k && (u, w) in edges && Healthy(hs[w])
  {
    if k == 0 then {}
    else HealthyOut(hs, edges, u, k - 1) + (if (u, k - 1) in edges && Healthy(hs[k - 1]) then {k - 1} else {})
  }

  /** The number of healthy out-neighbours of `u` among the nodes `0..k-1`. */
  function HealthyOutCount(hs: seq<Health>, edges: Edges, u: nat, k: nat): nat
    requires k <= |hs|
  {
    if k == 0 then 0
    else HealthyOutCount(hs, edges, u, k - 1) + (if (u, k - 1) in edges && Healthy(hs[k - 1]) then 1 else 0)
  }

  /** `len(healthy_out())` is the count of healthy out-neighbours. */
  lemma {:induction false} HealthyOutCountIsSize(hs: seq<Health>, edges: Edges, u: nat, k: nat)
    requires k <= |hs|
    ensures HealthyOutCount(hs, edges, u, k) == |HealthyOut(hs, edges, u, k)|
  {
    if k > 0 {
      HealthyOutCountIsSize(hs, edges, u, k - 1);
      assert k - 1 !in HealthyOut(hs, edges, u, k - 1);
    }
  }

  /** What a failing node sheds: its load under "load", its excess over capacity otherwise. */
  function Shed(mt: ModelType, h: Health): real {
    if mt == Load then h.load else h.load - h.capacity
  }

  /**
   * What the in-neighbour `u` hands to `v` under `llss`: when `u` is failing and
   * has healthy out-neighbours, an equal part of what it sheds.
   */
  function LlssPart(mt: ModelType, hs: seq<Health>, edges: Edges, v: nat, u: nat): real
    requires u < |hs|
  {
    var receivers := HealthyOutCount(hs, edges, u, |hs|);
    if (u, v) in edges && Failing(hs[u]) && receivers > 0 then Shed(mt, hs[u]) / receivers as real
    else 0.0
  }

  /** The load `llss` adds to `v` from the in-neighbours `0..k-1`. */
  function LlssShare(mt: ModelType, hs: seq<Health>, edges: Edges, v: nat, k: nat): real
    requires k <= |hs|
  {
    if k == 0 then 0.0 else LlssShare(mt, hs, edges, v, k - 1) + LlssPart(mt, hs, edges, v, k - 1)
  }

  /**
   * No part is negative: what a failing node sheds is its excess over capacity,
   * or under "load" its whole load, which is not negative when capacities are not.
   */
  lemma LlssPartNonNegative(mt: ModelType, hs: seq<Health>, edges: Edges, v: nat, u: nat)
    requires u < |hs|
    requires mt == Load ==> hs[u].capacity >= 0.0
    ensures LlssPart(mt, hs, edges, v, u) >= 0.0
  {
    var receivers := HealthyOutCount(hs, edges, u, |hs|);
    if (u, v) in edges && Failing(hs[u]) && receivers > 0 {
      QuotientNonNegative(Shed(mt, hs[u]), receivers as real);
    }
  }

  /** Local shedding never lowers a healthy node's load (capacities not negative under "load"). */
  lemma {:induction false} LlssShareNonNegative(mt: ModelType, hs: seq<Health>, edges: Edges, v: nat, k: nat)
    requires k <= |hs|
    requires mt == Load ==> forall i :: 0 <= i < |hs| ==> hs[i].capacity >= 0.0
    ensures LlssShare(mt, hs, edges, v, k) >= 0.0
  {
    if k > 0 {
      LlssShareNonNegative(mt, hs, edges, v, k - 1);
      LlssPartNonNegative(mt, hs, edges, v, k - 1);
    }
  }

  lemma QuotientBelowOne(a: real, b: real)
    requires 0.0 <= a < b
    ensures 0.0 <= a / b < 1.0
  {
    assert a / b * b == a;
  }

  lemma QuotientNonNegative(a: real, b: real)
    requires a >= 0.0 && b > 0.0
    ensures a / b >= 0.0
  {
  }

  /** With no failing in-neighbour, local shedding leaves a healthy node's load as it is. */
  lemma {:induction false} LlssShareWithoutFailingInNeighbours(mt: ModelType, hs: seq<Health>, edges: Edges, v: nat, k: nat)
    requires k <= |hs|
    requires FailedIn(hs, edges, v, |hs|) == {}
    ensures LlssShare(mt, hs, edges, v, k) == 0.0
  {
    if k > 0 {
      LlssShareWithoutFailingInNeighbours(mt, hs, edges, v, k - 1);
      assert k - 1 !in FailedIn(hs, edges, v, |hs|);
      assert LlssPart(mt, hs, edges, v, k - 1) == 0.0;
    }
  }

  /** The load a failed or failing node hands to `_next_load` under `llss` and `llsc`. */
  function DownLoad(mt: ModelType, h: Health): real {
    if mt == Overload then h.capacity else 0.0
  }

  /**
   * A node's `step`: the rule selected by the model and load types sets
   * `_next_load` (and, for a failed or failing node under the load rules,
   * `final_load`). `hs` is every node's health at the time; `s` is this node.
   */
  function StepRule(mt: ModelType, lt: LoadType, hs: seq<Health>, edges: Edges, v: nat,
                    s: NodeState, reach: ReachLoad): (r: NodeState)
    requires v < |hs|
    requires mt == Constant && lt == In ==> InDegree(edges, v, |hs|) > 0
    ensures r.health == s.health && r.initialLoad == s.initialLoad
    ensures mt == Constant && lt == In ==> 0.0 <= r.nextLoad <= 1.0 && r.finalLoad == s.finalLoad
    ensures mt == Constant && lt == Out ==>
              0.0 <= r.nextLoad <= DownIn(hs, edges, v, |hs|) as real && r.finalLoad == s.finalLoad
    ensures mt != Constant && (lt == Llss || lt == Llsc) && Down(s.health) ==>
              r.finalLoad == s.health.load && r.nextLoad == DownLoad(mt, s.health)
    ensures mt != Constant && lt == Llss && !Down(s.health) ==>
              r.nextLoad == s.health.load + LlssShare(mt, hs, edges, v, |hs|) && r.finalLoad == s.finalLoad
    ensures !Supported(mt, lt) ==> r == s
  {
    if mt == Constant then
      if lt == In then s.(nextLoad := InwardLoad(hs, edges, v))
      else if lt == Out then s.(nextLoad := OutwardSum(hs, edges, v, |hs|))
      else s
    else if lt == Llss || lt == Llsc then
      if Down(s.health) then s.(finalLoad := s.health.load, nextLoad := DownLoad(mt, s.health))
      else if lt == Llss then s.(nextLoad := s.health.load + LlssShare(mt, hs, edges, v, |hs|))
      else s.(nextLoad := reach(hs, edges, v))
    else s
  }

  /**
   * A node's `advance`: a failing node records its load and becomes failed,
   * then the prepared load becomes the load.
   */
  function AdvanceRule(s: NodeState): (r: NodeState)
    ensures r.health.load == s.nextLoad && r.health.capacity == s.health.capacity
    ensures r.health.failed <==> Down(s.health)
    ensures r.finalLoad == if Failing(s.health) then s.health.load else s.finalLoad
    ensures r.nextLoad == s.nextLoad && r.initialLoad == s.initialLoad
    ensures Failing(r.health) ==> Healthy(s.health)
  {
    var settled := if Failing(s.health) then s.(finalLoad := s.health.load, health := s.health.(failed := true)) else s;
    settled.(health := settled.health.(load := s.nextLoad))
  }

  /** The id-set updates of one node's `advance`, given the node's state before it. */
  function AdvanceIds(ids: IdSets, v: nat, s: NodeState): IdSets {
    var settled :=
      if Failing(s.health) then IdSets(ids.healthy, ids.failing - {v}, ids.failed + {v}) else ids;
    if Failing(AdvanceRule(s).health) then
      IdSets(settled.healthy - {v}, settled.failing + {v}, settled.failed)
    else settled
  }

  /** The id sets after the nodes `0..k-1` have advanced, in order, from the prepared states `pre`. */
  function AdvanceIdsUpTo(ids: IdSets, pre: seq<NodeState>, k: nat): IdSets
    requires k <= |pre|
  {
    if k == 0 then ids else AdvanceIds(AdvanceIdsUpTo(ids, pre, k - 1), k - 1, pre[k - 1])
  }

  /** Every node after the step phase: `StepRule` applied to each, all reading the same healths. */
  function StepAll(mt: ModelType, lt: LoadType, hs: seq<Health>, edges: Edges,
                   states: seq<NodeState>, reach: ReachLoad): (r: seq<NodeState>)
    requires |states| == |hs|
    requires mt == Constant && lt == In ==> forall v :: 0 <= v < |hs| ==> InDegree(edges, v, |hs|) > 0
    ensures |r| == |states|
    ensures forall v :: 0 <= v < |r| ==> r[v].health == states[v].health && r[v].initialLoad == states[v].initialLoad
  {
    seq(|states|, v requires 0 <= v < |states| => StepRule(mt, lt, hs, edges, v, states[v], reach))
  }

  /** The states after the nodes `0..k-1` of `pre` have advanced. */
  function AdvancedUpTo(pre: seq<NodeState>, k: nat): seq<NodeState>
    requires k <= |pre|
  {
    seq(|pre|, v requires 0 <= v < |pre| => if v < k then AdvanceRule(pre[v]) else pre[v])
  }

  /** Each of the three sets holds exactly the ids of the nodes in that condition. */
  ghost predicate Partition(ids: IdSets, states: seq<NodeState>) {
    && (forall u: nat :: u in ids.healthy <==> u < |states| && Healthy(states[u].health))
    && (forall u: nat :: u in ids.failing <==> u < |states| && Failing(states[u].health))
    && (forall u: nat :: u in ids.failed <==> u < |states| && states[u].health.failed)
  }

  /** Each node's id is in the set for its condition; ids may linger in other sets. */
  ghost predicate Covers(ids: IdSets, hs: seq<Health>) {
    && (forall u :: u in ids.healthy || u in ids.failing || u in ids.failed ==> u < |hs|)
    && (forall u :: 0 <= u < |hs| ==>
          (Healthy(hs[u]) ==> u in ids.healthy) &&
          (Failing(hs[u]) ==> u in ids.failing) &&
          (hs[u].failed ==> u in ids.failed))
  }

  /** One node's `advance` keeps the three sets an exact partition of the nodes by condition. */
  lemma AdvanceIdsKeepsPartition(ids: IdSets, states: seq<NodeState>, v: nat)
    requires v < |states| && Partition(ids, states)
    ensures Partition(AdvanceIds(ids, v, states[v]), states[v := AdvanceRule(states[v])])
  {
    var after := states[v := AdvanceRule(states[v])];
    var r := AdvanceIds(ids, v, states[v]);
    forall u: nat
      ensures (u in r.healthy <==> u < |after| && Healthy(after[u].health))
      ensures (u in r.failing <==> u < |after| && Failing(after[u].health))
      ensures (u in r.failed <==> u < |after| && after[u].health.failed)
    {
      if u != v {
        assert u < |after| ==> after[u] == states[u];
      }
    }
  }

  /**
   * The advance phase keeps the three sets an exact partition: starting from a
   * partition, once the nodes `0..k-1` have advanced in order, the sets describe
   * the advanced nodes exactly.
   */
  lemma {:induction false} AdvancePhaseKeepsPartition(ids: IdSets, pre: seq<NodeState>, k: nat)
    requires k <= |pre| && Partition(ids, pre)
    ensures Partition(AdvanceIdsUpTo(ids, pre, k), AdvancedUpTo(pre, k))
  {
    if k > 0 {
      AdvancePhaseKeepsPartition(ids, pre, k - 1);
      var before := AdvancedUpTo(pre, k - 1);
      AdvanceIdsKeepsPartition(AdvanceIdsUpTo(ids, pre, k - 1), before, k - 1);
      assert before[k - 1 := AdvanceRule(before[k - 1])] == AdvancedUpTo(pre, k);
    }
  }

  /**
   * A whole simultaneous step keeps the three sets an exact partition: the
   * step phase changes no node's condition, and the advance phase then moves
   * ids exactly as the nodes' conditions change.
   */
  lemma StepKeepsPartition(mt: ModelType, lt: LoadType, hs: seq<Health>, edges: Edges,
                           ids: IdSets, states: seq<NodeState>, reach: ReachLoad)
    requires |states| == |hs| && Partition(ids, states)
    requires mt == Constant && lt == In ==> forall v :: 0 <= v < |hs| ==> InDegree(edges, v, |hs|) > 0
    ensures var prepared := StepAll(mt, lt, hs, edges, states, reach);
            Partition(AdvanceIdsUpTo(ids, prepared, |prepared|), AdvancedUpTo(prepared, |prepared|))
  {
    var prepared := StepAll(mt, lt, hs, edges, states, reach);
    assert forall u: nat :: u < |prepared| ==> prepared[u].health == states[u].health;
    AdvancePhaseKeepsPartition(ids, prepared, |prepared|);
  }

  /** A failed node stays failed and never re-enters the failing set, whatever load it is given. */
  lemma FailedIsFinal(s: NodeState)
    requires s.health.failed
    ensures AdvanceRule(s).health.failed && !Failing(AdvanceRule(s).health)
    ensures forall ids: IdSets, v: nat :: AdvanceIds(ids, v, s) == ids
  {
  }

  /**
   * The step rule the name `final_load` and `advance` point to: only a failing
   * node records its load; a node that has already failed keeps the load it
   * failed with, and only prepares its settled load.
   */
  function IntendedStepRule(mt: ModelType, lt: LoadType, hs: seq<Health>, edges: Edges, v: nat,
                            s: NodeState, reach: ReachLoad): (r: NodeState)
    requires v < |hs|
    requires mt == Constant && lt == In ==> InDegree(edges, v, |hs|) > 0
    ensures r.health == s.health && r.initialLoad == s.initialLoad
    ensures s.health.failed ==> r.finalLoad == s.finalLoad
    ensures !s.health.failed ==> r == StepRule(mt, lt, hs, edges, v, s, reach)
  {
    if s.health.failed && mt != Constant && (lt == Llss || lt == Llsc) then s.(nextLoad := DownLoad(mt, s.health))
    else StepRule(mt, lt, hs, edges, v, s, reach)
  }

  /**
   * As written, the load-shedding rules rewrite `final_load` of a node that
   * has already failed: an overloaded lone node with load 5 and capacity 3
   * fails with net fragility -2, and one step later reports 0.
   */
  lemma FinalLoadRewrittenAfterFailure(reach: ReachLoad)
    ensures var s0 := NodeState(Health(false, 5.0, 3.0), 5.0, 5.0, 5.0);
            var s1 := AdvanceRule(StepRule(Overload, Llss, [s0.health], {}, 0, s0, reach));
            var s2 := AdvanceRule(StepRule(Overload, Llss, [s1.health], {}, 0, s1, reach));
            s1.health.failed && NetFragility(s1) == -2.0 && NetFragility(s2) == 0.0
  {
    var s0 := NodeState(Health(false, 5.0, 3.0), 5.0, 5.0, 5.0);
    var s1 := AdvanceRule(StepRule(Overload, Llss, [s0.health], {}, 0, s0, reach));
    assert s1 == NodeState(Health(true, 3.0, 3.0), 3.0, 5.0, 5.0);
  }

  /**
   * Under the intended rule a failed node's net fragility never changes again:
   * a step followed by an advance leaves it as it was at failure.
   */
  lemma IntendedRuleKeepsFragilityAtFailure(mt: ModelType, lt: LoadType, hs: seq<Health>, edges: Edges, v: nat,
                                            s: NodeState, reach: ReachLoad)
    requires v < |hs| && s.health.failed
    requires mt == Constant && lt == In ==> InDegree(edges, v, |hs|) > 0
    ensures var r := AdvanceRule(IntendedStepRule(mt, lt, hs, edges, v, s, reach));
            r.health.failed && r.finalLoad == s.finalLoad && NetFragility(r) == NetFragility(s)
  {
  }

  /** On the lone-node run above, the intended rule keeps net fragility at -2. */
  lemma IntendedRuleKeepsLoneNodeFragility(reach: ReachLoad)
    ensures var s0 := NodeState(Health(false, 5.0, 3.0), 5.0, 5.0, 5.0);
            var s1 := AdvanceRule(IntendedStepRule(Overload, Llss, [s0.health], {}, 0, s0, reach));
            var s2 := AdvanceRule(IntendedStepRule(Overload, Llss, [s1.health], {}, 0, s1, reach));
            NetFragility(s1) == -2.0 && NetFragility(s2) == -2.0
  {
    var s0 := NodeState(Health(false, 5.0, 3.0), 5.0, 5.0, 5.0);
    var s1 := AdvanceRule(IntendedStepRule(Overload, Llss, [s0.health], {}, 0, s0, reach));
    assert s1 == NodeState(Health(true, 3.0, 3.0), 3.0, 5.0, 5.0);
  }
}
