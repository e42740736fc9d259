/**
 * The cascading-failure network: nodes whose fields the simulation updates
 * in place, and the model that builds them from an adjacency matrix, keeps
 * the healthy / failing / failed id sets, and runs the two-phase update
 * (every node steps, then every node advances, then the step counter moves).
 */
module Cascade {
  import opened Wrappers
  import opened CascadeRules

  /** The supported `(model_type, load_type)` pairs, lower-case. */
  const MODEL_LOAD: seq<(string, string)> :=
    [("constant", "in"), ("constant", "out"), ("load", "llss"),
     ("load", "llsc"), ("overload", "llss"), ("overload", "llsc")]

  /** Why the constructor refuses its arguments. */
  datatype ConfigError =
    | MissingAdjacency  // neither a matrix nor an edge list
    | NotSquare         // the matrix is not square
    | SizeMismatch      // the matrix, loads and capacities differ in size
    | UnsupportedTypes  // the lower-cased type pair is not in MODEL_LOAD

  function LowerChar(c: char): char {
    if 'A' <= c <= 'Z' then (c as int + 32) as char else c
  }

  /** `str.lower` on ASCII letters. */
  function Lower(s: string): (r: string)
    ensures |r| == |s|
    ensures forall i :: 0 <= i < |s| ==> r[i] == LowerChar(s[i])
  {
    if s == [] then [] else [LowerChar(s[0])] + Lower(s[1..])
  }


  function ModelName(mt: ModelType): string {
    match mt
    case Constant => "constant"
    case Load => "load"
    case Overload => "overload"
  }

  function LoadName(lt: LoadType): string {
    match lt
    case In => "in"
    case Out => "out"
    case Llss => "llss"
    case Llsc => "llsc"
  }

  /** The whitelist check on the lower-cased `model_type` and `load_type`. */
  function ParseTypes(modelType: string, loadType: string): (r: Option<(ModelType, LoadType)>)
    ensures r.Some? <==> (Lower(modelType), Lower(loadType)) in MODEL_LOAD
    ensures r.Some? ==> Supported(r.value.0, r.value.1)
    ensures r.Some? ==> ModelName(r.value.0) == Lower(modelType) && LoadName(r.value.1) == Lower(loadType)
  {
    var pair := (Lower(modelType), Lower(loadType));
    if pair == ("constant", "in") then Some((Constant, In))
    else if pair == ("constant", "out") then Some((Constant, Out))
    else if pair == ("load", "llss") then Some((Load, Llss))
    else if pair == ("load", "llsc") then Some((Load, Llsc))
    else if pair == ("overload", "llss") then Some((Overload, Llss))
    else if pair == ("overload", "llsc") then Some((Overload, Llsc))
    else None
  }

  /** Mixed case is accepted: the pair is compared after lower-casing. */
  lemma ParseTypesIgnoresCase()
    ensures ParseTypes("Load", "LLSS") == Some((Load, Llss))
  {
    var m := Lower("Load");
    assert m[0] == 'l' && m[1] == 'o' && m[2] == 'a' && m[3] == 'd';
    assert m == "load";
    var l := Lower("LLSS");
    assert l[0] == 'l' && l[1] == 'l' && l[2] == 's' && l[3] == 's';
    assert l == "llss";
  }

  /** A model type and a load type that are each valid do not make a valid pair. */
  lemma ParseTypesRejectsMixedPair()
    ensures ParseTypes("constant", "llss") == None
  {
    var c := Lower("constant");
    assert forall i :: 0 <= i < |c| ==> c[i] == "constant"[i];
    assert c == "constant";
    var l := Lower("llss");
    assert forall i :: 0 <= i < |l| ==> l[i] == "llss"[i];
    assert l == "llss";
  }

  /**
   * The constructor's checks, in the source's order: the matrix is square,
   * its size matches both vectors, and the type pair is supported.
   */
  function CheckConfig(rows: nat, cols: nat, loads: nat, capacities: nat,
                       modelType: string, loadType: string): (r: Result<(ModelType, LoadType), ConfigError>)
    ensures r == Failure(NotSquare) <==> rows != cols
    ensures r == Failure(SizeMismatch) <==> rows == cols && (rows != loads || loads != capacities)
    ensures r == Failure(UnsupportedTypes) <==>
              rows == cols == loads == capacities && (Lower(modelType), Lower(loadType)) !in MODEL_LOAD
    ensures r.Success? <==> rows == cols == loads == capacities && ParseTypes(modelType, loadType).Some?
    ensures r.Success? ==> Supported(r.value.0, r.value.1)
  {
    if rows != cols then Failure(NotSquare)
    else if rows != loads || loads != capacities then Failure(SizeMismatch)
    else
      match ParseTypes(modelType, loadType)
      case None => Failure(UnsupportedTypes)
      case Some(types) => Success(types)
  }

  /** The id-set updates of `set_load`: the id is added to one set and removed from none. */
  function SetLoadIds(ids: IdSets, v: nat, h: Health): IdSets {
    if h.load >= h.capacity then ids.(failing := ids.failing + {v}) else ids.(healthy := ids.healthy + {v})
  }

  /** `set_load` keeps every node's id in the set for its condition: the id sets still cover the nodes. */
  lemma SetLoadKeepsCover(ids: IdSets, hs: seq<Health>, v: nat, h: Health)
    requires Covers(ids, hs) && v < |hs| && !h.failed
    ensures Covers(SetLoadIds(ids, v, h), hs[v := h])
  {
    var r := SetLoadIds(ids, v, h);
    forall u | 0 <= u < |hs|
      ensures Healthy(hs[v := h][u]) ==> u in r.healthy
      ensures Failing(hs[v := h][u]) ==> u in r.failing
      ensures hs[v := h][u].failed ==> u in r.failed
    {
      if u != v {
        assert hs[v := h][u] == hs[u];
      }
    }
  }

  /**
   * `set_load` can leave an id in two sets: a healthy node loaded up to its
   * capacity joins the failing set and stays in the healthy one, so an exact
   * partition of the nodes by condition no longer holds.
   */
  lemma SetLoadCanBreakPartition(ids: IdSets, states: seq<NodeState>, v: nat, h: Health)
    requires Partition(ids, states) && v < |states| && Healthy(states[v].health)
    requires !h.failed && h.load >= h.capacity
    ensures v in SetLoadIds(ids, v, h).healthy && v in SetLoadIds(ids, v, h).failing
    ensures !Partition(SetLoadIds(ids, v, h), states[v := states[v].(health := h)])
  {
    assert v in ids.healthy;
    assert Failing(states[v := states[v].(health := h)][v].health);
  }

  /**
   * `form_edges_to_matrix`: an `nnodes` by `nnodes` matrix of zeros with a 1
   * at both `[i, j]` and `[j, i]` for every listed edge.
   */
  method FormEdgesToMatrix(nnodes: nat, edges: seq<(nat, nat)>) returns (adj: array2<int>)
    requires forall e :: e in edges ==> e.0 < nnodes && e.1 < nnodes
    ensures fresh(adj) && adj.Length0 == nnodes && adj.Length1 == nnodes
    ensures forall i, j :: 0 <= i < nnodes && 0 <= j < nnodes ==>
              adj[i, j] == if (i, j) in edges || (j, i) in edges then 1 else 0
    ensures forall i, j :: 0 <= i < nnodes && 0 <= j < nnodes ==> adj[i, j] == adj[j, i]
  {
    adj := new int[nnodes, nnodes]((i, j) => 0);
    for k := 0 to |edges|
      invariant forall i, j :: 0 <= i < nnodes && 0 <= j < nnodes ==>
                  adj[i, j] == if (i, j) in edges[..k] || (j, i) in edges[..k] then 1 else 0
    {
      var (i, j) := edges[k];
      assert edges[k] in edges;
      adj[i, j] := 1;
      adj[j, i] := 1;
      assert edges[..k + 1] == edges[..k] + [(i, j)];
    }
    assert edges[..|edges|] == edges;
  }

  /** The edge loop of the constructor: an edge `s -> t` for every non-zero entry `[s, t]`. */
  method InsertEdges(adj: array2<int>) returns (edges: Edges)
    ensures forall s: nat, t: nat :: (s, t) in edges <==> s < adj.Length0 && t < adj.Length1 && adj[s, t] != 0
  {
    edges := {};
    for source := 0 to adj.Length0
      invariant forall s: nat, t: nat :: (s, t) in edges <==> s < source && t < adj.Length1 && adj[s, t] != 0
    {
      for target := 0 to adj.Length1
        invariant forall s: nat, t: nat :: (s, t) in edges <==>
                    (s < source && t < adj.Length1 && adj[s, t] != 0) ||
                    (s == source && t < target && adj[s, t] != 0)
      {
        if adj[source, target] != 0 {
          edges := edges + {(source, target)};
        }
      }
    }
  }

  /** The matrix the constructor works on: the given one, or one built from the edge list. */
  function Shape(adjMatrix: Option<array2<int>>, loads: nat): (nat, nat) {
    if adjMatrix.Some? then (adjMatrix.value.Length0, adjMatrix.value.Length1) else (loads, loads)
  }

  /** A node of the network. */
  class Node {
    const uid: nat
    const capacity: real
    var failed: bool
    var load: real
    var nextLoad: real
    var initialLoad: real
    var finalLoad: real

    constructor (uid: nat, load: real, capacity: real)
      ensures this.uid == uid && this.capacity == capacity
      ensures State() == NodeState(Health(false, load, capacity), load, load, load)
    {
      this.uid := uid;
      this.capacity := capacity;
      failed := false;
      this.load := load;
      nextLoad := load;
      initialLoad := load;
      finalLoad := load;
    }

    /** What other nodes read of this one. */
    function Status(): Health
      reads this`failed, this`load
    {
      Health(failed, load, capacity)
    }

    function State(): NodeState
      reads this
    {
      NodeState(Status(), nextLoad, initialLoad, finalLoad)
    }

    /** `inward`: the share of in-neighbours that are failed or failing. */
    method Inward(net: CascadeNetwork)
      requires net.Valid() && net.Holds(this)
      requires InDegree(net.edges, uid, |net.nodes|) > 0
      modifies this`nextLoad
      ensures nextLoad == InwardLoad(net.Healths(), net.edges, uid)
    {
      var failedNeighbours := 0;
      for u := 0 to |net.nodes|
        invariant failedNeighbours == DownIn(net.Healths(), net.edges, uid, u)
      {
        var neighbour := net.nodes[u];
        if (u, uid) in net.edges && (neighbour.failed || Failing(neighbour.Status())) {
          failedNeighbours := failedNeighbours + 1;
        }
      }
      var indegree := InDegree(net.edges, uid, |net.nodes|);
      nextLoad := failedNeighbours as real / indegree as real;
    }

    /** `outward`: each failed or failing in-neighbour adds the inverse of its out-degree. */
    method Outward(net: CascadeNetwork)
      requires net.Valid() && net.Holds(this)
      modifies this`nextLoad
      ensures nextLoad == OutwardSum(net.Healths(), net.edges, uid, |net.nodes|)
    {
      nextLoad := 0.0;
      for u := 0 to |net.nodes|
        invariant nextLoad == OutwardSum(net.Healths(), net.edges, uid, u)
      {
        var neighbour := net.nodes[u];
        if (u, uid) in net.edges && (neighbour.failed || Failing(neighbour.Status())) {
          OutDegreeOfInNeighbour(net.edges, u, uid, |net.nodes|);
          nextLoad := nextLoad + 1.0 / OutDegree(net.edges, u, |net.nodes|) as real;
        }
      }
    }

    /** The branch `llss` and `llsc` share for a failed or failing node. */
    method SettleDown(net: CascadeNetwork)
      requires Down(Status())
      modifies this`nextLoad, this`finalLoad
      ensures finalLoad == load && nextLoad == DownLoad(net.modelType, Status())
    {
      finalLoad := load;
      nextLoad := if net.modelType == Overload then capacity else 0.0;
    }

    /** `llss`: local load shedding from failing in-neighbours. */
    method Llss(net: CascadeNetwork)
      requires net.Valid() && net.Holds(this)
      modifies this`nextLoad, this`finalLoad
      ensures Down(Status()) ==> finalLoad == load && nextLoad == DownLoad(net.modelType, Status())
      ensures !Down(Status()) ==>
                finalLoad == old(finalLoad) &&
                nextLoad == load + LlssShare(net.modelType, net.Healths(), net.edges, uid, |net.nodes|)
    {
      if failed || Failing(Status()) {
        SettleDown(net);
      } else {
        ShedFromFailingInNeighbours(net);
      }
    }

    /** The healthy branch of `llss`: start from the load and add each failing in-neighbour's part. */
    method ShedFromFailingInNeighbours(net: CascadeNetwork)
      requires net.Valid() && net.Holds(this)
      modifies this`nextLoad
      ensures nextLoad == load + LlssShare(net.modelType, net.Healths(), net.edges, uid, |net.nodes|)
    {
      var hs := net.Healths();
      var failedIn := FailedIn(hs, net.edges, uid, |hs|);
      nextLoad := load;
      for u := 0 to |hs|
        invariant nextLoad == load + LlssShare(net.modelType, hs, net.edges, uid, u)
        invariant net.Healths() == hs
      {
        assert LlssShare(net.modelType, hs, net.edges, uid, u + 1) ==
               LlssShare(net.modelType, hs, net.edges, uid, u) + LlssPart(net.modelType, hs, net.edges, uid, u);
        if u in failedIn {
          var receivers := |HealthyOut(hs, net.edges, u, |hs|)|;
          HealthyOutCountIsSize(hs, net.edges, u, |hs|);
          if receivers > 0 {
            nextLoad := nextLoad + Shed(net.modelType, hs[u]) / receivers as real;
          }
        }
      }
    }

    /**
     * `llsc` on a failed or failing node; on a healthy node the load comes from
     * `reach`, which stands for the path enumeration of `reach_in`/`reach_out`.
     */
    method Llsc(net: CascadeNetwork, reach: ReachLoad)
      requires net.Valid() && net.Holds(this)
      modifies this`nextLoad, this`finalLoad
      ensures Down(Status()) ==> finalLoad == load && nextLoad == DownLoad(net.modelType, Status())
      ensures !Down(Status()) ==> finalLoad == old(finalLoad) && nextLoad == reach(net.Healths(), net.edges, uid)
    {
      if failed || Failing(Status()) {
        SettleDown(net);
      } else {
        nextLoad := reach(net.Healths(), net.edges, uid);
      }
    }

    /** `step`: the rule the model and load types select. */
    method Step(net: CascadeNetwork, reach: ReachLoad)
      requires net.Valid() && net.Holds(this)
      requires net.modelType == Constant && net.loadType == In ==> InDegree(net.edges, uid, |net.nodes|) > 0
      modifies this`nextLoad, this`finalLoad
      ensures State() == StepRule(net.modelType, net.loadType, net.Healths(), net.edges, uid, old(State()), reach)
    {
      if net.modelType == Constant {
        if net.loadType == In {
          Inward(net);
        }
        if net.loadType == Out {
          Outward(net);
        }
      }
      if net.modelType == Load || net.modelType == Overload {
        if net.loadType == LoadType.Llsc {
          Llsc(net, reach);
        }
        if net.loadType == LoadType.Llss {
          Llss(net);
        }
      }
    }

    /**
     * `advance`: a failing node records its load, leaves the failing set and
     * joins the failed one; then the prepared load becomes the load, and a node
     * that is now failing moves from the healthy set to the failing one.
     */
    method Advance(net: CascadeNetwork)
      requires net.Valid() && net.Holds(this)
      modifies this`failed, this`load, this`finalLoad, net`healthyIds, net`failingIds, net`failedIds
      ensures net.Valid()
      ensures State() == AdvanceRule(old(State()))
      ensures net.Ids() == AdvanceIds(old(net.Ids()), uid, old(State()))
    {
      if Failing(Status()) {
        finalLoad := load;
        if uid !in net.failingIds {
          // the KeyError branch: a failing node's id is always in the failing set
          assert false;
        }
        net.failingIds := net.failingIds - {uid};
        failed := true;
        net.failedIds := net.failedIds + {uid};
      }
      load := nextLoad;
      if Failing(Status()) {
        net.failingIds := net.failingIds + {uid};
        if uid !in net.healthyIds {
          // the KeyError branch: a node that starts failing was healthy
          assert false;
        }
        net.healthyIds := net.healthyIds - {uid};
      }
    }
  }

  /** The cascade model. */
  class CascadeNetwork {
    /** The scheduled nodes; node `i` has uid `i`. */
    const nodes: seq<Node>
    const edges: Edges
    const modelType: ModelType
    const loadType: LoadType
    const maxSteps: int
    var steps: nat
    var running: bool
    var healthyIds: set<nat>
    var failingIds: set<nat>
    var failedIds: set<nat>

    function NodeSet(): set<Node> {
      set i | 0 <= i < |nodes| :: nodes[i]
    }

    predicate Holds(node: Node) {
      node.uid < |nodes| && nodes[node.uid] == node
    }

    function Ids(): IdSets
      reads this`healthyIds, this`failingIds, this`failedIds
    {
      IdSets(healthyIds, failingIds, failedIds)
    }

    function HealthsUpTo(k: nat): (hs: seq<Health>)
      requires k <= |nodes|
      reads NodeSet()`failed, NodeSet()`load
      ensures |hs| == k && forall i :: 0 <= i < k ==> hs[i] == nodes[i].Status()
    {
      if k == 0 then [] else HealthsUpTo(k - 1) + [nodes[k - 1].Status()]
    }

    /** Every node's health, by uid. */
    function Healths(): (hs: seq<Health>)
      reads NodeSet()`failed, NodeSet()`load
      ensures |hs| == |nodes| && forall i :: 0 <= i < |nodes| ==> hs[i] == nodes[i].Status()
    {
      HealthsUpTo(|nodes|)
    }

    function StatesUpTo(k: nat): (states: seq<NodeState>)
      requires k <= |nodes|
      reads NodeSet()
      ensures |states| == k && forall i :: 0 <= i < k ==> states[i] == nodes[i].State()
    {
      if k == 0 then [] else StatesUpTo(k - 1) + [nodes[k - 1].State()]
    }

    /** Every node's fields, by uid. */
    function States(): (states: seq<NodeState>)
      reads NodeSet()
      ensures |states| == |nodes| && forall i :: 0 <= i < |nodes| ==> states[i] == nodes[i].State()
    {
      StatesUpTo(|nodes|)
    }

    ghost predicate Valid()
      reads this`healthyIds, this`failingIds, this`failedIds, NodeSet()`failed, NodeSet()`load
    {
      && (forall i :: 0 <= i < |nodes| ==> nodes[i].uid == i)
      && EdgesWithin(|nodes|, edges)
      && Supported(modelType, loadType)
      && Covers(Ids(), Healths())
    }

    /**
     * The constructor once its checks have passed: one node per entry of the
     * vectors, each id in the failing set when its load reaches its capacity
     * and in the healthy set otherwise, and an edge for every non-zero entry.
     */
    constructor (adj: array2<int>, loadVec: seq<real>, capacityVec: seq<real>,
                 modelType: ModelType, loadType: LoadType, maxSteps: int)
      requires adj.Length0 == adj.Length1 == |loadVec| == |capacityVec|
      requires Supported(modelType, loadType)
      ensures Valid()
      ensures this.modelType == modelType && this.loadType == loadType && this.maxSteps == maxSteps
      ensures fresh(NodeSet())
      ensures |nodes| == |loadVec|
      ensures forall i :: 0 <= i < |nodes| ==>
                nodes[i].State() == NodeState(Health(false, loadVec[i], capacityVec[i]), loadVec[i], loadVec[i], loadVec[i])
      ensures Partition(Ids(), States()) && failedIds == {}
      ensures forall s: nat, t: nat :: (s, t) in edges <==> s < |nodes| && t < |nodes| && adj[s, t] != 0
      ensures steps == 0 && running
    {
      var n := adj.Length0;
      var created: seq<Node> := [];
      var healthy: set<nat> := {};
      var failing: set<nat> := {};
      for i := 0 to n
        invariant |created| == i
        invariant forall k :: 0 <= k < i ==> fresh(created[k]) && created[k].uid == k
        invariant forall k :: 0 <= k < i ==>
                    created[k].State() == NodeState(Health(false, loadVec[k], capacityVec[k]), loadVec[k], loadVec[k], loadVec[k])
        invariant forall u: nat :: u in failing <==> u < i && loadVec[u] >= capacityVec[u]
        invariant forall u: nat :: u in healthy <==> u < i && loadVec[u] < capacityVec[u]
      {
        var node := new Node(i, loadVec[i], capacityVec[i]);
        created := created + [node];
        if loadVec[i] >= capacityVec[i] {
          failing := failing + {i};
        } else {
          healthy := healthy + {i};
        }
      }
      var links := InsertEdges(adj);
      nodes := created;
      edges := links;
      this.modelType := modelType;
      this.loadType := loadType;
      this.maxSteps := maxSteps;
      steps := 0;
      running := true;
      healthyIds := healthy;
      failingIds := failing;
      failedIds := {};
      new;
    }

    /**
     * `CascadeNetwork(...)`: the edge list is used only when no matrix is given;
     * the checks fail in the source's order; a network that passes them is
     * built from the chosen matrix.
     */
    static method Create(adjMatrix: Option<array2<int>>, edgeList: Option<seq<(nat, nat)>>,
                         loadVec: seq<real>, capacityVec: seq<real>,
                         modelType: string, loadType: string, maxSteps: int)
      returns (r: Result<CascadeNetwork, ConfigError>)
      requires adjMatrix.None? && edgeList.Some? ==>
                 forall e :: e in edgeList.value ==> e.0 < |loadVec| && e.1 < |loadVec|
      ensures adjMatrix.None? && edgeList.None? ==> r == Failure(MissingAdjacency)
      ensures adjMatrix.Some? || edgeList.Some? ==>
                var check := CheckConfig(Shape(adjMatrix, |loadVec|).0, Shape(adjMatrix, |loadVec|).1,
                                         |loadVec|, |capacityVec|, modelType, loadType);
                && (r.Success? <==> check.Success?)
                && (r.Failure? ==> r.error == check.error)
                && (r.Success? ==> (r.value.modelType, r.value.loadType) == check.value)
      ensures r.Success? ==>
                && fresh(r.value) && r.value.Valid() && r.value.maxSteps == maxSteps
                && |r.value.nodes| == |loadVec|
                && (forall i :: 0 <= i < |loadVec| ==>
                      r.value.nodes[i].State() ==
                        NodeState(Health(false, loadVec[i], capacityVec[i]), loadVec[i], loadVec[i], loadVec[i]))
                && r.value.steps == 0 && r.value.running
                && Partition(r.value.Ids(), r.value.States()) && r.value.failedIds == {}
      ensures r.Success? && adjMatrix.Some? ==>
                forall s: nat, t: nat :: (s, t) in r.value.edges <==>
                  s < |loadVec| && t < |loadVec| && adjMatrix.value[s, t] != 0
      ensures r.Success? && adjMatrix.None? ==>
                forall s: nat, t: nat :: (s, t) in r.value.edges <==>
                  (s, t) in edgeList.value || (t, s) in edgeList.value
    {
      var adj: array2<int>;
      if adjMatrix.Some? {
        adj := adjMatrix.value;
      } else if edgeList.Some? {
        adj := FormEdgesToMatrix(|loadVec|, edgeList.value);
      } else {
        // `adj_matrix.shape` on None
        return Failure(MissingAdjacency);
      }
      assert (adj.Length0, adj.Length1) == Shape(adjMatrix, |loadVec|);
      var check := CheckConfig(adj.Length0, adj.Length1, |loadVec|, |capacityVec|, modelType, loadType);
      if check.Failure? {
        return Failure(check.error);
      }
      var network := new CascadeNetwork(adj, loadVec, capacityVec, check.value.0, check.value.1, maxSteps);
      if adjMatrix.None? {
        forall s: nat, t: nat
          ensures (s, t) in network.edges <==> (s, t) in edgeList.value || (t, s) in edgeList.value
        {
          if (s, t) in edgeList.value {
            assert s < |loadVec| && t < |loadVec|;
          }
          if (t, s) in edgeList.value {
            assert s < |loadVec| && t < |loadVec|;
          }
        }
      }
      r := Success(network);
    }

    /**
     * `set_load`: the node is no longer failed and every load field takes the
     * new value; its id joins the failing set when the load reaches the
     * capacity and the healthy set otherwise, and leaves neither.
     */
    method SetLoad(nodeId: nat, load: real)
      requires Valid() && nodeId < |nodes|
      modifies nodes[nodeId] as Node, this`healthyIds, this`failingIds
      ensures Valid()
      ensures nodes[nodeId].State() ==
                NodeState(Health(false, load, nodes[nodeId].capacity), load, load, load)
      ensures Ids() == SetLoadIds(old(Ids()), nodeId, nodes[nodeId].Status())
    {
      var node := nodes[nodeId];
      node.failed := false;
      node.load := load;
      node.nextLoad := load;
      node.initialLoad := load;
      node.finalLoad := load;
      if load >= node.capacity {
        failingIds := failingIds + {node.uid};
      } else {
        healthyIds := healthyIds + {node.uid};
      }
    }

    /** The first half of a simultaneous step: every node steps, all reading the same healths. */
    method StepPhase(reach: ReachLoad)
      requires Valid()
      requires modelType == Constant && loadType == In ==>
                 forall v :: 0 <= v < |nodes| ==> InDegree(edges, v, |nodes|) > 0
      modifies NodeSet()`nextLoad, NodeSet()`finalLoad
      ensures Valid() && Healths() == old(Healths())
      ensures States() == StepAll(modelType, loadType, old(Healths()), edges, old(States()), reach)
    {
      ghost var hs := Healths();
      ghost var before := States();
      for v := 0 to |nodes|
        invariant Healths() == hs && Valid()
        invariant forall i :: 0 <= i < |nodes| ==>
                    nodes[i].State() == if i < v then StepRule(modelType, loadType, hs, edges, i, before[i], reach)
                                        else before[i]
      {
        nodes[v].Step(this, reach);
      }
    }

    /** The second half: every node advances, in uid order. */
    method AdvancePhase()
      requires Valid()
      modifies NodeSet()`failed, NodeSet()`load, NodeSet()`finalLoad, this`healthyIds, this`failingIds, this`failedIds
      ensures Valid()
      ensures States() == AdvancedUpTo(old(States()), |nodes|)
      ensures Ids() == AdvanceIdsUpTo(old(Ids()), old(States()), |nodes|)
    {
      ghost var before := States();
      ghost var ids := Ids();
      for v := 0 to |nodes|
        invariant Valid()
        invariant forall i :: 0 <= i < |nodes| ==>
                    nodes[i].State() == if i < v then AdvanceRule(before[i]) else before[i]
        invariant Ids() == AdvanceIdsUpTo(ids, before, v)
      {
        assert forall i :: 0 <= i < |nodes| && i != v ==> nodes[i] != nodes[v] by {
          assert forall i :: 0 <= i < |nodes| ==> nodes[i].uid == i;
        }
        nodes[v].Advance(this);
      }
    }

    /**
     * `step`: the scheduler's two phases, then the step counter moves; the run
     * stops once the counter exceeds `max_steps`.
     */
    method Step(reach: ReachLoad)
      requires Valid()
      requires modelType == Constant && loadType == In ==>
                 forall v :: 0 <= v < |nodes| ==> InDegree(edges, v, |nodes|) > 0
      modifies NodeSet(), this`steps, this`running, this`healthyIds, this`failingIds, this`failedIds
      ensures Valid()
      ensures steps == old(steps) + 1
      ensures running == (old(running) && steps <= maxSteps)
      ensures var prepared := StepAll(modelType, loadType, old(Healths()), edges, old(States()), reach);
              States() == AdvancedUpTo(prepared, |nodes|) &&
              Ids() == AdvanceIdsUpTo(old(Ids()), prepared, |nodes|)
    ensures Partition(old(Ids()), old(States())) ==> Partition(Ids(), States())
    {
      if Partition(Ids(), States()) {
        StepKeepsPartition(modelType, loadType, Healths(), edges, Ids(), States(), reach);
      }
      StepPhase(reach);
      AdvancePhase();
      CountStep();
    }

    /** The scheduler's step counter, and the `max_steps` test on it. */
    method CountStep()
      modifies this`steps, this`running
      ensures steps == old(steps) + 1
      ensures running == (old(running) && steps <= maxSteps)
    {
      steps := steps + 1;
      if steps > maxSteps {
        running := false;
      }
    }
  }
}
