/**
 * The network-formation World of generic_model.py: agents are nodes of an
 * undirected graph, they are added with fresh uids, stepped in insertion
 * order, and the run stops when the network is pairwise stable at a check
 * boundary or when the step budget is used up.
 *
 * What an agent does when it steps, and which partner its best single move
 * would involve, is left to concrete agents in the repository; here both are
 * parameters (`Move` and `BestAction`).
 */
module NetworkWorld {
  import opened Wrappers

  /** The World's network: agent uids as nodes; a link is the set of its two endpoints. */
  datatype Graph = Graph(nodes: set<nat>, links: set<set<nat>>)

  /**
   * An agent's `best_simple_action(create, mutual)`, seen from the World:
   * given the current network and the agent's uid, the partner of its most
   * improving single link creation (create = true) or deletion, or None when
   * it has no improving move of that kind.
   */
  type BestAction = (Graph, nat, bool, bool) -> Option<nat>

  /** What an agent's `step` does to the network: the links after its move (nodes are left alone). */
  type Move = (Graph, nat) -> set<set<nat>>

  /** One consultation of the oracle: which agent, for which kind of move. */
  datatype Query = Query(agent: nat, create: bool, mutual: bool)

  /** The answer of a stability test, with the consultations it made, in order. */
  datatype Verdict = Verdict(stable: bool, asked: seq<Query>)

  // ---------------------------------------------------------------------
  // Run parameters
  // ---------------------------------------------------------------------

  /** Python truthiness of an optional count: None and 0 are false. */
  predicate Truthy(o: Option<nat>)
  {
    o.Some? && o.value != 0
  }

  /**
   * The constructor's derivation of `check_stability`, as written: an unset
   * request together with a step cap gives `max_steps + 1`; everything else,
   * including an explicit request, gives 1.
   */
  function DeriveCheckStability(requested: Option<nat>, maxSteps: Option<nat>): (r: nat)
    ensures r >= 1
    ensures Truthy(requested) ==> r == 1
    ensures !Truthy(maxSteps) ==> r == 1
    ensures !Truthy(requested) && Truthy(maxSteps) ==> r > maxSteps.value
  {
    if !Truthy(requested) && Truthy(maxSteps) then maxSteps.value + 1 else 1
  }

  /**
   * The derivation the parameter's documentation describes: an explicit
   * request is kept; otherwise the as-written default applies.
   */
  function IntendedCheckStability(requested: Option<nat>, maxSteps: Option<nat>): (r: nat)
    ensures r >= 1
    ensures Truthy(requested) ==> r == requested.value
    ensures !Truthy(requested) ==> r == DeriveCheckStability(requested, maxSteps)
  {
    if Truthy(requested) then requested.value
    else if Truthy(maxSteps) then maxSteps.value + 1
    else 1
  }

  /** Whether `step` runs the pairwise-stability test at (already advanced) time `time`. */
  predicate CheckDue(checkStability: nat, time: nat)
  {
    time > 0 && checkStability != 0 && time % checkStability == 0
  }

  /** Whether `step` stops the run because the step budget is used up. */
  predicate CapReached(maxSteps: Option<nat>, time: nat)
  {
    Truthy(maxSteps) && time >= maxSteps.value
  }

  /** An explicit `check_stability` never survives construction. */
  lemma ExplicitCheckIntervalDiscarded()
    ensures DeriveCheckStability(Some(5), None) == 1
    ensures DeriveCheckStability(Some(5), Some(10)) == 1
    ensures IntendedCheckStability(Some(5), Some(10)) == 5
  {
  }

  /**
   * With the intended derivation, an explicit interval `c` is honoured: the
   * stability test is first due at time `c`, not before.
   */
  lemma IntendedCheckFirstDueAtRequestedInterval(c: nat, maxSteps: Option<nat>)
    requires c > 0
    ensures CheckDue(IntendedCheckStability(Some(c), maxSteps), c)
    ensures forall t: nat :: 0 < t < c ==> !CheckDue(IntendedCheckStability(Some(c), maxSteps), t)
  {
    forall t: nat | 0 < t < c
      ensures t % c != 0
    {
      assert t % c == t;
    }
  }

  /**
   * With the default interval and a step cap m, the periodic stability test is
   * never due at any time the run can reach (the cap stops it at time m).
   */
  lemma DefaultCheckNeverFiresBeforeCap(m: nat, t: nat)
    requires 0 < m && t <= m
    ensures !CheckDue(DeriveCheckStability(None, Some(m)), t)
  {
    if t > 0 {
      assert t % (m + 1) == t;
    }
  }

  // ---------------------------------------------------------------------
  // Reporting cadence
  // ---------------------------------------------------------------------

  /** The times, in order, at which `step` has called the data collector once the clock reads `time`. */
  function CollectionTimes(interval: nat, time: nat): seq<nat>
    requires interval > 0
  {
    if time == 0 then []
    else CollectionTimes(interval, time - 1) + (if (time - 1) % interval == 0 then [time - 1] else [])
  }

  /** Data is collected exactly at the multiples of the polling interval, in increasing order. */
  lemma {:induction false} CollectionTimesExactly(interval: nat, time: nat)
    requires interval > 0
    ensures forall t: nat :: t in CollectionTimes(interval, time) <==> t < time && t % interval == 0
    ensures forall i, j :: 0 <= i < j < |CollectionTimes(interval, time)| ==>
              CollectionTimes(interval, time)[i] < CollectionTimes(interval, time)[j]
  {
    if time > 0 {
      CollectionTimesExactly(interval, time - 1);
      var before := CollectionTimes(interval, time - 1);
      var last := if (time - 1) % interval == 0 then [time - 1] else [];
      assert CollectionTimes(interval, time) == before + last;
      forall t: nat
        ensures t in before + last <==> t < time && t % interval == 0
      {
        assert t in before + last <==> t in before || t in last;
      }
      forall i, j | 0 <= i < j < |before + last|
        ensures (before + last)[i] < (before + last)[j]
      {
        if j >= |before| {
          assert before[i] in before;
        }
      }
    }
  }

  /** A polling interval of 3 over a 10-step run reports at times 0, 3, 6 and 9 only. */
  lemma CollectionEveryThirdStep()
    ensures CollectionTimes(3, 10) == [0, 3, 6, 9]
  {
    assert CollectionTimes(3, 4) == [0, 3];
    assert CollectionTimes(3, 7) == [0, 3, 6];
  }

  // ---------------------------------------------------------------------
  // Stability predicates
  // ---------------------------------------------------------------------

  /**
   * `_is_simple_action_stable` over an explicit agent list: consult the oracle
   * agent by agent and stop at the first one that has a partner.
   */
  function ScanStable(best: BestAction, net: Graph, agents: seq<nat>, create: bool, mutual: bool): (v: Verdict)
    ensures v.stable <==> forall i :: 0 <= i < |agents| ==> best(net, agents[i], create, mutual).None?
    ensures |v.asked| <= |agents|
    ensures forall k :: 0 <= k < |v.asked| ==> v.asked[k] == Query(agents[k], create, mutual)
    ensures v.stable ==> |v.asked| == |agents|
    ensures !v.stable ==> 0 < |v.asked| && best(net, agents[|v.asked| - 1], create, mutual).Some?
    ensures forall k :: 0 <= k < |v.asked| - 1 ==> best(net, agents[k], create, mutual).None?
    decreases |agents|
  {
    if agents == [] then Verdict(true, [])
    else if best(net, agents[0], create, mutual).Some? then Verdict(false, [Query(agents[0], create, mutual)])
    else
      var rest := ScanStable(best, net, agents[1..], create, mutual);
      Verdict(rest.stable, [Query(agents[0], create, mutual)] + rest.asked)
  }

  /** The agents a stability test ranges over: the given list, or all scheduled agents when none is given. */
  function SelectAgents(agents: Option<seq<nat>>, schedule: seq<nat>): seq<nat>
  {
    if agents.Some? then agents.value else schedule
  }

  /** `_is_simple_action_stable(agents, create, mutual)`. */
  function IsSimpleActionStable(best: BestAction, net: Graph, schedule: seq<nat>, agents: Option<seq<nat>>,
                                create: bool, mutual: bool): (v: Verdict)
    ensures v.stable <==> forall i :: 0 <= i < |SelectAgents(agents, schedule)| ==>
                            best(net, SelectAgents(agents, schedule)[i], create, mutual).None?
    ensures forall q :: q in v.asked ==> q.create == create && q.mutual == mutual
  {
    ScanStable(best, net, SelectAgents(agents, schedule), create, mutual)
  }

  /** `is_deletion_stable`: no selected agent wants to delete a link. */
  function IsDeletionStable(best: BestAction, net: Graph, schedule: seq<nat>, agents: Option<seq<nat>>,
                            mutual: bool): (v: Verdict)
    ensures v.stable <==> forall i :: 0 <= i < |SelectAgents(agents, schedule)| ==>
                            best(net, SelectAgents(agents, schedule)[i], false, mutual).None?
    ensures forall q :: q in v.asked ==> !q.create
  {
    IsSimpleActionStable(best, net, schedule, agents, false, mutual)
  }

  /** `is_creation_stable`: no selected agent wants to create a link. */
  function IsCreationStable(best: BestAction, net: Graph, schedule: seq<nat>, agents: Option<seq<nat>>,
                            mutual: bool): (v: Verdict)
    ensures v.stable <==> forall i :: 0 <= i < |SelectAgents(agents, schedule)| ==>
                            best(net, SelectAgents(agents, schedule)[i], true, mutual).None?
    ensures forall q :: q in v.asked ==> q.create
  {
    IsSimpleActionStable(best, net, schedule, agents, true, mutual)
  }

  /**
   * `is_pairwise_stable`: deletion stability first; creation stability is
   * only consulted when no agent wants to delete.
   */
  function IsPairwiseStable(best: BestAction, net: Graph, schedule: seq<nat>, agents: Option<seq<nat>>,
                            mutualCreate: bool, mutualDelete: bool): (v: Verdict)
    ensures v.stable <==>
              (forall i :: 0 <= i < |SelectAgents(agents, schedule)| ==>
                 best(net, SelectAgents(agents, schedule)[i], false, mutualDelete).None?) &&
              (forall i :: 0 <= i < |SelectAgents(agents, schedule)| ==>
                 best(net, SelectAgents(agents, schedule)[i], true, mutualCreate).None?)
    ensures !IsDeletionStable(best, net, schedule, agents, mutualDelete).stable ==>
              forall q :: q in v.asked ==> !q.create
  {
    var deletion := IsDeletionStable(best, net, schedule, agents, mutualDelete);
    if !deletion.stable then Verdict(false, deletion.asked)
    else
      var creation := IsCreationStable(best, net, schedule, agents, mutualCreate);
      Verdict(creation.stable, deletion.asked + creation.asked)
  }

  // ---------------------------------------------------------------------
  // Scheduling
  // ---------------------------------------------------------------------

  /** The network after the first `count` of `agents`, in order, have each made their move. */
  function ActInOrder(net: Graph, agents: seq<nat>, count: nat, move: Move): (r: Graph)
    requires count <= |agents|
    ensures r.nodes == net.nodes
  {
    if count == 0 then net
    else
      var before := ActInOrder(net, agents, count - 1, move);
      Graph(before.nodes, move(before, agents[count - 1]))
  }

  /**
   * The scheduler's pass over its agents (`BaseScheduler.step` without the
   * clock): each agent steps, in insertion order, against the network as the
   * agents before it have left it.
   */
  method SchedulerStep(net: Graph, agents: seq<nat>, move: Move) returns (after: Graph)
    ensures after == ActInOrder(net, agents, |agents|, move)
    ensures after.nodes == net.nodes
  {
    after := net;
    for i := 0 to |agents|
      invariant after == ActInOrder(net, agents, i, move)
    {
      after := Graph(after.nodes, move(after, agents[i]));
    }
  }

  /** The uids lo, lo + 1, ..., lo + count - 1. */
  function IdRange(lo: nat, count: nat): seq<nat>
  {
    seq(count, i requires 0 <= i < count => lo + i)
  }

  /** The uids occurring in `s`. */
  function Elems(s: seq<nat>): set<nat>
  {
    set u | u in s
  }

  /** The uids in `nodes` from `lo` upwards. */
  function Above(nodes: set<nat>, lo: nat): set<nat>
  {
    set u | u in nodes && u >= lo
  }

  class World {
    /** The nodes of the network: agent uids. */
    var nodes: set<nat>
    /** The links of the network. */
    var links: set<set<nat>>
    /** The scheduled agents, by uid, in insertion order. */
    var schedule: seq<nat>
    var idCounter: nat
    /** The scheduler's clock. */
    var time: nat
    var running: bool
    /** The clock readings at which the data collector was invoked, in order. */
    var collected: seq<nat>
    var checkStability: nat
    const pollingInterval: nat
    const maxSteps: Option<nat>
    const mutualCreate: bool
    const mutualDelete: bool
    const numAgents: nat

    /** The network as a value, as the agents see it. */
    function Net(): Graph
      reads this`nodes, this`links
    {
      Graph(nodes, links)
    }

    /** Every node is exactly one scheduled agent, and every uid is below the counter. */
    ghost predicate AgentsAreNodes()
      reads this`nodes, this`schedule, this`idCounter
    {
      && (forall u :: u in nodes <==> u in schedule)
      && (forall i, j :: 0 <= i < j < |schedule| ==> schedule[i] != schedule[j])
      && (forall u :: u in nodes ==> u < idCounter)
    }

    /** Reporting has followed the polling cadence, and the run is stopped once the budget is used up. */
    ghost predicate Cadence()
      reads this`time, this`collected, this`running
    {
      && pollingInterval > 0
      && collected == CollectionTimes(pollingInterval, time)
      && (CapReached(maxSteps, time) ==> !running)
    }

    ghost predicate Valid()
      reads this
    {
      AgentsAreNodes() && Cadence()
    }

    constructor (numAgents: nat, mutualCreate: bool, mutualDelete: bool, pollingInterval: nat,
                 checkStability: Option<nat>, maxSteps: Option<nat>)
      requires pollingInterval > 0
      ensures Valid()
      ensures this.checkStability == DeriveCheckStability(checkStability, maxSteps)
      ensures forall u: nat :: u in nodes <==> u < numAgents
      ensures links == {}
      ensures schedule == IdRange(0, numAgents)
      ensures idCounter == numAgents && time == 0 && running && collected == []
      ensures this.numAgents == numAgents && this.pollingInterval == pollingInterval
      ensures this.maxSteps == maxSteps
      ensures this.mutualCreate == mutualCreate && this.mutualDelete == mutualDelete
    {
      this.numAgents := numAgents;
      this.pollingInterval := pollingInterval;
      this.maxSteps := maxSteps;
      this.mutualCreate := mutualCreate;
      this.mutualDelete := mutualDelete;
      this.checkStability := DeriveCheckStability(checkStability, maxSteps);
      nodes := {};
      links := {};
      schedule := [];
      idCounter := 0;
      time := 0;
      running := true;
      collected := [];
      new;
      AddAgents(numAgents);
      forall u: nat | u < numAgents
        ensures u in nodes
      {
        assert IdRange(0, numAgents)[u] == u;
      }
    }

    /** `_generate_uid`: the first counter value, from the current one upwards, that is not a node. */
    method GenerateUid() returns (uid: nat)
      modifies this`idCounter
      ensures uid !in nodes
      ensures old(idCounter) <= uid && idCounter == uid + 1
      ensures forall u :: old(idCounter) <= u < uid ==> u in nodes
      ensures (forall u :: u in nodes ==> u < old(idCounter)) ==> uid == old(idCounter)
    {
      var validIdFound := false;
      uid := idCounter;
      while !validIdFound
        invariant old(idCounter) <= idCounter
        invariant validIdFound ==> uid !in nodes && idCounter == uid + 1 && old(idCounter) <= uid
        invariant forall u :: old(idCounter) <= u < idCounter - (if validIdFound then 1 else 0) ==> u in nodes
        invariant (forall u :: u in nodes ==> u < old(idCounter)) ==>
                    if validIdFound then uid == old(idCounter) else idCounter == old(idCounter)
        decreases |Above(nodes, idCounter)|, if validIdFound then 0 else 1
      {
        uid := idCounter;
        validIdFound := uid !in nodes;
        ghost var before := Above(nodes, idCounter);
        idCounter := idCounter + 1;
        assert Above(nodes, idCounter) == before - {uid};
      }
    }

    /** `add_agent`: schedule one agent under a fresh uid and make it a node. */
    method AddAgent()
      requires AgentsAreNodes()
      modifies this`idCounter, this`schedule, this`nodes
      ensures AgentsAreNodes()
      ensures idCounter == old(idCounter) + 1
      ensures schedule == old(schedule) + [old(idCounter)]
      ensures nodes == old(nodes) + {old(idCounter)}
    {
      var uid := GenerateUid();
      if uid in nodes {
        // the KeyError branch: GenerateUid never returns a uid that is taken
        assert false;
      }
      schedule := schedule + [uid];
      nodes := nodes + {uid};
    }

    /** `add_agents(count)`: the next `count` counter values become scheduled agents and nodes. */
    method AddAgents(count: nat)
      requires AgentsAreNodes()
      modifies this`idCounter, this`schedule, this`nodes
      ensures AgentsAreNodes()
      ensures idCounter == old(idCounter) + count
      ensures schedule == old(schedule) + IdRange(old(idCounter), count)
      ensures nodes == old(nodes) + Elems(IdRange(old(idCounter), count))
    {
      for i := 0 to count
        invariant AgentsAreNodes()
        invariant idCounter == old(idCounter) + i
        invariant schedule == old(schedule) + IdRange(old(idCounter), i)
        invariant nodes == old(nodes) + Elems(IdRange(old(idCounter), i))
      {
        AddAgent();
        assert IdRange(old(idCounter), i + 1) == IdRange(old(idCounter), i) + [old(idCounter) + i];
      }
    }

    /**
     * `step`: report at the polling cadence (before the clock moves), let every
     * agent move in insertion order, advance the clock, then stop when the
     * network is pairwise stable at a check boundary or the budget is used up.
     */
    method Step(best: BestAction, move: Move)
      requires Valid()
      modifies this`links, this`time, this`running, this`collected
      ensures Valid()
      ensures time == old(time) + 1
      ensures collected == old(collected) + (if old(time) % pollingInterval == 0 then [old(time)] else [])
      ensures Net() == ActInOrder(old(Net()), schedule, |schedule|, move)
      ensures running == (old(running)
                          && !(CheckDue(checkStability, time) &&
                               IsPairwiseStable(best, Net(), schedule, None, mutualCreate, mutualDelete).stable)
                          && !CapReached(maxSteps, time))
    {
      Collect();
      var after := SchedulerStep(Net(), schedule, move);
      links := after.links;
      time := time + 1;
      Halt(best);
    }

    /** The data collector's invocation at the top of `step`, before the clock moves. */
    method Collect()
      requires pollingInterval > 0 && collected == CollectionTimes(pollingInterval, time)
      modifies this`collected
      ensures collected == old(collected) + (if time % pollingInterval == 0 then [time] else [])
      ensures collected == CollectionTimes(pollingInterval, time + 1)
    {
      if time % pollingInterval == 0 {
        collected := collected + [time];
      }
    }

    /** The end of `step`: the stability check at its cadence, then the step budget. */
    method Halt(best: BestAction)
      modifies this`running
      ensures running == (old(running)
                          && !(CheckDue(checkStability, time) &&
                               IsPairwiseStable(best, Net(), schedule, None, mutualCreate, mutualDelete).stable)
                          && !CapReached(maxSteps, time))
    {
      if time > 0 && checkStability != 0 && time % checkStability == 0 {
        var verdict := IsPairwiseStable(best, Net(), schedule, None, mutualCreate, mutualDelete);
        if verdict.stable {
          running := false;
        }
      }
      if Truthy(maxSteps) && time >= maxSteps.value {
        running := false;
      }
    }
  }
}
