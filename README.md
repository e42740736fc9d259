# Network formation and cascading failures, modelled in Dafny

This project models the two simulation cores of the repository.

**The network-formation World** (`generic_model.py`, module `NetworkWorld` in `world.dfy`).
- Agents are nodes of an undirected network. Each agent gets a fresh uid from a counter that skips uids already in the network.
- Every `step` reports data at the polling interval, then lets every agent move in insertion order, then advances the clock.
- The run stops when the network is pairwise stable at a check boundary, or when the step budget `max_steps` is used up.
- Pairwise stability means no agent wants to delete a link and no agent wants to create one. The test asks each agent for its `best_simple_action`, which the model takes as a parameter (an oracle from the network, the agent, and the kind of move to an optional partner). An agent's own `step` is likewise a parameter: a move that rewrites the links.

**The cascading-failure network** (`cascading-processes/agent.py` and `cascading-processes/model.py`, modules `CascadeRules` in `cascade_rules.dfy` and `Cascade` in `cascade.dfy`).
- Each node has a load and a capacity. It is healthy, then failing (its load has reached its capacity), then failed.
- The model builds the nodes and a directed network from an adjacency matrix, or from an undirected edge list when no matrix is given. It keeps three id sets: healthy, failing and failed.
- Each `step` is simultaneous. First every node computes its next load with the rule the `(model_type, load_type)` pair selects:
  - `inward`: the fraction of failed or failing in-neighbours;
  - `outward`: the sum of `1/outdegree` over failed or failing in-neighbours;
  - `llss`: local load shedding from failing in-neighbours;
  - `llsc`, on failed or failing nodes.
- Then every node advances: a failing node becomes failed, and the next load becomes the load. Then the step counter moves.
- `CascadeRules` states the rules as functions on values. The `Node` and `CascadeNetwork` classes of `Cascade` hold the fields the source updates in place. Their loop methods are proved against the rules.

Loads and capacities are exact `real`s. Neighbours are visited in ascending id order where the source iterates over a set. The counts, sets and sums this produces are the same as the source's.

## Model

| member | source | states |
|---|---|---|
| NetworkWorld.DeriveCheckStability | generic_model.py:37-41 | the derived interval is at least 1. It is 1 whenever an interval was requested, and 1 whenever no step cap is set. It exceeds the cap when the cap is set and no interval was requested. |
| NetworkWorld.ExplicitCheckIntervalDiscarded | generic_model.py:37-41 | an explicit interval of 5 comes out as 1, with or without a cap; the intended derivation keeps 5 |
| NetworkWorld.IntendedCheckStability | generic_model.py:37-41 | the corrected derivation keeps an explicit interval and otherwise agrees with the as-written one |
| NetworkWorld.IntendedCheckFirstDueAtRequestedInterval | generic_model.py:168 | under the corrected derivation, the stability test with explicit interval c is first due at time c |
| NetworkWorld.DefaultCheckNeverFiresBeforeCap | generic_model.py:168-176 | with the default interval and a cap m, the stability test is never due at any time up to m, where the cap stops the run |
| NetworkWorld.CollectionTimesExactly | generic_model.py:159-160 | data is collected at exactly the clock readings below the current time that are multiples of the polling interval, in increasing order |
| NetworkWorld.CollectionEveryThirdStep | generic_model.py:159-160 | a polling interval of 3 over 10 steps reports at 0, 3, 6 and 9 |
| NetworkWorld.ScanStable | generic_model.py:151-155 | the verdict is stable iff the oracle returns no partner for every listed agent. Agents are asked in list order. The scan stops at the first agent that has a partner, and every agent asked before it had none. |
| NetworkWorld.IsSimpleActionStable | generic_model.py:145-155 | stable iff no selected agent has a partner for the given kind of move (all scheduled agents when none are given); every query is of that kind |
| NetworkWorld.IsDeletionStable | generic_model.py:137-139 | stable iff no selected agent wants to delete a link; only deletion queries are made |
| NetworkWorld.IsCreationStable | generic_model.py:141-143 | stable iff no selected agent wants to create a link; only creation queries are made |
| NetworkWorld.IsPairwiseStable | generic_model.py:113-135 | stable iff deletion-stable and creation-stable; when deletion stability fails, no creation query is made |
| NetworkWorld.ActInOrder | generic_model.py:162 | agents moving in order never change the node set |
| NetworkWorld.SchedulerStep | generic_model.py:162 | the scheduler's loop leaves the network as the agents' moves in insertion order make it, with the same nodes |
| NetworkWorld.World.constructor | generic_model.py:19-49 | a new World has exactly the nodes 0..n-1, one scheduled agent per node in uid order, and no links. The counter is n, the clock is 0 and the run is on. The check interval is the as-written derivation. |
| NetworkWorld.World.GenerateUid | generic_model.py:62-70 | the uid returned is not a node. It is at least the old counter, and every uid skipped was a node. The counter ends one past it. When every node is below the old counter, the uid is the old counter itself. |
| NetworkWorld.World.AddAgent | generic_model.py:78-87 | the uid is appended to the schedule and added to the nodes; nodes and scheduled agents stay in one-to-one correspondence, so the KeyError branch is unreachable |
| NetworkWorld.World.AddAgents | generic_model.py:72-76 | adding n agents schedules and adds the next n counter values, in order |
| NetworkWorld.World.Collect | generic_model.py:158-160 | the collector is called iff the clock, not yet advanced, is a multiple of the polling interval |
| NetworkWorld.World.Halt | generic_model.py:168-176 | the run stops if the stability test is due and the network is pairwise stable, or if the cap is reached (`time >= max_steps`); `running` is never set back to true |
| NetworkWorld.World.Step | generic_model.py:157-176 | one step collects at the cadence, applies every agent's move in order and advances the clock by one. It stops the run by the stability and cap rules, and a stopped run stays stopped. The agent/node correspondence and the cadence invariant are kept. |
| CascadeRules.NetFragility | cascading-processes/agent.py:34-39 | for a node that has not failed, net fragility is non-positive iff the node is failing; for a failed node it is capacity minus `final_load`. Under the load-shedding rules, `final_load` is rewritten on every later step (see Findings). |
| CascadeRules.InDegreeCountsPredecessors | cascading-processes/agent.py:50-52 | the in-degree count equals the number of distinct predecessors |
| CascadeRules.OutDegreeOfInNeighbour | cascading-processes/agent.py:95-101 | a node with an edge into the network has out-degree at least 1, so `outward` never divides by zero |
| CascadeRules.DownIn | cascading-processes/agent.py:84-91 | the number of failed or failing in-neighbours never exceeds the in-degree |
| CascadeRules.InwardLoad | cascading-processes/agent.py:84-93 | the inward load lies in [0, 1], and is 1 iff every in-neighbour is failed or failing |
| CascadeRules.OutwardSum | cascading-processes/agent.py:95-101 | the outward load is non-negative and at most the number of failed or failing in-neighbours |
| CascadeRules.FailedIn | cascading-processes/agent.py:167-174 | exactly the in-neighbours that are failing (already failed ones are excluded) |
| CascadeRules.HealthyOut | cascading-processes/agent.py:176-183 | exactly the out-neighbours that are neither failed nor failing |
| CascadeRules.HealthyOutCountIsSize | cascading-processes/agent.py:195-203 | the count `llss` divides by is the size of `healthy_out` |
| CascadeRules.LlssPartNonNegative | cascading-processes/agent.py:194-203 | a failing in-neighbour's part is never negative, provided its capacity is not negative under "load" |
| CascadeRules.LlssShareNonNegative | cascading-processes/agent.py:190-203 | local shedding never lowers a healthy node's load, provided capacities are not negative under "load" |
| CascadeRules.LlssShareWithoutFailingInNeighbours | cascading-processes/agent.py:190-203 | with no failing in-neighbour, a healthy node's next load under `llss` is its load |
| CascadeRules.StepRule | cascading-processes/agent.py:205-219 | a node's step never changes its health. It dispatches on the type pair. `inward` gives a value in [0, 1]. `outward` gives a value bounded by the failed-or-failing in-degree. Under `llss`/`llsc` a failed or failing node records its load and gets its capacity ("overload") or 0. `llss` adds the shed loads to a healthy node's load. Unsupported pairs change nothing. |
| CascadeRules.AdvanceRule | cascading-processes/agent.py:221-237 | after `advance` the load is the prepared load. The node is failed iff it was failed or failing. A failing node records its load at failure. A node failing after `advance` was healthy before it. |
| CascadeRules.AdvanceIdsKeepsPartition | cascading-processes/agent.py:225-237 | one node's `advance` keeps the healthy, failing and failed sets an exact partition of the nodes by condition |
| CascadeRules.AdvancePhaseKeepsPartition | cascading-processes/agent.py:221-237 | the whole advance phase keeps the three sets an exact partition |
| CascadeRules.StepAll | cascading-processes/model.py:120 | the step phase changes no node's health (failed flag, load and capacity, hence its condition) and no initial load |
| CascadeRules.StepKeepsPartition | cascading-processes/model.py:120 | a whole simultaneous step, every node stepping and then every node advancing, keeps the healthy, failing and failed sets an exact partition of the nodes by condition |
| CascadeRules.FinalLoadRewrittenAfterFailure | cascading-processes/agent.py:186-188 | as written, a lone overloaded node (load 5, capacity 3) fails with net fragility -2 and reports 0 one step later, because its `final_load` is rewritten |
| CascadeRules.IntendedStepRule | cascading-processes/agent.py:185-219 | the corrected step rule keeps every condition and initial load. It keeps a failed node's `final_load`, and on nodes that have not failed it agrees with the as-written rule. |
| CascadeRules.IntendedRuleKeepsFragilityAtFailure | cascading-processes/agent.py:34-39 | under the corrected rule, a failed node stays failed through a step and an advance, with its `final_load` and net fragility unchanged |
| CascadeRules.IntendedRuleKeepsLoneNodeFragility | cascading-processes/agent.py:186-188 | on the same lone-node run, the corrected rule keeps net fragility at -2 |
| CascadeRules.FailedIsFinal | cascading-processes/agent.py:46-48 | a failed node stays failed, is never failing again and its `advance` leaves every id set unchanged |
| Cascade.Lower | cascading-processes/model.py:49-50 | lower-casing keeps the length and maps each character |
| Cascade.ParseTypes | cascading-processes/model.py:49-54 | a type pair is accepted iff its lower-cased form is in MODEL_LOAD; the accepted pair names exactly the lower-cased strings and is supported |
| Cascade.ParseTypesIgnoresCase | cascading-processes/model.py:49-54 | "Load"/"LLSS" is accepted as (load, llss) |
| Cascade.ParseTypesRejectsMixedPair | cascading-processes/model.py:20-21 | "constant"/"llss" is refused although each half is a valid name |
| Cascade.CheckConfig | cascading-processes/model.py:44-54 | the checks fail in order: not square iff rows differ from columns, then a size mismatch iff the matrix, loads and capacities differ in size, then unsupported types iff the lower-cased pair is not in MODEL_LOAD; success otherwise |
| Cascade.SetLoadKeepsCover | cascading-processes/model.py:95-103 | for any id sets that cover the nodes, after `set_load` every id is still in the set for its new condition |
| Cascade.SetLoadCanBreakPartition | cascading-processes/model.py:100-103 | for any exact partition and any healthy node given a load at or above its capacity, the id ends up in both the healthy and the failing sets, so the partition no longer holds |
| Cascade.FormEdgesToMatrix | cascading-processes/model.py:7-15 | a new n by n matrix whose entry [i, j] is 1 iff (i, j) or (j, i) is listed and 0 otherwise, hence symmetric |
| Cascade.InsertEdges | cascading-processes/model.py:85-90 | an edge s -> t exists iff s and t are in range and the matrix entry [s, t] is non-zero |
| Cascade.Node.constructor | cascading-processes/agent.py:9-32 | a new node is not failed, and its load, next load, initial load and final load all equal the given load |
| Cascade.Node.Inward | cascading-processes/agent.py:84-93 | the counting loop sets the next load to the inward load (failed or failing in-neighbours over in-degree) |
| Cascade.Node.Outward | cascading-processes/agent.py:95-101 | the accumulating loop sets the next load to the outward sum |
| Cascade.Node.SettleDown | cascading-processes/agent.py:186-188 | a failed or failing node records its load and prepares its capacity ("overload") or 0 |
| Cascade.Node.Llss | cascading-processes/agent.py:185-203 | a failed or failing node settles down; a healthy node prepares its load plus the shed parts, keeping its final load |
| Cascade.Node.ShedFromFailingInNeighbours | cascading-processes/agent.py:189-203 | the loop over failing in-neighbours adds each one's part, skipping those without healthy out-neighbours |
| Cascade.Node.Llsc | cascading-processes/agent.py:150-165 | a failed or failing node settles down as under `llss`; a healthy node prepares the load the path-based rule gives |
| Cascade.Node.Step | cascading-processes/agent.py:205-219 | the node's fields after its step are exactly the step rule's result for the network's type pair |
| Cascade.Node.Advance | cascading-processes/agent.py:221-237 | the node's fields follow the advance rule, and the id sets follow the advance id update. The network invariant is kept, so neither `remove` can raise KeyError. |
| Cascade.CascadeNetwork.constructor | cascading-processes/model.py:56-90 | one node per vector entry with uid equal to its index, failed empty. The healthy and failing sets split the ids exactly by whether load reaches capacity. An edge s -> t exists iff the matrix entry is non-zero. The counter is 0 and the run is on. |
| Cascade.CascadeNetwork.Create | cascading-processes/model.py:40-54 | the edge list is used only when no matrix is given. With neither, construction fails. Otherwise the errors are those of CheckConfig on the chosen matrix's shape. A network that passes is fresh, valid and exactly partitioned. It has one node per vector entry, node i with load `load_vec[i]` and capacity `capacity_vec[i]`, and the edges of the given matrix, or the symmetric closure of the edge list. |
| Cascade.CascadeNetwork.SetLoad | cascading-processes/model.py:92-103 | the node is no longer failed and all its load fields take the new value; its id joins the failing set if the load reaches capacity and the healthy set otherwise. No set loses an id, so a formerly failed id stays in the failed set. |
| Cascade.CascadeNetwork.StepPhase | cascading-processes/model.py:120 | every node steps, all reading the healths from before the phase, which the phase does not change |
| Cascade.CascadeNetwork.AdvancePhase | cascading-processes/model.py:120 | every node advances in uid order, and the id sets follow the advance updates in the same order |
| Cascade.CascadeNetwork.CountStep | cascading-processes/model.py:124-125 | the counter moves by one and the run stops once it exceeds `max_steps` (`>`, so a run from 0 lasts `max_steps + 1` steps, unlike the World's `>=`) |
| Cascade.CascadeNetwork.Step | cascading-processes/model.py:115-125 | one step leaves the nodes as all step rules and then all advance rules make them, and the id sets as the advance updates make them. The counter moves by one and the run stops by the `>` rule. The network invariant is kept, and an exact partition of the ids before the step is one after it. |

## Left out

- Plotting and colour maps (`cascading-processes/visualization_functions.py`) and the network plot option of the World: presentation only.
- `generic_agent.py` is not part of this model. An agent's `best_simple_action` is the `BestAction` parameter and an agent's `step` is the `Move` parameter. In the repository the first is never defined and the second calls a stub with the wrong number of arguments.
- The reporting metrics `aggregate_welfare`, `density`, `clustering` and `connected_components`, and the DataCollector. Data collection is recorded only as the clock reading at which it happens (`collected`).
- The World parameters `cost`, `max_sample` and `alpha`: the World core never reads them.
- The World's scheduler class parameter: the model fixes the default `BaseScheduler` and its insertion order. Other schedulers are not modelled.
- NetworkWorld.World.constructor: `num_agents`, `check_stability` and `max_steps` are natural numbers. Python accepts negative integers there. `range` of a negative count adds no agents. `max_steps=-2` derives an interval of -1, so the stability test would be due at every step. A negative polling interval still works under Python's floor modulo. None of these negative cases is modelled.
- `reach_in`, `reach_out` and the healthy-node branch of `llsc` enumerate simple paths with a graph library. That branch's result is the `ReachLoad` parameter. The discarded `reach_in.union(path)` at cascading-processes/agent.py:121 is therefore not modelled.
- `print` output and the `test` flag, and the per-node `running` attribute that only the batch runner reads.
- `CascadeNetwork._generate_uid` is dead code that refers to an attribute the model does not have.
- Cascade.Lower: only ASCII letters are lower-cased; Unicode case mapping is not modelled.
- Adjacency matrices are integer matrices; a numpy float matrix is compared with 0 the same way. A one-dimensional array, for which `shape[1]` does not exist, is not modelled.
- Cascade.FormEdgesToMatrix: edges must name nodes in range. numpy's negative indices and the IndexError for larger ones are not modelled.
- Cascade.Node.Inward: requires an in-degree above zero. The source divides by zero there and aborts.
- Cascade.CascadeNetwork.SetLoad: requires an existing node id. The source's list lookup raises IndexError otherwise.
- NetworkWorld.World.constructor: requires a polling interval above zero. The source's modulo by zero aborts in `step`.
- The Mesa schedulers are modelled only as described: the World's scheduler steps agents in insertion order and then advances the clock. The simultaneous scheduler runs every `step`, then every `advance`, in insertion (uid) order, then moves the counter.
- Floating point is modelled as exact real arithmetic.

## Findings

| source | as written | input that shows it | evidently intended | confidence | as-written member | corrected member |
|---|---|---|---|---|---|---|
| generic_model.py:38-41 | the `else` branch replaces any explicit `check_stability` with 1, so the argument is never kept | `check_stability=5, max_steps=10` gives an interval of 1, not 5 | keep an explicit interval and derive `max_steps + 1` only when none was given | not executed | NetworkWorld.DeriveCheckStability, NetworkWorld.ExplicitCheckIntervalDiscarded | NetworkWorld.IntendedCheckStability, NetworkWorld.IntendedCheckFirstDueAtRequestedInterval |
| cascading-processes/agent.py:186-188 | the failed-or-failing branch of `llss`, and the same branch of `llsc` at lines 151-153, sets `final_load` to the current load on every step, including for a node that failed earlier. `net_fragility` of a failed node is therefore no longer measured at failure. | overload/llss, one node, load 5, capacity 3: it fails with net fragility -2 and reports 0 one step later | only a failing node records its load (as `advance` does at line 227); a failed node keeps its `final_load` | not executed | CascadeRules.StepRule, CascadeRules.FinalLoadRewrittenAfterFailure | CascadeRules.IntendedStepRule, CascadeRules.IntendedRuleKeepsFragilityAtFailure, CascadeRules.IntendedRuleKeepsLoneNodeFragility |

The World constructor reproduces the as-written derivation, and `Node.Step` the as-written step rule, because the simulation's observable behaviour depends on them. With no interval and a cap m, the derived interval is m + 1. NetworkWorld.DefaultCheckNeverFiresBeforeCap shows that the stability test then never runs before the cap stops the run.
