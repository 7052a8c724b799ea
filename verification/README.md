# meshy core in Dafny

This project models the core of *meshy*, a system in which several agents
keep their own records of shared events. The core has these parts:

- **Conflict resolver.** It finds pairs of state dictionaries that disagree on a
  shared key. It resolves such a conflict with a strategy chosen by conflict type:
  priority, timestamp, consensus, majority or manual review. It keeps a history
  of resolutions and a queue of conflicts awaiting manual review.
- **Agents.** A base agent holds an id, a name, a configuration and an
  active flag.
- **Observer entity.** It records observations of its input, fires
  named triggers on them and answers filtered queries over what it recorded.
- **Human agent.** It answers through the console or with a placeholder
  reply and keeps an interaction history.
- **Timeline nodes.** They are linked to a parent and children, and a node can list
  its path from the root.
- **Floor tags.** A floor tag is a named snapshot of nodes, with a summary line and
  the sets of agents and branches it covers.
- **Observer script engine.** It logs every command. It dispatches on the
  command's prefix to a resolver, to floor tagging, to the log, or to a
  certainty mask that filters the context's nodes in place.

Each source file becomes one module:

| Module | Source file |
|---|---|
| `ConflictResolution` | `conflict_resolver.py` |
| `BaseAgents` | `base_agent.py` |
| `Observers` | `observer_entity.py` |
| `Humans` | `human_agent.py` |
| `Timeline` | `node.py` |
| `Floor` | `floor.py` |
| `ObserverScript` | `observer_script.py` |

The helper modules are:

- `Wrappers`: `Option` and `Result`.
- `Text`: decimal rendering, `strip`, `lower` and `split(sep)[-1]`.
- `Clock`: naive `datetime`, its order, `datetime.min` and `isoformat`. The
  `isoformat` text is modelled exactly rather than as an opaque function, so
  that the floor summary can be read back (`Clock.IsoRoundTrip`).
- `PyValues`: the Python values the core stores and compares, with `==`, `>=`
  and its TypeError, `str()`, `type().__name__` and the insertion-ordered `dict`.
- `Seqs`: order-preserving subsequences, and the filter, map and flat-map that
  list comprehensions and loops build.
- `TimelineNodes`: the node record that floor tags and masks read.

How the Python maps to Dafny:

- **Objects whose methods update their attributes are classes.** These are
  `ConflictResolver`, `BaseAgent`, `ObserverEntity`, `HumanAgent`, `Node` and
  `ObserverScriptEngine`. Their methods carry `modifies` clauses and state the
  whole new state.
- **Subclasses become composition.** `ObserverEntity` and `HumanAgent` hold
  their `BaseAgent` as `agent`. The base class's `__class__.__name__` becomes
  the `className` it is built with.
- **Pure computations are functions and lemmas.** These are the conflict
  records, the strategies, the summary text and the mask selection.
- **Loops are methods with loop invariants.** Each is proved equal to a
  specification function, and the specification function carries the lemmas:
  - the key loop of `_check_state_conflict`;
  - the nested loops of `detect_conflicts`, whose inner loop is the helper
    method `CompareWithLater`;
  - the loop of `resolve_all_conflicts`;
  - the trigger loop of `_check_triggers`.

  The parent walk of `get_path` is a method with a loop too, but it is not
  compared with a function. Its ensures describe the path link by link: it
  has depth + 1 nodes, it starts at a root and ends at this node, and each
  node's parent is the node before it. `DepthUnique` shows that the depth,
  and so the length of the path, is fixed.
- **Outside inputs are parameters.** A clock read is the `now` argument. The
  text of `datetime.now().timestamp()` in a conflict id is `epochText`. The
  console reply is `consoleReply`.
- **Code the repository does not contain is a parameter too.** `float()` is the
  `parseFloat` argument. The resolver that the script engine calls is
  `resolve`. A trigger's callables are answered by `calls`.

## Notes on the code

The model follows the code as written, including these points:

- **The script engine's resolver call fails as written.** The engine
  builds `ConflictResolver(strategy=...)` and calls its `resolve` method
  (`observer_script.py:27-36`). The repository's `ConflictResolver` takes
  only `default_strategy` (`conflict_resolver.py:38`), so that constructor
  call raises TypeError for the unexpected keyword `strategy`, and the class
  has no `resolve` method either. A merge, split or reject command is
  therefore logged and then raises. The model keeps the resolver as the
  abstract function `resolve`: a `resolve` that always fails is the code as
  written, and any other stands for a resolver the engine may be given.
- **`TimelineNode` is imported but defined nowhere.** `node.py` defines
  `Node`. `TimelineNodes` keeps only the attributes the core reads:
  `agent_id`, `branch_id` and `intent_meta`.
- **The order of the prefix tests does not matter.** `log` is tested before
  `mask certainty <`. `ObserverScript.ClassifyExact` proves that no command
  starts with two keywords, so any order gives the same verb.
- **The tag name is cut at a single space.** It is the text after the last
  `" "` of the raw, untrimmed command, so a command ending in a space gives an
  empty tag name.
- **The mask reports every failure as an invalid threshold.** The threshold
  text is lower-cased before `float()` reads it. A certainty that cannot be
  compared with the threshold raises a TypeError, which the same handler turns
  into the "Invalid certainty threshold" reply, leaving the nodes unchanged.
- **`get_agents` drops empty ids.** Its test is truthiness, so an empty
  agent id is dropped along with an absent one.
- **Comparison errors name the C type.** A TypeError from `>=` prints each
  operand's `tp_name`, which for a datetime is `datetime.datetime` rather
  than `type(x).__name__`.

## Model

| member | source | states |
|---|---|---|
| ConflictResolution.ParseConflictType | meshy/reality/conflict_resolver.py:77 | a conflict type is found only for the string equal to its value; anything else is the ValueError case |
| ConflictResolution.ParseConflictTypeRoundTrip | meshy/reality/conflict_resolver.py:12-18 | every conflict type is found again from its value |
| ConflictResolution.ConflictingKeysExact | meshy/reality/conflict_resolver.py:158-162 | the conflicting keys are exactly the keys both states hold with values that are not ==; each appears once, in state1's key order |
| ConflictResolution.StateConflictExact | meshy/reality/conflict_resolver.py:154-174 | two states give a record exactly when some shared key has unequal values; the record is a state_conflict holding both states, the conflicting keys and an id naming both indices |
| ConflictResolution.ConflictIdInjective | meshy/reality/conflict_resolver.py:166 | a conflict id determines its index pair and its clock text, so different pairs give different ids whatever the clock reads |
| ConflictResolution.PairsBeforeMembers | meshy/reality/conflict_resolver.py:59-60 | the first m rounds of the outer loop visit exactly the pairs i < j < n with i < m |
| ConflictResolution.PairsBeforeSorted | meshy/reality/conflict_resolver.py:59-60 | the loops visit pairs in increasing lexicographic order |
| ConflictResolution.AllPairsExact | meshy/reality/conflict_resolver.py:59-60 | the nested loops visit every pair i < j < n exactly once, in increasing lexicographic order |
| ConflictResolution.DetectedExact | meshy/reality/conflict_resolver.py:57-65 | every reported conflict comes from a visited pair, with that pair's own clock readings, and every visited pair whose states conflict is reported |
| ConflictResolution.DetectedAllPairs | meshy/reality/conflict_resolver.py:59-63 | for i < j, states with a conflicting key always produce a conflict in the result |
| ConflictResolution.DetectedOuterStep | meshy/reality/conflict_resolver.py:59-63 | one more outer round appends that round's conflicts after the earlier ones |
| ConflictResolution.DetectedRowStep | meshy/reality/conflict_resolver.py:60-63 | one more inner step appends at most that pair's conflict |
| ConflictResolution.DefaultStrategyNeverUsed | meshy/reality/conflict_resolver.py:78 | with the initial table in place, every conflict type has an entry, so the default strategy is never consulted |
| ConflictResolution.PickByField | meshy/reality/conflict_resolver.py:176-201 | a missing state raises KeyError 'state1' or 'state2'; the comparison fails exactly when the two values cannot be ordered, with Python's TypeError text (a datetime named `datetime.datetime`); otherwise state1 wins when its value is >=, else state2, whose value is then >= state1's |
| ConflictResolution.AtLeastFlips | meshy/reality/conflict_resolver.py:185-188 | when v1 >= v2 is false, v2 >= v1 holds, so the state kept in the else branch is the greater one |
| ConflictResolution.PriorityPrefersFirst | meshy/reality/conflict_resolver.py:176-188 | priority resolution keeps state1 exactly when its priority is >= state2's, so equal priorities go to state1; the reason is "higher_priority" |
| ConflictResolution.PriorityMissingIsZero | meshy/reality/conflict_resolver.py:182-183 | a state without "priority" counts as priority 0 against a numeric priority |
| ConflictResolution.TimestampPrefersLatest | meshy/reality/conflict_resolver.py:190-201 | timestamp resolution keeps the later state; ties and a missing timestamp on state2 go to state1, and a state1 without a timestamp loses to any later one |
| ConflictResolution.ResolveByConsensus | meshy/reality/conflict_resolver.py:203-206 | the consensus placeholder succeeds exactly when state1 exists, and then keeps state1 with reason "consensus_placeholder"; otherwise it raises KeyError 'state1' |
| ConflictResolution.ResolveByMajority | meshy/reality/conflict_resolver.py:208-211 | the majority placeholder succeeds exactly when state1 exists, and then keeps state1 with reason "majority_placeholder"; otherwise it raises KeyError 'state1' |
| ConflictResolution.Attempt | meshy/reality/conflict_resolver.py:89-99 | manual review always succeeds with no resolved state; it is the only strategy that can succeed without one |
| ConflictResolution.MakeResolution | meshy/reality/conflict_resolver.py:80-108 | success holds exactly when a decision is recorded and exactly when no error is; the record names the conflict's id, the original conflict and the strategy used |
| ConflictResolution.FirstInvalid | meshy/reality/conflict_resolver.py:77 | the index where the run of conflicts with a valid "type" ends |
| ConflictResolution.FirstInvalidAt | meshy/reality/conflict_resolver.py:121-122 | a valid prefix of length k followed by an invalid type, or by nothing, ends exactly at k |
| ConflictResolution.ResolutionsInOrder | meshy/reality/conflict_resolver.py:110-125 | one resolution per conflict, in input order, each made with the strategy its type maps to and stamped with the clock reading taken for it |
| ConflictResolution.QueuedExact | meshy/reality/conflict_resolver.py:99 | the manual-review queue gains exactly the conflicts whose strategy is manual review, each as many times as it was given, in input order |
| ConflictResolution.ResolutionsSnoc | meshy/reality/conflict_resolver.py:121-123 | resolving one more valid conflict appends its resolution, stamped with its own clock reading, and appends the conflict to the queue when it goes to manual review |
| ConflictResolution.SuccessCount | meshy/reality/conflict_resolver.py:134 | the count is the number of positions whose resolution succeeded; it is at most the total, and equals it exactly when every resolution succeeded |
| ConflictResolution.SuccessCountSnoc | meshy/reality/conflict_resolver.py:134 | one more resolution adds one to the count exactly when it succeeded |
| ConflictResolution.SuccessCountAppend | meshy/reality/conflict_resolver.py:121-123 | the count over the history followed by a batch is the history's count plus the batch's, so a batch adds exactly its successes |
| ConflictResolution.ConflictResolver.constructor | meshy/reality/conflict_resolver.py:38-45 | keeps the default strategy (priority-based when none is given), installs the initial strategy table, and starts with empty history and queue |
| ConflictResolution.ConflictResolver.InitializeStrategies | meshy/reality/conflict_resolver.py:144-152 | the table maps state and temporal conflicts to timestamp, agent conflicts to priority, resource conflicts to majority rule and logical conflicts to manual review |
| ConflictResolution.ConflictResolver.SetStrategy | meshy/reality/conflict_resolver.py:127-129 | replaces or adds one entry; that type then resolves with the new strategy |
| ConflictResolution.ConflictResolver.CheckStateConflict | meshy/reality/conflict_resolver.py:154-174 | the key loop returns the state-conflict record that StateConflictExact characterises |
| ConflictResolution.ConflictResolver.DetectConflicts | meshy/reality/conflict_resolver.py:47-65 | the nested loops return the conflicts of all pairs i < j in visiting order, each built from that pair's clock readings, which DetectedExact and AllPairsExact characterise |
| ConflictResolution.ConflictResolver.CompareWithLater | meshy/reality/conflict_resolver.py:60-63 | the inner loop collects the conflicts of state i with every later state, in order |
| ConflictResolution.ConflictResolver.MarkForManualReview | meshy/reality/conflict_resolver.py:213-216 | appends the conflict to the queue and returns no resolved state with reason "marked_for_manual_review" |
| ConflictResolution.ConflictResolver.ResolveConflict | meshy/reality/conflict_resolver.py:67-108 | an invalid "type" raises before anything is recorded; otherwise exactly one resolution is appended, and only a manual review queues the conflict |
| ConflictResolution.ConflictResolver.ResolveAllConflicts | meshy/reality/conflict_resolver.py:110-125 | the history gains the resolutions of the valid prefix, in order, each with its own clock reading, and the queue gains its manual-review conflicts; the result is all resolutions, or the exception of the first invalid type |
| ConflictResolution.ConflictResolver.GetConflictStatistics | meshy/reality/conflict_resolver.py:131-142 | the total is the history's length, the successful count is the number of successful records in it, the pending count is the queue's length, and the strategies are exactly those some record used |
| PyValues.AtLeast | meshy/reality/conflict_resolver.py:185 | >= fails exactly for values Python cannot order, with the TypeError text naming both types as CPython prints them |
| PyValues.MessageTypeName | meshy/reality/conflict_resolver.py:185 | an error message names a datetime `datetime.datetime` and every other value by `type(x).__name__` |
| PyValues.UpdateExact | meshy/agents/human_agent.py:66 | after update, every new key has its new value and every other key keeps its old one; old keys keep their order and new keys follow in the update's order |
| Clock.IsoRoundTrip | meshy/reality/floor.py:17 | the isoformat text of a datetime can be read back to the same datetime |
| Clock.IsoFormatInjective | meshy/timeline/node.py:44 | different datetimes give different isoformat text, with any separator, so `str()` of a datetime loses nothing |
| Floor.Summary | meshy/reality/floor.py:16-17 | the summary starts with "FloorTag[name] - " and its length is fixed by its parts |
| Floor.SummaryDetermines | meshy/reality/floor.py:16-17 | two tags with the same name and summary have the same node count and creation time |
| Floor.Agents | meshy/reality/floor.py:19-20 | the agents are exactly the ids of nodes whose agent id is present and non-empty |
| Floor.Branches | meshy/reality/floor.py:22-23 | the branches are exactly the nodes' branch ids, and the set is empty exactly when there are no nodes |
| TimelineNodes.Certainty | meshy/agents/observer_script.py:52 | a node's certainty is its "certainty" entry, or 0.5 when there is none |
| Timeline.Node.constructor | meshy/timeline/node.py:18-27 | a missing timestamp becomes the clock reading and missing data becomes empty; the parent, none by default, is recorded, but the new node is not added to its children |
| Timeline.Node.AddChild | meshy/timeline/node.py:29-32 | the child's parent becomes this node and the child is appended to the children; nothing else changes |
| Timeline.Node.GetPath | meshy/timeline/node.py:34-41 | for a node at depth d, the path has d + 1 nodes; it starts at a root and ends at the node, and each node's parent is the one before it |
| Timeline.Node.Repr | meshy/timeline/node.py:43-44 | the id and the str() of the timestamp sit at fixed places in "Node(id=..., timestamp=...)"; Timeline.ReprDetermines reads the timestamp back |
| Timeline.ReprDetermines | meshy/timeline/node.py:43-44 | two nodes with one id have the same repr exactly when they have the same timestamp |
| Timeline.DepthUnique | meshy/timeline/node.py:34-41 | a node has at most one depth, so the length of its path is determined |
| Timeline.OwnParentHasNoDepth | meshy/timeline/node.py:38-40 | a node that is its own parent has no depth, so the walk up its parents would not end |
| BaseAgents.BaseAgent.constructor | meshy/agents/base_agent.py:19-24 | keeps id and name, turns a missing or empty configuration (none by default) into an empty one, and starts active at the clock reading |
| BaseAgents.BaseAgent.Activate | meshy/agents/base_agent.py:49-51 | the agent becomes active, and only the active flag changes |
| BaseAgents.BaseAgent.Deactivate | meshy/agents/base_agent.py:53-55 | the agent becomes inactive, and only the active flag changes |
| BaseAgents.BaseAgent.Repr | meshy/agents/base_agent.py:57-58 | the class name, the id and the name sit at fixed places in "Class(id=..., name=...)"; BaseAgents.ReprDetermines reads them back |
| BaseAgents.ReprDetermines | meshy/agents/base_agent.py:57-58 | for agents of one class, the repr with the id fixed determines the name, and with the name fixed determines the id |
| Humans.DefaultInteraction | meshy/agents/human_agent.py:77-80 | the placeholder reply is "Human response to: " followed by str() of the input |
| Humans.HumanAgent.constructor | meshy/agents/human_agent.py:19-26 | sets up the base agent with class name HumanAgent, keeps the interface type ("console" by default), and starts with an empty history |
| Humans.HumanAgent.Process | meshy/agents/human_agent.py:28-56 | an inactive agent returns None and records nothing; an active one returns the console reply or the placeholder, and appends exactly one interaction stamped with its creation time, so the interaction count rises by one exactly when the agent is active |
| Humans.HumanAgent.UpdateState | meshy/agents/human_agent.py:58-69 | preferences are merged into the configuration as dict.update does; the interface type is replaced only when given |
| Humans.HumanAgent.InteractionCount | meshy/agents/human_agent.py:82-84 | the number of recorded interactions, which HumanAgent.Process raises by one for each exchange and never otherwise |
| Observers.CreateObservation | meshy/agents/observer_entity.py:122-130 | the observation carries the clock reading, the observer's id, the input, its target attribute (None for a non-object) and its type name |
| Observers.Fire | meshy/agents/observer_entity.py:134-140 | a trigger's count goes up by one exactly when its condition is truthy and its action returns; otherwise the trigger is unchanged |
| Observers.FireAllKeeps | meshy/agents/observer_entity.py:134-140 | firing the triggers on an observation adds and removes none, so their number stays the same |
| Observers.SelectExact | meshy/agents/observer_entity.py:93-120 | the selection holds exactly the observations for the target (when one is given) and no older than since (when given), each as often as it was recorded, in recording order; with neither filter it is everything |
| Observers.ObserverEntity.constructor | meshy/agents/observer_entity.py:20-29 | a missing target list (the default) becomes empty; there are no observations and no triggers, and monitoring is off |
| Observers.ObserverEntity.Process | meshy/agents/observer_entity.py:31-50 | unless active and monitoring, nothing is recorded and the result is None; otherwise the new observation is appended and every trigger looks at it once; the statistics count one more observation exactly then, and the same triggers |
| Observers.ObserverEntity.CheckTriggers | meshy/agents/observer_entity.py:132-140 | each trigger looks at the observation exactly once |
| Observers.ObserverEntity.UpdateState | meshy/agents/observer_entity.py:52-63 | the targets and the monitoring flag change only when given |
| Observers.ObserverEntity.StartMonitoring | meshy/agents/observer_entity.py:65-67 | monitoring is on, and the statistics change only in that flag |
| Observers.ObserverEntity.StopMonitoring | meshy/agents/observer_entity.py:69-71 | monitoring is off, and the statistics change only in that flag |
| Observers.ObserverEntity.AddTrigger | meshy/agents/observer_entity.py:73-86 | installs the trigger under its name with count 0, replacing one of the same name; the trigger count in the statistics rises by one exactly when the name is new |
| Observers.ObserverEntity.RemoveTrigger | meshy/agents/observer_entity.py:88-91 | removes the named trigger; removing an absent name changes nothing; the trigger count in the statistics falls by one exactly when the name was present |
| Observers.ObserverEntity.GetStatistics | meshy/agents/observer_entity.py:142-149 | reports the number of observations and triggers, the monitoring flag and the targets; Process, AddTrigger, RemoveTrigger and Start/StopMonitoring state how each of them moves |
| ObserverScript.ClassifyExact | meshy/agents/observer_script.py:24-48 | a command gets a verb exactly when it starts with that verb's keyword, and none when it starts with no keyword, so the testing order does not matter |
| ObserverScript.FirstIncomparable | meshy/agents/observer_script.py:52 | the first node whose certainty cannot be compared with the threshold; every node before it can be |
| ObserverScript.KeepCertainExact | meshy/agents/observer_script.py:52 | the selection fails exactly when some certainty cannot be compared, with the TypeError of the leftmost one; otherwise it keeps exactly the nodes whose certainty is >= the threshold, each as often as it occurs, in order |
| ObserverScript.MaskExact | meshy/agents/observer_script.py:48-56 | the reply starts "Invalid certainty threshold: " exactly when the threshold text does not parse or some certainty cannot be compared with it |
| ObserverScript.MaskRejects | meshy/agents/observer_script.py:50-56 | an unparsable threshold is reported with the parse error, an incomparable certainty with the leftmost TypeError, and in both cases the nodes stay as they were |
| ObserverScript.MaskFilters | meshy/agents/observer_script.py:50-54 | with a parsed threshold and comparable certainties, the nodes become exactly those with certainty >= the threshold, each as often as before, in order, and the reply gives the threshold and their number |
| ObserverScript.ObserverScriptEngine.constructor | meshy/agents/observer_script.py:13-16 | keeps the observer and starts with an empty log and no floor tags |
| ObserverScript.ObserverScriptEngine.Execute | meshy/agents/observer_script.py:18-58 | the raw command is always logged first. Resolve commands return the resolver's answer for the context's conflicts. Tag floor appends and returns exactly one tag, named by the last space-separated token. Log returns the log including this command. Mask replaces the nodes as MaskExact states. An unknown command raises "Unknown observer command: ..." and changes no tags and no nodes |

## Left out

- Reading the clock, the console and `float()` are parameters, because they are I/O or library code. So is `datetime.now().timestamp()`. Each clock read gets its own parameter value: detection takes one pair of readings per compared pair of states, and resolving a batch takes one reading per conflict. The readings are not required to increase, so the model allows any clock. The `print` calls in `_check_triggers` and `_console_interaction` are left out.
- The resolver the script engine calls for merge, split and reject is an abstract function. As written the call raises TypeError, because the repository's `ConflictResolver` has no `strategy` argument and no `resolve`; the exact message depends on the Python version, so it is not fixed in the model.
- The `TimelineNode` class is not part of this model. Only the attributes the core reads are kept.
- Floats are an exact value plus the repr text Python prints. NaN and infinities are not modelled, and neither is the float division behind `success_rate` in `get_conflict_statistics`.
- ConflictResolution.ConflictResolver.GetConflictStatistics: does not report `success_rate`, because it is a float quotient; the counts it is computed from are reported.
- Comparisons of objects other than built-in scalars are modelled as TypeError, and `==` on them as identity. User classes with their own `__eq__` or `__ge__` are not modelled. Nested containers inside state dictionaries are compared as opaque values.
- A "state1" or "state2" entry that is present but is not a dictionary is not modelled. Neither is a "nodes" or "conflicts" context entry that is not a list, nor a "preferences" entry of `update_state` that is present but not a dictionary (for example None, on which `dict.update` raises TypeError at `human_agent.py:66`). A state and a preferences entry are each either a dictionary or absent.
- Text.Lower: lower-cases ASCII letters, the Kelvin sign and the dotted capital I. Other non-ASCII case mappings are not modelled. None of them can produce a command keyword, so the verb is always right. But the lowered threshold text is what `float()` reads and what its error message repeats, so a mask command with other non-ASCII capitals in its threshold can get a different reply from the model.
- Observers.ObserverEntity.CheckTriggers: does not fix the order in which triggers run, because the callables are modelled as pure answers and each trigger's outcome is independent of the others. An action that changes the trigger table while it is being iterated is not modelled.
- Observers.ObserverEntity.UpdateState: takes the monitoring flag as a bool, because the truthiness of other values is not modelled.
- Aliasing of the dictionaries and lists the source shares with its callers is not modelled. Examples: the `config` passed to an agent, the `nodes` list in a floor tag, and the live `log` list that the `log` command returns. The model copies values.
- The visualisation, GUI, demo scripts and configuration modules are outside the core and are not modelled.
