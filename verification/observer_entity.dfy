/** An agent that records what it is shown and fires triggers on it (meshy/agents/observer_entity.py). */
module Observers {
  import opened Wrappers
  import opened Clock
  import opened PyValues
  import opened Seqs
  import opened BaseAgents

  /** The observation record: when, by whom, what, its `target` attribute and its type name. */
  datatype Observation = Observation(timestamp: DateTime, observerId: string, data: Value, target: Value, typeName: string)

  /**
   * What calling a trigger's callable on an observation did: it returned a
   * value of the given truthiness, or it raised.
   */
  datatype CallResult = Returned(truthy: bool) | Raised

  /**
   * A trigger: its condition and action callables, known by the handles
   * under which `calls` answers for them, and how often it has fired.
   */
  datatype Trigger = Trigger(condition: nat, action: nat, triggeredCount: nat)

  /** _create_observation, with the clock read passed in as `now`. */
  function CreateObservation(observerId: string, input: Value, now: DateTime): (o: Observation)
    ensures o.timestamp == now && o.observerId == observerId && o.data == input
    ensures !input.VObject? ==> o.target == VNone
    ensures o.typeName == TypeName(input)
  {
    Observation(now, observerId, input, TargetAttribute(input), TypeName(input))
  }

  /**
   * One trigger looking at one observation: the count goes up by one exactly
   * when the condition returns something truthy and the action then returns
   * normally; an exception from either leaves the count as it was.
   */
  function Fire(t: Trigger, o: Observation, calls: (nat, Observation) -> CallResult): (r: Trigger)
    ensures r.condition == t.condition && r.action == t.action
    ensures r.triggeredCount == t.triggeredCount + 1 <==> calls(t.condition, o) == Returned(true) && calls(t.action, o).Returned?
    ensures r.triggeredCount != t.triggeredCount + 1 ==> r == t
  {
    if calls(t.condition, o) == Returned(true) && calls(t.action, o).Returned? then
      t.(triggeredCount := t.triggeredCount + 1)
    else
      t
  }

  /** Every trigger looking at the observation. */
  function FireAll(ts: map<string, Trigger>, o: Observation, calls: (nat, Observation) -> CallResult): map<string, Trigger> {
    map name | name in ts :: Fire(ts[name], o, calls)
  }

  /** Firing keeps the set of triggers: none is added and none removed. */
  lemma FireAllKeeps(ts: map<string, Trigger>, o: Observation, calls: (nat, Observation) -> CallResult)
    ensures FireAll(ts, o, calls).Keys == ts.Keys
    ensures |FireAll(ts, o, calls)| == |ts|
  {
    assert FireAll(ts, o, calls).Keys == ts.Keys;
  }

  /** `if target:`, for an optional string. */
  predicate Truthy(target: Option<string>) {
    target.Some? && target.value != ""
  }

  function ForTarget(target: string): Observation -> bool {
    (o: Observation) => Equal(o.target, VStr(target))
  }

  function NotBefore(since: DateTime): Observation -> bool {
    (o: Observation) => Clock.AtLeast(o.timestamp, since)
  }

  /** get_observations: keep those for the target, if one is given, then those from `since` on, if it is given. */
  function Select(obs: seq<Observation>, target: Option<string>, since: Option<DateTime>): seq<Observation> {
    var forTarget := if Truthy(target) then Filter(ForTarget(target.value), obs) else obs;
    if since.Some? then Filter(NotBefore(since.value), forTarget) else forTarget
  }

  /** o passes both filters of get_observations. */
  predicate Wanted(o: Observation, target: Option<string>, since: Option<DateTime>) {
    && (Truthy(target) ==> Equal(o.target, VStr(target.value)))
    && (since.Some? ==> Clock.AtLeast(o.timestamp, since.value))
  }

  function WantedBy(target: Option<string>, since: Option<DateTime>): Observation -> bool {
    (o: Observation) => Wanted(o, target, since)
  }

  /**
   * The selection holds exactly the recorded observations that are for the
   * target and no older than `since`, each as often as it was recorded, in
   * the order they were recorded; with neither filter it is the whole record.
   */
  lemma SelectExact(obs: seq<Observation>, target: Option<string>, since: Option<DateTime>)
    ensures forall o :: o in Select(obs, target, since) <==> o in obs && Wanted(o, target, since)
    ensures forall o :: multiset(Select(obs, target, since))[o] == if Wanted(o, target, since) then multiset(obs)[o] else 0
    ensures IsSubsequence(Select(obs, target, since), obs)
    ensures !Truthy(target) && since.None? ==> Select(obs, target, since) == obs
  {
    SelectOneFilter(obs, target, since);
    FilterExact(WantedBy(target, since), obs);
  }

  /** The two filters of get_observations act as one. */
  lemma SelectOneFilter(obs: seq<Observation>, target: Option<string>, since: Option<DateTime>)
    ensures Select(obs, target, since) == Filter(WantedBy(target, since), obs)
  {
    var keep := WantedBy(target, since);
    if Truthy(target) && since.Some? {
      FilterTwice(ForTarget(target.value), NotBefore(since.value), keep, obs);
    } else if Truthy(target) {
      FilterSame(ForTarget(target.value), keep, obs);
    } else if since.Some? {
      FilterSame(NotBefore(since.value), keep, obs);
    } else {
      FilterAll(keep, obs);
    }
  }

  datatype Statistics = Statistics(totalObservations: nat, isMonitoring: bool, activeTriggers: nat, observationTargets: seq<string>)

  class ObserverEntity {
    const agent: BaseAgent
    var observationTargets: seq<string>
    var observations: seq<Observation>
    var triggers: map<string, Trigger>
    var isMonitoring: bool

    /** `observation_targets or []`; monitoring starts switched off. */
    constructor(agentId: string, name: string, now: DateTime, config: Option<Dict> := None, observationTargets: Option<seq<string>> := None)
      ensures fresh(agent)
      ensures agent.agentId == agentId && agent.name == name && agent.className == "ObserverEntity"
      ensures agent.config == (if config.Some? then config.value else EmptyDict)
      ensures agent.createdAt == now && agent.isActive
      ensures this.observationTargets == (if observationTargets.Some? then observationTargets.value else [])
      ensures observations == [] && triggers == map[] && !isMonitoring
    {
      agent := new BaseAgent(agentId, name, "ObserverEntity", now, config);
      this.observationTargets := if observationTargets.Some? && observationTargets.value != [] then observationTargets.value else [];
      observations := [];
      triggers := map[];
      isMonitoring := false;
    }

    /**
     * process: an observer that is inactive or not monitoring records nothing
     * and answers None; otherwise the new observation is recorded at the end
     * and every trigger looks at it.
     */
    method Process(input: Value, now: DateTime, calls: (nat, Observation) -> CallResult) returns (r: Option<Observation>)
      modifies this
      ensures GetStatistics().totalObservations
        == old(GetStatistics().totalObservations) + (if agent.isActive && isMonitoring then 1 else 0)
      ensures GetStatistics().activeTriggers == old(GetStatistics().activeTriggers)
      ensures observationTargets == old(observationTargets) && isMonitoring == old(isMonitoring)
      ensures !(agent.isActive && isMonitoring) ==> r == None && observations == old(observations) && triggers == old(triggers)
      ensures agent.isActive && isMonitoring ==>
        && r == Some(CreateObservation(agent.agentId, input, now))
        && observations == old(observations) + [r.value]
        && triggers == FireAll(old(triggers), r.value, calls)
    {
      if !agent.isActive || !isMonitoring {
        return None;
      }
      var o := CreateObservation(agent.agentId, input, now);
      observations := observations + [o];
      CheckTriggers(o, calls);
      FireAllKeeps(old(triggers), o, calls);
      r := Some(o);
    }

    /** _check_triggers: each trigger looks at the observation once. */
    method CheckTriggers(o: Observation, calls: (nat, Observation) -> CallResult)
      modifies this`triggers
      ensures triggers == FireAll(old(triggers), o, calls)
    {
      ghost var start := triggers;
      var remaining := triggers.Keys;
      while remaining != {}
        invariant remaining <= start.Keys && triggers.Keys == start.Keys
        invariant forall name :: name in remaining ==> triggers[name] == start[name]
        invariant forall name :: name in start && name !in remaining ==> triggers[name] == Fire(start[name], o, calls)
        decreases remaining
      {
        var name :| name in remaining;
        triggers := triggers[name := Fire(triggers[name], o, calls)];
        remaining := remaining - {name};
      }
    }

    /** update_state: an absent entry leaves its field as it was. */
    method UpdateState(observationTargets: Option<seq<string>>, monitoring: Option<bool>)
      modifies this
      ensures this.observationTargets == if observationTargets.Some? then observationTargets.value else old(this.observationTargets)
      ensures isMonitoring == if monitoring.Some? then monitoring.value else old(isMonitoring)
      ensures observations == old(observations) && triggers == old(triggers)
    {
      if observationTargets.Some? {
        this.observationTargets := observationTargets.value;
      }
      if monitoring.Some? {
        isMonitoring := monitoring.value;
      }
    }

    method StartMonitoring()
      modifies this`isMonitoring
      ensures isMonitoring
      ensures GetStatistics() == old(GetStatistics()).(isMonitoring := true)
    {
      isMonitoring := true;
    }

    method StopMonitoring()
      modifies this`isMonitoring
      ensures !isMonitoring
      ensures GetStatistics() == old(GetStatistics()).(isMonitoring := false)
    {
      isMonitoring := false;
    }

    /** add_trigger: a trigger of the same name is replaced, and the count starts again at zero. */
    method AddTrigger(name: string, condition: nat, action: nat)
      modifies this`triggers
      ensures triggers == old(triggers)[name := Trigger(condition, action, 0)]
      ensures GetStatistics() == old(GetStatistics()).(activeTriggers :=
        old(GetStatistics().activeTriggers) + if name in old(triggers) then 0 else 1)
    {
      triggers := triggers[name := Trigger(condition, action, 0)];
    }

    /** remove_trigger: removing a name that is not there does nothing. */
    method RemoveTrigger(name: string)
      modifies this`triggers
      ensures triggers == old(triggers) - {name}
      ensures name !in old(triggers) ==> triggers == old(triggers)
      ensures GetStatistics() == old(GetStatistics()).(activeTriggers :=
        old(GetStatistics().activeTriggers) - if name in old(triggers) then 1 else 0)
    {
      if name in triggers {
        triggers := triggers - {name};
      }
    }

    function GetObservations(target: Option<string>, since: Option<DateTime>): seq<Observation>
      reads this
    {
      Select(observations, target, since)
    }

    function GetStatistics(): (s: Statistics)
      reads this
      ensures s.totalObservations == |observations| && s.activeTriggers == |triggers|
      ensures s.isMonitoring == isMonitoring && s.observationTargets == observationTargets
    {
      Statistics(|observations|, isMonitoring, |triggers|, observationTargets)
    }
  }
}
