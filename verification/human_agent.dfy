/** A human participant (meshy/agents/human_agent.py). */
module Humans {
  import opened Wrappers
  import opened Clock
  import opened PyValues
  import opened BaseAgents

  /** One entry of the interaction history: when, what was shown, what came back. */
  datatype Interaction = Interaction(timestamp: DateTime, input: Value, response: string)

  /** _default_interaction: the placeholder reply for interfaces other than the console. */
  function DefaultInteraction(input: Value): (r: string)
    ensures |r| == 19 + |Str(input)|
    ensures r[..19] == "Human response to: " && r[19..] == Str(input)
  {
    "Human response to: " + Str(input)
  }

  class HumanAgent {
    const agent: BaseAgent
    var interfaceType: string
    var interactionHistory: seq<Interaction>

    constructor(agentId: string, name: string, now: DateTime, config: Option<Dict> := None, interfaceType: string := "console")
      ensures fresh(agent)
      ensures agent.agentId == agentId && agent.name == name && agent.className == "HumanAgent"
      ensures agent.config == (if config.Some? then config.value else EmptyDict)
      ensures agent.createdAt == now && agent.isActive
      ensures this.interfaceType == interfaceType
      ensures interactionHistory == []
    {
      agent := new BaseAgent(agentId, name, "HumanAgent", now, config);
      this.interfaceType := interfaceType;
      interactionHistory := [];
    }

    /**
     * process: an inactive agent answers None and records nothing; an active
     * one answers with what the person typed (console interface) or the
     * placeholder reply, and records the exchange stamped with the agent's
     * creation time. What the person types at the console is `consoleReply`.
     */
    method Process(input: Value, consoleReply: string) returns (r: Option<string>)
      modifies this
      ensures !agent.isActive ==> r == None && interactionHistory == old(interactionHistory)
      ensures agent.isActive ==> r == Some(if interfaceType == "console" then consoleReply else DefaultInteraction(input))
      ensures agent.isActive ==> interactionHistory == old(interactionHistory) + [Interaction(agent.createdAt, input, r.value)]
      ensures interfaceType == old(interfaceType)
      ensures InteractionCount() == old(InteractionCount()) + if agent.isActive then 1 else 0
    {
      if !agent.isActive {
        return None;
      }
      var response := if interfaceType == "console" then consoleReply else DefaultInteraction(input);
      interactionHistory := interactionHistory + [Interaction(agent.createdAt, input, response)];
      r := Some(response);
    }

    /**
     * update_state: "preferences" are merged into the configuration as
     * dict.update does, "interface_type" replaces the interface; an absent
     * entry changes nothing.
     */
    method UpdateState(preferences: Option<Dict>, interfaceType: Option<string>)
      modifies this, agent`config
      ensures agent.config == if preferences.Some? then Update(old(agent.config), preferences.value) else old(agent.config)
      ensures this.interfaceType == if interfaceType.Some? then interfaceType.value else old(this.interfaceType)
      ensures interactionHistory == old(interactionHistory)
    {
      if preferences.Some? {
        agent.config := Update(agent.config, preferences.value);
      }
      if interfaceType.Some? {
        this.interfaceType := interfaceType.value;
      }
    }

    function InteractionCount(): (n: nat)
      reads this
      ensures n == |interactionHistory|
    {
      |interactionHistory|
    }
  }
}
