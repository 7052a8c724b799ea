/**
 * The state every agent shares (meshy/agents/base_agent.py). The abstract
 * `process` and `update_state` carry no behaviour at this level; the
 * concrete agents hold a BaseAgent and give their own.
 */
module BaseAgents {
  import opened Wrappers
  import opened Text
  import opened Clock
  import opened PyValues

  class BaseAgent {
    const agentId: string
    const name: string
    /** The name of the concrete agent's class, which __repr__ reports. */
    const className: string
    const createdAt: DateTime
    var config: Dict
    var isActive: bool

    /** `config or {}`: a missing or empty configuration becomes an empty one; clock read passed in as `now`. */
    constructor(agentId: string, name: string, className: string, now: DateTime, config: Option<Dict> := None)
      ensures this.agentId == agentId && this.name == name && this.className == className
      ensures this.config == (if config.Some? then config.value else EmptyDict)
      ensures createdAt == now
      ensures isActive
    {
      this.agentId := agentId;
      this.name := name;
      this.className := className;
      this.config := if config.Some? && config.value.keys != [] then config.value else EmptyDict;
      this.createdAt := now;
      this.isActive := true;
    }

    method Activate()
      modifies this`isActive
      ensures isActive
    {
      isActive := true;
    }

    method Deactivate()
      modifies this`isActive
      ensures !isActive
    {
      isActive := false;
    }

    /**
     * __repr__: "<class>(id=<agent id>, name=<name>)". The class name, the id
     * and the name sit at fixed places, so each can be read back from the text.
     */
    function Repr(): (r: string)
      ensures |r| == |className| + 4 + |agentId| + 7 + |name| + 1
      ensures r[..|className|] == className
      ensures r[|className|..|className| + 4] == "(id="
      ensures r[|className| + 4..|className| + 4 + |agentId|] == agentId
      ensures r[|className| + 4 + |agentId|..|className| + 11 + |agentId|] == ", name="
      ensures r[|className| + 11 + |agentId|..|r| - 1] == name
      ensures r[|r| - 1] == ')'
    {
      className + "(id=" + agentId + ", name=" + name + ")"
    }
  }

  /**
   * The repr tells agents of one class apart: with the id fixed it gives
   * the name back, and with the name fixed it gives the id back.
   */
  lemma ReprDetermines(a: BaseAgent, b: BaseAgent)
    requires a.className == b.className
    ensures a.agentId == b.agentId ==> (a.Repr() == b.Repr() <==> a.name == b.name)
    ensures a.name == b.name ==> (a.Repr() == b.Repr() <==> a.agentId == b.agentId)
  {
    var ra, rb := a.Repr(), b.Repr();
    if ra == rb {
      var c := |a.className|;
      if a.agentId == b.agentId {
        assert a.name == ra[c + 11 + |a.agentId|..|ra| - 1] == b.name;
      }
      if a.name == b.name {
        assert |a.agentId| == |b.agentId|;
        assert a.agentId == ra[c + 4..c + 4 + |a.agentId|] == b.agentId;
      }
    }
  }
}
