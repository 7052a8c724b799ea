/**
 * The timeline node that floor tags and the observer script engine read.
 * Its class is imported as `TimelineNode` but not defined in the
 * repository; the model keeps only the three attributes that are read:
 * `agent_id` (possibly None or empty), `branch_id` and the `intent_meta`
 * dictionary.
 */
module TimelineNodes {
  import opened Wrappers
  import opened PyValues

  datatype TimelineNode = TimelineNode(agentId: Option<string>, branchId: string, intentMeta: Dict)

  /** The float 0.5 that a node without a "certainty" entry counts as. */
  const DefaultCertainty: Value := VFloat(0.5, "0.5")

  /** node.intent_meta.get("certainty", 0.5) */
  function Certainty(n: TimelineNode): (v: Value)
    ensures "certainty" !in n.intentMeta.keys ==> v == DefaultCertainty
    ensures "certainty" in n.intentMeta.keys ==> v == n.intentMeta.entries["certainty"]
  {
    GetOr(n.intentMeta, "certainty", DefaultCertainty)
  }

  /** `if node.agent_id`: the id is present and not empty. */
  predicate HasAgent(n: TimelineNode) {
    n.agentId.Some? && n.agentId.value != ""
  }
}
