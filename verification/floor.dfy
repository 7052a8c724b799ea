/** A floor tag: a named snapshot of timeline nodes (meshy/reality/floor.py). */
module Floor {
  import opened Text
  import opened Clock
  import opened TimelineNodes

  /** The tag's name, its nodes and its creation time, stored as given and never changed. */
  datatype FloorTag = FloorTag(tagName: string, nodes: seq<TimelineNode>, createdAt: DateTime)

  /** summary(): "FloorTag[<name>] - <count> nodes @ <isoformat>". */
  function Summary(t: FloorTag): (s: string)
    ensures StartsWith(s, "FloorTag[" + t.tagName + "] - ")
    ensures |s| == 9 + |t.tagName| + 4 + |NatToString(|t.nodes|)| + 9 + |IsoFormat(t.createdAt, 'T')|
  {
    var head := "FloorTag[" + t.tagName + "] - ";
    var s := head + NatToString(|t.nodes|) + " nodes @ " + IsoFormat(t.createdAt, 'T');
    assert s[..|head|] == head;
    s
  }

  /**
   * The summary loses neither the node count nor the creation time: two tags
   * with the same name and the same summary have as many nodes and were
   * created at the same instant.
   */
  lemma SummaryDetermines(a: FloorTag, b: FloorTag)
    requires a.tagName == b.tagName && Summary(a) == Summary(b)
    ensures |a.nodes| == |b.nodes| && a.createdAt == b.createdAt
  {
    var head := "FloorTag[" + a.tagName + "] - ";
    var na, nb := NatToString(|a.nodes|), NatToString(|b.nodes|);
    var ia, ib := IsoFormat(a.createdAt, 'T'), IsoFormat(b.createdAt, 'T');
    CountThenTime(head, na, ia, nb, ib);
    NatToStringInjective(|a.nodes|, |b.nodes|);
    IsoFormatInjective(a.createdAt, b.createdAt, 'T');
  }

  /** After a common head, a digit string followed by " nodes @ " splits one way only. */
  lemma CountThenTime(head: string, x: string, u: string, y: string, v: string)
    requires AllDigits(x) && AllDigits(y)
    requires head + x + " nodes @ " + u == head + y + " nodes @ " + v
    ensures x == y && u == v
  {
    var s, t := head + x + " nodes @ " + u, head + y + " nodes @ " + v;
    assert s[|head|..] == x + (" nodes @ " + u);
    assert t[|head|..] == y + (" nodes @ " + v);
    DigitsBeforeSeparator(x, " nodes @ " + u, y, " nodes @ " + v);
    assert (" nodes @ " + u)[9..] == u;
    assert (" nodes @ " + v)[9..] == v;
  }

  /** get_agents(): the distinct agent ids of the nodes, leaving out None and "". */
  function Agents(nodes: seq<TimelineNode>): (r: set<string>)
    ensures forall id :: id in r <==> exists k :: 0 <= k < |nodes| && HasAgent(nodes[k]) && nodes[k].agentId.value == id
    ensures "" !in r
    decreases |nodes|
  {
    if nodes == [] then {}
    else
      var init, last := nodes[..|nodes| - 1], nodes[|nodes| - 1];
      var r := Agents(init) + (if HasAgent(last) then {last.agentId.value} else {});
      assert forall k :: 0 <= k < |init| ==> init[k] == nodes[k];
      r
  }

  /** get_branches(): the distinct branch ids of the nodes. */
  function Branches(nodes: seq<TimelineNode>): (r: set<string>)
    ensures forall b :: b in r <==> exists k :: 0 <= k < |nodes| && nodes[k].branchId == b
    ensures r == {} <==> nodes == []
    decreases |nodes|
  {
    if nodes == [] then {}
    else
      var init, last := nodes[..|nodes| - 1], nodes[|nodes| - 1];
      var r := Branches(init) + {last.branchId};
      assert forall k :: 0 <= k < |init| ==> init[k] == nodes[k];
      r
  }

  function GetAgents(t: FloorTag): set<string> {
    Agents(t.nodes)
  }

  function GetBranches(t: FloorTag): set<string> {
    Branches(t.nodes)
  }
}
