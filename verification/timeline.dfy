/** Timeline nodes linked to their parent and children (meshy/timeline/node.py). */
module Timeline {
  import opened Wrappers
  import opened Clock
  import opened PyValues

  class Node {
    const nodeId: string
    var timestamp: DateTime
    var data: Dict
    var parent: Node?
    var children: seq<Node>

    /**
     * `timestamp or datetime.now()` (the clock read is `now`), `data or {}`.
     * The parent is recorded but not told: the new node is not among its children.
     */
    constructor(nodeId: string, now: DateTime, timestamp: Option<DateTime> := None, data: Option<Dict> := None, parent: Node? := null)
      ensures this.nodeId == nodeId
      ensures this.timestamp == (if timestamp.Some? then timestamp.value else now)
      ensures this.data == (if data.Some? then data.value else EmptyDict)
      ensures this.parent == parent && children == []
    {
      this.nodeId := nodeId;
      this.timestamp := if timestamp.Some? then timestamp.value else now;
      this.data := if data.Some? && data.value.keys != [] then data.value else EmptyDict;
      this.parent := parent;
      children := [];
    }

    /**
     * add_child: the child now points here and is appended to the children;
     * it stays among the children of a former parent, and nothing else changes.
     */
    method AddChild(child: Node)
      modifies this`children, child`parent
      ensures child.parent == this
      ensures children == old(children) + [child]
    {
      child.parent := this;
      children := children + [child];
    }

    /**
     * get_path: the nodes from the root down to this one. The walk up the
     * parents ends only when the chain of parents does, which `depth` states.
     */
    method GetPath(ghost depth: nat) returns (path: seq<Node>)
      requires HasDepth(this, depth)
      ensures |path| == depth + 1
      ensures path[0].parent == null && path[|path| - 1] == this
      ensures forall k :: 0 < k < |path| ==> path[k].parent == path[k - 1]
    {
      path := [];
      var current: Node? := this;
      ghost var rest := depth;
      while current != null
        invariant current != null ==> HasDepth(current, rest) && |path| + rest == depth
        invariant current == null ==> |path| == depth + 1 && path[0].parent == null
        invariant path == [] ==> current == this
        invariant path != [] ==> path[|path| - 1] == this && path[0].parent == current
        invariant forall k :: 0 < k < |path| ==> path[k].parent == path[k - 1]
        decreases if current == null then 0 else rest + 1
      {
        path := [current] + path;
        current := current.parent;
        if current != null {
          rest := rest - 1;
        }
      }
    }

    /** __repr__: "Node(id=<id>, timestamp=<str(timestamp)>)". */
    function Repr(): (r: string)
      reads this
      ensures |r| == 8 + |nodeId| + 12 + |IsoFormat(timestamp, ' ')| + 1
      ensures r[..8] == "Node(id=" && r[8..8 + |nodeId|] == nodeId
      ensures r[8 + |nodeId|..20 + |nodeId|] == ", timestamp="
      ensures r[20 + |nodeId|..|r| - 1] == IsoFormat(timestamp, ' ') && r[|r| - 1] == ')'
    {
      "Node(id=" + nodeId + ", timestamp=" + IsoFormat(timestamp, ' ') + ")"
    }
  }

  /** n is `depth` parent links above a root. */
  ghost predicate HasDepth(n: Node, depth: nat)
    reads *
    decreases depth
  {
    if depth == 0 then n.parent == null else n.parent != null && HasDepth(n.parent, depth - 1)
  }

  /** A node has at most one depth, so the length of its path is fixed. */
  lemma {:induction false} DepthUnique(n: Node, d: nat, e: nat)
    requires HasDepth(n, d) && HasDepth(n, e)
    ensures d == e
    decreases d
  {
    if d != 0 && e != 0 {
      DepthUnique(n.parent, d - 1, e - 1);
    }
  }

  /** A node that is its own parent has no depth: get_path would not return for it. */
  lemma {:induction false} OwnParentHasNoDepth(n: Node, d: nat)
    requires n.parent == n
    ensures !HasDepth(n, d)
    decreases d
  {
    if d != 0 {
      OwnParentHasNoDepth(n, d - 1);
    }
  }

  /** Two nodes with one id have the same repr exactly when they have the same timestamp. */
  lemma ReprDetermines(a: Node, b: Node)
    requires a.nodeId == b.nodeId
    ensures a.Repr() == b.Repr() <==> a.timestamp == b.timestamp
  {
    var ra, rb := a.Repr(), b.Repr();
    if ra == rb {
      var n := |a.nodeId|;
      assert IsoFormat(a.timestamp, ' ') == ra[20 + n..|ra| - 1] == IsoFormat(b.timestamp, ' ');
      IsoFormatInjective(a.timestamp, b.timestamp, ' ');
    }
  }
}
