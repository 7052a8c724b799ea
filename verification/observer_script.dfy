/** The observer command interpreter (meshy/agents/observer_script.py). */
module ObserverScript {
  import opened Wrappers
  import opened Text
  import opened Clock
  import opened PyValues
  import opened Seqs
  import opened TimelineNodes
  import opened Floor
  import opened Observers

  /** What a command asks for, told by the prefix of the trimmed, lower-cased command. */
  datatype Verb = Resolve(strategy: string) | TagFloor | ShowLog | MaskCertainty | Unknown

  function Keyword(v: Verb): string
    requires !v.Unknown?
  {
    match v
    case Resolve(strategy) => strategy
    case TagFloor => "tag floor"
    case ShowLog => "log"
    case MaskCertainty => "mask certainty <"
  }

  /** The prefixes tested in order: merge, split, reject, tag floor, log, mask certainty <. */
  function Classify(cmd: string): Verb {
    if StartsWith(cmd, "merge") then Resolve("merge")
    else if StartsWith(cmd, "split") then Resolve("split")
    else if StartsWith(cmd, "reject") then Resolve("reject")
    else if StartsWith(cmd, "tag floor") then TagFloor
    else if StartsWith(cmd, "log") then ShowLog
    else if StartsWith(cmd, "mask certainty <") then MaskCertainty
    else Unknown
  }

  predicate IsVerb(v: Verb) {
    v in {Resolve("merge"), Resolve("split"), Resolve("reject"), TagFloor, ShowLog, MaskCertainty}
  }

  /**
   * No command starts with two keywords, so the order in which the prefixes
   * are tested does not matter: a command gets a verb exactly when it starts
   * with that verb's keyword, and none when it starts with no keyword.
   */
  lemma ClassifyExact(cmd: string, v: Verb)
    requires IsVerb(v)
    ensures Classify(cmd) == v <==> StartsWith(cmd, Keyword(v))
    ensures Classify(cmd) == Unknown <==>
      && !StartsWith(cmd, "merge") && !StartsWith(cmd, "split") && !StartsWith(cmd, "reject")
      && !StartsWith(cmd, "tag floor") && !StartsWith(cmd, "log") && !StartsWith(cmd, "mask certainty <")
  {
    Leads(cmd, "merge");
    Leads(cmd, "split");
    Leads(cmd, "reject");
    Leads(cmd, "tag floor");
    Leads(cmd, "log");
    Leads(cmd, "mask certainty <");
  }

  /** A string that starts with a keyword agrees with it on its first two characters. */
  lemma Leads(cmd: string, keyword: string)
    requires |keyword| >= 2
    ensures StartsWith(cmd, keyword) ==> cmd[0] == keyword[0] && cmd[1] == keyword[1]
  {
    if StartsWith(cmd, keyword) {
      assert cmd[..|keyword|][0] == cmd[0] && cmd[..|keyword|][1] == cmd[1];
    }
  }

  /** A snapshot of a dictionary context: its "conflicts" and "nodes" entries, each possibly absent. */
  class Context {
    var conflicts: Option<seq<Value>>
    var nodes: Option<seq<TimelineNode>>

    constructor(conflicts: Option<seq<Value>>, nodes: Option<seq<TimelineNode>>)
      ensures this.conflicts == conflicts && this.nodes == nodes
    {
      this.conflicts := conflicts;
      this.nodes := nodes;
    }
  }

  /** context.get(key, []) */
  function OrEmpty<T>(entry: Option<seq<T>>): seq<T> {
    if entry.Some? then entry.value else []
  }

  /** What a command returns when it does not raise. */
  datatype Reply = Resolved(value: Value) | Tagged(tag: FloorTag) | LogShown(entries: seq<string>) | Message(text: string)

  function Certain(threshold: Value): TimelineNode -> bool {
    (n: TimelineNode) => PyValues.AtLeast(Certainty(n), threshold) == Success(true)
  }

  /** The first node, if any, whose certainty cannot be compared with the threshold. */
  function FirstIncomparable(nodes: seq<TimelineNode>, threshold: Value): (r: Option<nat>)
    ensures r.Some? ==> r.value < |nodes| && !Comparable(Certainty(nodes[r.value]), threshold)
    ensures forall k :: 0 <= k < |nodes| && (r.Some? ==> k < r.value) ==> Comparable(Certainty(nodes[k]), threshold)
    decreases |nodes|
  {
    if nodes == [] then None
    else if !Comparable(Certainty(nodes[0]), threshold) then Some(0)
    else
      var rest := FirstIncomparable(nodes[1..], threshold);
      assert forall k :: 0 < k < |nodes| ==> nodes[k] == nodes[1..][k - 1];
      if rest.Some? then Some(rest.value + 1) else None
  }

  /**
   * The comprehension keeping the nodes whose certainty is >= the threshold:
   * it raises the TypeError of the first node whose certainty cannot be
   * compared, and otherwise keeps the certain ones.
   */
  function KeepCertain(nodes: seq<TimelineNode>, threshold: Value): Result<seq<TimelineNode>, string> {
    var bad := FirstIncomparable(nodes, threshold);
    if bad.Some? then Failure(TypeErrorText(">=", Certainty(nodes[bad.value]), threshold))
    else Success(Filter(Certain(threshold), nodes))
  }

  /**
   * kept holds exactly the nodes at least as certain as the threshold, each
   * as often as it occurs among the nodes, in their order.
   */
  ghost predicate CertainSelection(kept: seq<TimelineNode>, nodes: seq<TimelineNode>, threshold: Value) {
    && IsSubsequence(kept, nodes)
    && (forall n :: n in kept <==> n in nodes && PyValues.AtLeast(Certainty(n), threshold) == Success(true))
    && (forall n :: multiset(kept)[n] == if PyValues.AtLeast(Certainty(n), threshold) == Success(true) then multiset(nodes)[n] else 0)
  }

  /** Some node's certainty cannot be compared with the threshold. */
  predicate SomeIncomparable(nodes: seq<TimelineNode>, threshold: Value) {
    exists k :: 0 <= k < |nodes| && !Comparable(Certainty(nodes[k]), threshold)
  }

  /** The TypeError of node k, which is the leftmost node whose certainty cannot be compared. */
  ghost predicate LeftmostError(error: string, nodes: seq<TimelineNode>, threshold: Value) {
    exists k ::
      && 0 <= k < |nodes|
      && !Comparable(Certainty(nodes[k]), threshold)
      && error == TypeErrorText(">=", Certainty(nodes[k]), threshold)
      && forall j :: 0 <= j < k ==> Comparable(Certainty(nodes[j]), threshold)
  }

  /**
   * The comprehension fails exactly when some certainty cannot be compared,
   * with the error of the leftmost one; when it succeeds it keeps exactly the
   * nodes whose certainty is at least the threshold, in their order.
   */
  lemma KeepCertainExact(nodes: seq<TimelineNode>, threshold: Value)
    ensures KeepCertain(nodes, threshold).Failure? <==> SomeIncomparable(nodes, threshold)
    ensures KeepCertain(nodes, threshold).Failure? ==> LeftmostError(KeepCertain(nodes, threshold).error, nodes, threshold)
    ensures KeepCertain(nodes, threshold).Success? ==> CertainSelection(KeepCertain(nodes, threshold).value, nodes, threshold)
  {
    var bad := FirstIncomparable(nodes, threshold);
    if bad.Some? {
      var k := bad.value;
      assert KeepCertain(nodes, threshold).error == TypeErrorText(">=", Certainty(nodes[k]), threshold);
    } else {
      FilterExact(Certain(threshold), nodes);
    }
  }

  /** The threshold text: what follows the last '<', trimmed. */
  function ThresholdText(cmd: string): string {
    Strip(AfterLast(cmd, '<'))
  }

  function MaskedText(repr: string, remaining: nat): string {
    "Masked nodes with certainty < " + repr + ". " + NatToString(remaining) + " remaining."
  }

  const InvalidPrefix := "Invalid certainty threshold: "

  function InvalidText(error: string): string {
    InvalidPrefix + error
  }

  /**
   * mask certainty: the reply and the new "nodes" entry. `parseFloat` is
   * float(), giving the value and its repr() text or the error message.
   */
  function Mask(cmd: string, nodes: Option<seq<TimelineNode>>, parseFloat: string -> Result<(real, string), string>): (string, Option<seq<TimelineNode>>) {
    var parsed := parseFloat(ThresholdText(cmd));
    if parsed.Failure? then (InvalidText(parsed.error), nodes)
    else
      var threshold := Threshold(parsed.value);
      var kept := KeepCertain(OrEmpty(nodes), threshold);
      if kept.Failure? then (InvalidText(kept.error), nodes)
      else (MaskedText(parsed.value.1, |kept.value|), Some(kept.value))
  }

  /** The threshold a mask command compares with, once its text has parsed. */
  function Threshold(parsed: (real, string)): Value {
    VFloat(parsed.0, parsed.1)
  }

  /**
   * A mask reports an invalid threshold exactly when the threshold text does
   * not parse or some certainty cannot be compared with it.
   */
  lemma MaskExact(cmd: string, nodes: Option<seq<TimelineNode>>, parseFloat: string -> Result<(real, string), string>)
    ensures var parsed := parseFloat(ThresholdText(cmd));
      StartsWith(Mask(cmd, nodes, parseFloat).0, InvalidPrefix) <==>
        parsed.Failure? || SomeIncomparable(OrEmpty(nodes), Threshold(parsed.value))
  {
    var parsed := parseFloat(ThresholdText(cmd));
    if parsed.Success? && !SomeIncomparable(OrEmpty(nodes), Threshold(parsed.value)) {
      MaskFilters(cmd, nodes, parseFloat);
      var after := Mask(cmd, nodes, parseFloat).1.value;
      MaskedIsValid(parsed.value.1, |after|);
    } else {
      MaskRejects(cmd, nodes, parseFloat);
    }
  }

  /** The two kinds of reply a mask gives are told apart by their start. */
  lemma MaskedIsValid(repr: string, remaining: nat)
    ensures !StartsWith(MaskedText(repr, remaining), InvalidPrefix)
  {
    assert MaskedText(repr, remaining)[0] == 'M';
  }

  lemma InvalidStarts(error: string)
    ensures StartsWith(InvalidText(error), InvalidPrefix)
  {
    assert InvalidText(error)[..|InvalidPrefix|] == InvalidPrefix;
  }

  /**
   * A threshold that does not parse, or a certainty that cannot be compared
   * with it, is reported as invalid with the parse error or the leftmost
   * TypeError, and the nodes stay as they were.
   */
  lemma MaskRejects(cmd: string, nodes: Option<seq<TimelineNode>>, parseFloat: string -> Result<(real, string), string>)
    requires var parsed := parseFloat(ThresholdText(cmd));
      parsed.Failure? || SomeIncomparable(OrEmpty(nodes), Threshold(parsed.value))
    ensures Mask(cmd, nodes, parseFloat).1 == nodes
    ensures StartsWith(Mask(cmd, nodes, parseFloat).0, InvalidPrefix)
    ensures var parsed := parseFloat(ThresholdText(cmd));
      parsed.Failure? ==> Mask(cmd, nodes, parseFloat).0 == InvalidText(parsed.error)
    ensures var parsed := parseFloat(ThresholdText(cmd));
      parsed.Success? ==> exists e ::
        && Mask(cmd, nodes, parseFloat).0 == InvalidText(e)
        && LeftmostError(e, OrEmpty(nodes), Threshold(parsed.value))
  {
    var parsed := parseFloat(ThresholdText(cmd));
    if parsed.Failure? {
      InvalidStarts(parsed.error);
    } else {
      var kept := KeepCertain(OrEmpty(nodes), Threshold(parsed.value));
      KeepCertainExact(OrEmpty(nodes), Threshold(parsed.value));
      InvalidStarts(kept.error);
    }
  }

  /**
   * With a threshold that parses and certainties that all compare with it,
   * the nodes become those at least as certain as the threshold, in their
   * order, and the reply says how many remain.
   */
  lemma MaskFilters(cmd: string, nodes: Option<seq<TimelineNode>>, parseFloat: string -> Result<(real, string), string>)
    requires var parsed := parseFloat(ThresholdText(cmd));
      parsed.Success? && !SomeIncomparable(OrEmpty(nodes), Threshold(parsed.value))
    ensures var (reply, after) := Mask(cmd, nodes, parseFloat);
      && after.Some?
      && CertainSelection(after.value, OrEmpty(nodes), Threshold(parseFloat(ThresholdText(cmd)).value))
      && reply == MaskedText(parseFloat(ThresholdText(cmd)).value.1, |after.value|)
  {
    KeepCertainExact(OrEmpty(nodes), Threshold(parseFloat(ThresholdText(cmd)).value));
  }

  /** The engine's answer to a resolve command: the resolver's value, or the exception it raises. */
  function FromResolver(r: Result<Value, string>): Result<Reply, string> {
    if r.Success? then Success(Resolved(r.value)) else Failure(r.error)
  }

  function UnknownText(command: string): string {
    "Unknown observer command: " + command
  }

  class ObserverScriptEngine {
    const observer: ObserverEntity
    var log: seq<string>
    var floorTags: seq<FloorTag>

    constructor(observer: ObserverEntity)
      ensures this.observer == observer && log == [] && floorTags == []
    {
      this.observer := observer;
      log := [];
      floorTags := [];
    }

    /**
     * execute: the raw command is logged first, whatever follows; the verb is
     * read from the trimmed, lower-cased command. `now` is the clock read for
     * a new floor tag, `parseFloat` is float() and `resolve` is the resolver
     * for a strategy, whose exception propagates. Failure is the exception
     * the call raises.
     */
    method Execute(command: string, context: Context, now: DateTime,
                   parseFloat: string -> Result<(real, string), string>,
                   resolve: (string, seq<Value>) -> Result<Value, string>) returns (r: Result<Reply, string>)
      modifies this, context`nodes
      ensures log == old(log) + [command]
      ensures var v := Classify(Lower(Strip(command)));
        && (v.Resolve? ==> r == FromResolver(resolve(v.strategy, OrEmpty(old(context.conflicts)))))
        && (v == TagFloor ==> floorTags == old(floorTags) + [FloorTag(AfterLast(command, ' '), OrEmpty(old(context.nodes)), now)]
                              && r == Success(Tagged(floorTags[|floorTags| - 1])))
        && (v == ShowLog ==> r == Success(LogShown(log)))
        && (v == MaskCertainty ==> r == Success(Message(Mask(Lower(Strip(command)), old(context.nodes), parseFloat).0))
                                   && context.nodes == Mask(Lower(Strip(command)), old(context.nodes), parseFloat).1)
        && (v == Unknown ==> r == Failure(UnknownText(command)))
        && (v != TagFloor ==> floorTags == old(floorTags))
        && (v != MaskCertainty ==> context.nodes == old(context.nodes))
    {
      log := log + [command];
      var cmd := Lower(Strip(command));
      var v := Classify(cmd);
      match v {
        case Resolve(strategy) =>
          r := FromResolver(resolve(strategy, OrEmpty(context.conflicts)));
        case TagFloor =>
          var tag := FloorTag(AfterLast(command, ' '), OrEmpty(context.nodes), now);
          floorTags := floorTags + [tag];
          r := Success(Tagged(tag));
        case ShowLog =>
          r := Success(LogShown(log));
        case MaskCertainty =>
          var (reply, after) := Mask(cmd, context.nodes, parseFloat);
          context.nodes := after;
          r := Success(Message(reply));
        case Unknown =>
          r := Failure(UnknownText(command));
      }
    }
  }
}
