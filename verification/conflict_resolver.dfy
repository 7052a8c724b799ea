/**
 * Conflict detection between state dictionaries and strategy-based
 * resolution (meshy/reality/conflict_resolver.py).
 */
module ConflictResolution {
  import opened Wrappers
  import opened Text
  import opened PyValues
  import opened Seqs
  import Clock

  datatype ConflictType =
    | StateConflict | TemporalConflict | AgentConflict | ResourceConflict | LogicalConflict

  /** The enum member's value. */
  function ConflictTypeValue(t: ConflictType): string {
    match t
    case StateConflict => "state_conflict"
    case TemporalConflict => "temporal_conflict"
    case AgentConflict => "agent_conflict"
    case ResourceConflict => "resource_conflict"
    case LogicalConflict => "logical_conflict"
  }

  /** ConflictType(v): the member whose value equals v; None where Python raises ValueError. */
  function ParseConflictType(v: Value): (r: Option<ConflictType>)
    ensures r.Some? ==> v == VStr(ConflictTypeValue(r.value))
  {
    if !v.VStr? then None
    else if v.s == "state_conflict" then Some(StateConflict)
    else if v.s == "temporal_conflict" then Some(TemporalConflict)
    else if v.s == "agent_conflict" then Some(AgentConflict)
    else if v.s == "resource_conflict" then Some(ResourceConflict)
    else if v.s == "logical_conflict" then Some(LogicalConflict)
    else None
  }

  /** Every member is found again from its value. */
  lemma ParseConflictTypeRoundTrip(t: ConflictType)
    ensures ParseConflictType(VStr(ConflictTypeValue(t))) == Some(t)
  {
  }

  datatype Strategy = PriorityBased | TimestampBased | ConsensusBased | MajorityRule | ManualReview

  function StrategyValue(s: Strategy): string {
    match s
    case PriorityBased => "priority_based"
    case TimestampBased => "timestamp_based"
    case ConsensusBased => "consensus_based"
    case MajorityRule => "majority_rule"
    case ManualReview => "manual_review"
  }

  /**
   * A conflict dictionary, as far as the resolver reads it: the "id" entry
   * (None when absent, as conflict.get("id") gives), the raw "type" entry
   * (None when absent), "conflicting_keys", the two states (None when the
   * entry is absent) and "detected_at".
   */
  datatype Conflict = Conflict(
    id: Value,
    kind: Option<Value>,
    conflictingKeys: seq<string>,
    state1: Option<Dict>,
    state2: Option<Dict>,
    detectedAt: Option<Clock.DateTime>)

  /** The {"resolved_state": ..., "reason": ...} dictionary a strategy returns. */
  datatype Decision = Decision(resolvedState: Option<Dict>, reason: string)

  /** One entry of conflict_history; `error` is present only on failure. */
  datatype Resolution = Resolution(
    conflictId: Value,
    timestamp: Clock.DateTime,
    strategyUsed: string,
    original: Conflict,
    resolution: Option<Decision>,
    success: bool,
    error: Option<string>)

  // ---------------------------------------------------------------------
  // Detection
  // ---------------------------------------------------------------------

  /** Key k is in both states with values that are not ==. */
  predicate Clash(s1: Dict, s2: Dict, k: string) {
    k in s1.entries && k in s2.entries && !Equal(s1.entries[k], s2.entries[k])
  }

  function Clashes(s1: Dict, s2: Dict): string -> bool {
    k => Clash(s1, s2, k)
  }

  /** The "conflicting_keys" of two states: the keys of state1 that state2 holds with a different value. */
  function ConflictingKeys(s1: Dict, s2: Dict): seq<string> {
    Filter(Clashes(s1, s2), s1.keys)
  }

  /** The clashing keys are exactly the shared keys with unequal values, once each, in state1's key order. */
  lemma ConflictingKeysExact(s1: Dict, s2: Dict)
    ensures forall k :: k in ConflictingKeys(s1, s2) <==>
      k in s1.keys && k in s2.keys && !Equal(s1.entries[k], s2.entries[k])
    ensures IsSubsequence(ConflictingKeys(s1, s2), s1.keys)
    ensures Distinct(ConflictingKeys(s1, s2))
  {
    FilterMembers(Clashes(s1, s2), s1.keys);
    assert Distinct(s1.keys);
    SubsequenceOfDistinct(ConflictingKeys(s1, s2), s1.keys);
  }

  /** The id f"conflict_{i}_{j}_{ts}", with the text of the clock's timestamp() given. */
  function ConflictId(i: nat, j: nat, epochText: string): string {
    "conflict_" + NatToString(i) + "_" + NatToString(j) + "_" + epochText
  }

  /** What _check_state_conflict returns for states i and j. */
  function StateConflictOf(s1: Dict, s2: Dict, i: nat, j: nat, now: Clock.DateTime, epochText: string)
    : Option<Conflict>
  {
    var keys := ConflictingKeys(s1, s2);
    if keys == [] then None
    else Some(Conflict(VStr(ConflictId(i, j, epochText)), Some(VStr(ConflictTypeValue(StateConflict))),
                       keys, Some(s1), Some(s2), Some(now)))
  }

  /**
   * Two states conflict exactly when some key of state1 is in state2 with a
   * value that is not ==; the record is a state conflict between the two
   * with its id naming both indices.
   */
  lemma StateConflictExact(s1: Dict, s2: Dict, i: nat, j: nat, now: Clock.DateTime, epochText: string)
    ensures var r := StateConflictOf(s1, s2, i, j, now, epochText);
      && (r.Some? <==> exists k :: k in s1.keys && k in s2.keys && !Equal(s1.entries[k], s2.entries[k]))
      && (r.Some? ==> && KindOf(r.value) == Some(StateConflict)
                      && r.value.state1 == Some(s1) && r.value.state2 == Some(s2)
                      && r.value.conflictingKeys == ConflictingKeys(s1, s2)
                      && r.value.id == VStr(ConflictId(i, j, epochText)))
  {
    ConflictingKeysExact(s1, s2);
    var keys := ConflictingKeys(s1, s2);
    if keys != [] {
      assert keys[0] in keys;
    }
  }

  /** Distinct index pairs give distinct conflict ids, whatever the clock read for each. */
  lemma ConflictIdInjective(i: nat, j: nat, i': nat, j': nat, epochText: string, epochText': string)
    requires ConflictId(i, j, epochText) == ConflictId(i', j', epochText')
    ensures i == i' && j == j' && epochText == epochText'
  {
    var a, b := NatToString(i), NatToString(j);
    var a', b' := NatToString(i'), NatToString(j');
    var s := ConflictId(i, j, epochText);
    var p := "conflict_";
    assert s == p + (a + ("_" + (b + ("_" + epochText))));
    assert s == p + (a' + ("_" + (b' + ("_" + epochText'))));
    assert s[|p|..] == a + ("_" + (b + ("_" + epochText))) == a' + ("_" + (b' + ("_" + epochText')));
    DigitsBeforeSeparator(a, "_" + (b + ("_" + epochText)), a', "_" + (b' + ("_" + epochText')));
    NatToStringInjective(i, i');
    assert ("_" + (b + ("_" + epochText)))[1..] == b + ("_" + epochText);
    assert ("_" + (b' + ("_" + epochText')))[1..] == b' + ("_" + epochText');
    DigitsBeforeSeparator(b, "_" + epochText, b', "_" + epochText');
    NatToStringInjective(j, j');
    assert ("_" + epochText)[1..] == epochText && ("_" + epochText')[1..] == epochText';
  }

  /** The pairs (i, lo), ..., (i, hi - 1). */
  function Row(i: nat, lo: nat, hi: nat): (r: seq<(nat, nat)>)
    ensures |r| == if hi <= lo then 0 else hi - lo
    ensures forall k :: 0 <= k < |r| ==> r[k] == (i, lo + k)
    decreases hi
  {
    if hi <= lo then [] else Row(i, lo, hi - 1) + [(i, hi - 1)]
  }

  /** The pairs the nested loops of detect_conflicts visit for the first m values of the outer index. */
  function PairsBefore(n: nat, m: nat): (r: seq<(nat, nat)>)
    ensures forall k :: 0 <= k < |r| ==> r[k].0 < r[k].1 < n && r[k].0 < m
  {
    if m == 0 then [] else PairsBefore(n, m - 1) + Row(m - 1, m, n)
  }

  /** Every index pair the nested loops visit, in visiting order. */
  function AllPairs(n: nat): seq<(nat, nat)> {
    PairsBefore(n, n)
  }

  predicate LexLess(p: (nat, nat), q: (nat, nat)) {
    p.0 < q.0 || (p.0 == q.0 && p.1 < q.1)
  }

  predicate LexSorted(ps: seq<(nat, nat)>) {
    forall a, b :: 0 <= a < b < |ps| ==> LexLess(ps[a], ps[b])
  }

  lemma {:induction false} PairsBeforeMembers(n: nat, m: nat)
    ensures forall i: nat, j: nat :: (i, j) in PairsBefore(n, m) <==> i < m && i < j < n
  {
    if m > 0 {
      PairsBeforeMembers(n, m - 1);
      var p, row := PairsBefore(n, m - 1), Row(m - 1, m, n);
      var q := p + row;
      forall i: nat, j: nat | i < m && i < j < n
        ensures (i, j) in q
      {
        if i == m - 1 {
          assert q[|p| + (j - m)] == (i, j);
        } else {
          assert (i, j) in p;
        }
      }
    }
  }

  lemma {:induction false} PairsBeforeSorted(n: nat, m: nat)
    ensures LexSorted(PairsBefore(n, m))
  {
    if m > 0 {
      PairsBeforeSorted(n, m - 1);
      var p, row := PairsBefore(n, m - 1), Row(m - 1, m, n);
      var q := p + row;
      forall a, b | 0 <= a < b < |q|
        ensures LexLess(q[a], q[b])
      {
        if b < |p| {
          assert q[a] == p[a] && q[b] == p[b];
        } else if a < |p| {
          assert q[a] == p[a] && q[b] == row[b - |p|];
        } else {
          assert q[a] == row[a - |p|] && q[b] == row[b - |p|];
        }
      }
    }
  }

  /** The loops visit exactly the pairs i < j, each once, in increasing (i, j) order. */
  lemma AllPairsExact(n: nat)
    ensures forall i: nat, j: nat :: (i, j) in AllPairs(n) <==> i < j < n
    ensures LexSorted(AllPairs(n))
    ensures Distinct(AllPairs(n))
  {
    PairsBeforeMembers(n, n);
    PairsBeforeSorted(n, n);
  }

  /**
   * The clock as _check_state_conflict reads it for states i and j: the text
   * of timestamp() put in the id, and the datetime stored as "detected_at".
   * Every pair has readings of its own.
   */
  type Readings = (nat, nat) -> (string, Clock.DateTime)

  /** What comparing states p.0 and p.1 reports; nothing for indices past the end. */
  function ConflictAt(states: seq<Dict>, p: (nat, nat), clock: Readings): Option<Conflict> {
    if p.0 < |states| && p.1 < |states| then StateConflictOf(states[p.0], states[p.1], p.0, p.1, clock(p.0, p.1).1, clock(p.0, p.1).0)
    else None
  }

  function Found(c: Option<Conflict>): seq<Conflict> {
    if c.Some? then [c.value] else []
  }

  /** The conflicts found on `pairs`, in the order of `pairs`, at most one per pair. */
  function Detected(states: seq<Dict>, pairs: seq<(nat, nat)>, clock: Readings)
    : seq<Conflict>
  {
    FlatMap(Finder(states, clock), pairs)
  }

  function Finder(states: seq<Dict>, clock: Readings): ((nat, nat)) -> seq<Conflict> {
    p => Found(ConflictAt(states, p, clock))
  }

  /** Every reported conflict comes from one of the pairs, and every pair whose states clash is reported. */
  lemma {:induction false} DetectedExact(states: seq<Dict>, pairs: seq<(nat, nat)>, clock: Readings)
    ensures forall c :: c in Detected(states, pairs, clock) ==>
      (exists k :: 0 <= k < |pairs| && ConflictAt(states, pairs[k], clock) == Some(c))
    ensures forall k :: 0 <= k < |pairs| && ConflictAt(states, pairs[k], clock).Some? ==>
      ConflictAt(states, pairs[k], clock).value in Detected(states, pairs, clock)
    decreases |pairs|
  {
    if pairs != [] {
      var init, last := pairs[..|pairs| - 1], pairs[|pairs| - 1];
      DetectedExact(states, init, clock);
      var di := Detected(states, init, clock);
      var d := Detected(states, pairs, clock);
      assert pairs == init + [last];
      DetectedSnoc(states, init, last, clock);
      forall c | c in d
        ensures exists k :: 0 <= k < |pairs| && ConflictAt(states, pairs[k], clock) == Some(c)
      {
        if c in di {
          var k :| 0 <= k < |init| && ConflictAt(states, init[k], clock) == Some(c);
          assert pairs[k] == init[k];
        } else {
          assert ConflictAt(states, pairs[|pairs| - 1], clock) == Some(c);
        }
      }
      forall k | 0 <= k < |pairs| && ConflictAt(states, pairs[k], clock).Some?
        ensures ConflictAt(states, pairs[k], clock).value in d
      {
        if k < |init| {
          assert pairs[k] == init[k];
        }
      }
    }
  }

  /** detect_conflicts reports a conflict for states i < j exactly when they have a clashing key. */
  lemma DetectedAllPairs(states: seq<Dict>, i: nat, j: nat, clock: Readings)
    requires i < j < |states|
    ensures ConflictingKeys(states[i], states[j]) != [] ==>
      ConflictAt(states, (i, j), clock).value in Detected(states, AllPairs(|states|), clock)
  {
    AllPairsExact(|states|);
    var ps := AllPairs(|states|);
    if ConflictingKeys(states[i], states[j]) != [] {
      DetectedExact(states, ps, clock);
      assert (i, j) in ps;
      var k :| 0 <= k < |ps| && ps[k] == (i, j);
    }
  }

  /** One step of the inner loop of detect_conflicts: pair (i, j) is compared next. */
  lemma DetectedRowStep(states: seq<Dict>, i: nat, j: nat, clock: Readings)
    requires i < j
    ensures Detected(states, Row(i, i + 1, j + 1), clock)
      == Detected(states, Row(i, i + 1, j), clock) + Found(ConflictAt(states, (i, j), clock))
  {
    DetectedSnoc(states, Row(i, i + 1, j), (i, j), clock);
  }

  /** One step of the outer loop: the row of outer index m follows the earlier rows. */
  lemma DetectedOuterStep(states: seq<Dict>, n: nat, m: nat, clock: Readings)
    ensures Detected(states, PairsBefore(n, m + 1), clock)
      == Detected(states, PairsBefore(n, m), clock) + Detected(states, Row(m, m + 1, n), clock)
  {
    DetectedAppend(states, PairsBefore(n, m), Row(m, m + 1, n), clock);
  }

  lemma DetectedAppend(states: seq<Dict>, a: seq<(nat, nat)>, b: seq<(nat, nat)>, clock: Readings)
    ensures Detected(states, a + b, clock)
      == Detected(states, a, clock) + Detected(states, b, clock)
  {
    FlatMapAppend(Finder(states, clock), a, b);
  }

  lemma DetectedSnoc(states: seq<Dict>, pairs: seq<(nat, nat)>, p: (nat, nat), clock: Readings)
    ensures Detected(states, pairs + [p], clock)
      == Detected(states, pairs, clock) + Found(ConflictAt(states, p, clock))
  {
    FlatMapSnoc(Finder(states, clock), pairs, p);
  }

  // ---------------------------------------------------------------------
  // Strategies
  // ---------------------------------------------------------------------

  /** The table _initialize_strategies installs. */
  const InitialStrategies: map<ConflictType, Strategy> := map[
    StateConflict := TimestampBased,
    TemporalConflict := TimestampBased,
    AgentConflict := PriorityBased,
    ResourceConflict := MajorityRule,
    LogicalConflict := ManualReview]

  /** resolution_strategies.get(t, default_strategy) */
  function StrategyFor(table: map<ConflictType, Strategy>, default: Strategy, t: ConflictType): Strategy {
    if t in table then table[t] else default
  }

  /**
   * The initial table covers every conflict type, and set_strategy only adds
   * or replaces entries, so the default strategy is never consulted.
   */
  lemma DefaultStrategyNeverUsed(table: map<ConflictType, Strategy>, default: Strategy, t: ConflictType)
    requires InitialStrategies.Keys <= table.Keys
    ensures StrategyFor(table, default, t) == table[t]
  {
    assert t in InitialStrategies;
  }

  /** The raw "type" entry, with "state_conflict" when it is absent. */
  function RawKind(c: Conflict): Value {
    if c.kind.Some? then c.kind.value else VStr(ConflictTypeValue(StateConflict))
  }

  function KindOf(c: Conflict): Option<ConflictType> {
    ParseConflictType(RawKind(c))
  }

  /** The text of the KeyError that conflict[name] raises for a missing entry. */
  function KeyErrorText(name: string): string {
    "'" + name + "'"
  }

  /**
   * The comparison shared by priority and timestamp resolution: read `key`
   * from both states (with `default` when absent) and keep state1 when its
   * value is >= state2's, else state2. Fails with the KeyError for a missing
   * state or the TypeError of an impossible comparison.
   */
  function PickByField(c: Conflict, key: string, default: Value, reason: string): (r: Result<Decision, string>)
    ensures c.state1.None? ==> r == Failure(KeyErrorText("state1"))
    ensures c.state1.Some? && c.state2.None? ==> r == Failure(KeyErrorText("state2"))
    ensures c.state1.Some? && c.state2.Some? ==>
      var v1, v2 := GetOr(c.state1.value, key, default), GetOr(c.state2.value, key, default);
      && (r.Failure? <==> !Comparable(v1, v2))
      && (r.Failure? ==> r.error == TypeErrorText(">=", v1, v2))
      && (r.Success? ==> r.value.reason == reason)
      && (AtLeast(v1, v2) == Success(true) ==> r.value.resolvedState == c.state1)
      && (AtLeast(v1, v2) == Success(false) ==>
            r.value.resolvedState == c.state2 && AtLeast(v2, v1) == Success(true))
  {
    if c.state1.None? then Failure(KeyErrorText("state1"))
    else if c.state2.None? then Failure(KeyErrorText("state2"))
    else
      var v1, v2 := GetOr(c.state1.value, key, default), GetOr(c.state2.value, key, default);
      match AtLeast(v1, v2)
      case Failure(e) => Failure(e)
      case Success(ge) =>
        AtLeastFlips(v1, v2);
        Success(Decision(if ge then c.state1 else c.state2, reason))
  }

  lemma {:induction false} StrLessAsymmetric(a: string, b: string)
    ensures StrLess(a, b) ==> !StrLess(b, a)
    decreases |a|
  {
    if a != [] && b != [] && a[0] == b[0] {
      StrLessAsymmetric(a[1..], b[1..]);
    }
  }

  /** When a >= b is false, b >= a holds. */
  lemma AtLeastFlips(a: Value, b: Value)
    ensures AtLeast(a, b) == Success(false) ==> AtLeast(b, a) == Success(true)
  {
    if a.VStr? && b.VStr? {
      StrLessAsymmetric(a.s, b.s);
    } else if a.VTime? && b.VTime? {
      Clock.AtLeastTotal(a.t, b.t);
    }
  }

  /** The state's "priority", 0 when absent. */
  function Priority(s: Dict): Value {
    GetOr(s, "priority", VInt(0))
  }

  /** The state's "timestamp", datetime.min when absent. */
  function Timestamp(s: Dict): Value {
    GetOr(s, "timestamp", VTime(Clock.Min))
  }

  function ResolveByPriority(c: Conflict): Result<Decision, string> {
    PickByField(c, "priority", VInt(0), "higher_priority")
  }

  function ResolveByTimestamp(c: Conflict): Result<Decision, string> {
    PickByField(c, "timestamp", VTime(Clock.Min), "more_recent")
  }

  /** Priority resolution keeps state1 exactly when its priority is >= state2's, so ties go to state1. */
  lemma PriorityPrefersFirst(c: Conflict)
    requires c.state1.Some? && c.state2.Some?
    requires AtLeast(Priority(c.state1.value), Priority(c.state2.value)).Success?
    ensures ResolveByPriority(c).Success?
    ensures ResolveByPriority(c).value.reason == "higher_priority"
    ensures ResolveByPriority(c).value.resolvedState ==
      if AtLeast(Priority(c.state1.value), Priority(c.state2.value)).value then c.state1 else c.state2
    ensures Equal(Priority(c.state1.value), Priority(c.state2.value)) ==>
      ResolveByPriority(c).value.resolvedState == c.state1
  {
    if Equal(Priority(c.state1.value), Priority(c.state2.value)) {
      AtLeastOnTies(Priority(c.state1.value), Priority(c.state2.value));
    }
  }

  /** A state without "priority" counts as priority 0. */
  lemma PriorityMissingIsZero(c: Conflict)
    requires c.state1.Some? && c.state2.Some?
    requires "priority" !in c.state1.value.keys && IsNumber(Priority(c.state2.value))
    ensures ResolveByPriority(c).Success?
    ensures ResolveByPriority(c).value.resolvedState == c.state1 || ResolveByPriority(c).value.resolvedState == c.state2
    ensures Number(Priority(c.state2.value)) <= 0.0 ==> ResolveByPriority(c).value.resolvedState == c.state1
    ensures Number(Priority(c.state2.value)) > 0.0 ==> ResolveByPriority(c).value.resolvedState == c.state2
  {
  }

  /** Timestamp resolution keeps the later state; ties, and a missing timestamp on state2, go to state1. */
  lemma TimestampPrefersLatest(c: Conflict)
    requires c.state1.Some? && c.state2.Some?
    requires Timestamp(c.state1.value).VTime? && Timestamp(c.state2.value).VTime?
    ensures ResolveByTimestamp(c).Success?
    ensures ResolveByTimestamp(c).value.reason == "more_recent"
    ensures ResolveByTimestamp(c).value.resolvedState ==
      if Clock.AtLeast(Timestamp(c.state1.value).t, Timestamp(c.state2.value).t) then c.state1 else c.state2
    ensures "timestamp" !in c.state2.value.keys ==> ResolveByTimestamp(c).value.resolvedState == c.state1
    ensures "timestamp" !in c.state1.value.keys && Timestamp(c.state2.value).t != Clock.Min ==>
      ResolveByTimestamp(c).value.resolvedState == c.state2
  {
    Clock.MinIsLeast(Timestamp(c.state1.value).t);
    Clock.MinIsLeast(Timestamp(c.state2.value).t);
  }

  /** The consensus placeholder: state1, or the KeyError when it is absent. */
  function ResolveByConsensus(c: Conflict): (r: Result<Decision, string>)
    ensures r.Success? <==> c.state1.Some?
    ensures r.Success? ==> r.value == Decision(c.state1, "consensus_placeholder")
    ensures r.Failure? ==> r.error == KeyErrorText("state1")
  {
    if c.state1.None? then Failure(KeyErrorText("state1"))
    else Success(Decision(c.state1, "consensus_placeholder"))
  }

  /** The majority placeholder: state1, or the KeyError when it is absent. */
  function ResolveByMajority(c: Conflict): (r: Result<Decision, string>)
    ensures r.Success? <==> c.state1.Some?
    ensures r.Success? ==> r.value == Decision(c.state1, "majority_placeholder")
    ensures r.Failure? ==> r.error == KeyErrorText("state1")
  {
    if c.state1.None? then Failure(KeyErrorText("state1"))
    else Success(Decision(c.state1, "majority_placeholder"))
  }

  /** The decision _mark_for_manual_review returns. */
  const ManualDecision := Decision(None, "marked_for_manual_review")

  /** The body of the try block: the chosen strategy's decision, or the text of the exception it raised. */
  function Attempt(s: Strategy, c: Conflict): (r: Result<Decision, string>)
    ensures s == ManualReview ==> r == Success(ManualDecision)
    ensures r.Success? && r.value.resolvedState.None? ==> s == ManualReview
  {
    match s
    case PriorityBased => ResolveByPriority(c)
    case TimestampBased => ResolveByTimestamp(c)
    case ConsensusBased => ResolveByConsensus(c)
    case MajorityRule => ResolveByMajority(c)
    case ManualReview => Success(ManualDecision)
  }

  /** The resolution record resolve_conflict appends and returns for strategy s. */
  function MakeResolution(c: Conflict, s: Strategy, now: Clock.DateTime): (r: Resolution)
    ensures r.success <==> r.resolution.Some?
    ensures r.success <==> r.error.None?
    ensures r.original == c && r.conflictId == c.id && r.strategyUsed == StrategyValue(s)
    ensures s == ManualReview ==> r.success && r.resolution.value.resolvedState.None?
  {
    match Attempt(s, c)
    case Success(d) => Resolution(c.id, now, StrategyValue(s), c, Some(d), true, None)
    case Failure(e) => Resolution(c.id, now, StrategyValue(s), c, None, false, Some(e))
  }

  /** The index of the first conflict whose "type" is not a ConflictType value, or |cs|. */
  function FirstInvalid(cs: seq<Conflict>): (r: nat)
    ensures r <= |cs|
    ensures forall k :: 0 <= k < r ==> KindOf(cs[k]).Some?
    ensures r < |cs| ==> KindOf(cs[r]).None?
    decreases |cs|
  {
    if cs == [] then 0
    else if KindOf(cs[0]).None? then 0
    else 1 + FirstInvalid(cs[1..])
  }

  predicate AllValid(cs: seq<Conflict>) {
    forall k :: 0 <= k < |cs| ==> KindOf(cs[k]).Some?
  }

  /**
   * The strategy resolve_conflict applies to c. A conflict whose "type" is
   * not a ConflictType value never reaches a strategy (the conversion
   * raises first); the default given for it here is never used.
   */
  function StrategyOf(table: map<ConflictType, Strategy>, default: Strategy, c: Conflict): Strategy {
    match KindOf(c)
    case Some(t) => StrategyFor(table, default, t)
    case None => default
  }

  /** Resolving the k-th conflict, with the clock reading `times(k)` taken for it. */
  function Resolver(table: map<ConflictType, Strategy>, default: Strategy, times: nat -> Clock.DateTime): (nat, Conflict) -> Resolution {
    (k: nat, c: Conflict) => MakeResolution(c, StrategyOf(table, default, c), times(k))
  }

  function NeedsReview(table: map<ConflictType, Strategy>, default: Strategy): Conflict -> bool {
    c => StrategyOf(table, default, c) == ManualReview
  }

  /**
   * The resolutions resolve_all_conflicts produces for a run of conflicts
   * with valid types; the k-th is stamped with the clock reading times(k).
   */
  function Resolutions(table: map<ConflictType, Strategy>, default: Strategy, cs: seq<Conflict>, times: nat -> Clock.DateTime)
    : seq<Resolution>
  {
    MapIndexed(Resolver(table, default, times), cs)
  }

  /** The conflicts that resolution queues for manual review, in order. */
  function Queued(table: map<ConflictType, Strategy>, default: Strategy, cs: seq<Conflict>): seq<Conflict> {
    Filter(NeedsReview(table, default), cs)
  }

  /**
   * One resolution per conflict, in input order, each made with the strategy
   * of the conflict's type at the clock reading taken for it.
   */
  lemma ResolutionsInOrder(table: map<ConflictType, Strategy>, default: Strategy, cs: seq<Conflict>, times: nat -> Clock.DateTime)
    requires AllValid(cs)
    ensures |Resolutions(table, default, cs, times)| == |cs|
    ensures forall k :: 0 <= k < |cs| ==>
      Resolutions(table, default, cs, times)[k] == MakeResolution(cs[k], StrategyFor(table, default, KindOf(cs[k]).value), times(k))
  {
    MapIndexedAt(Resolver(table, default, times), cs);
    forall k | 0 <= k < |cs|
      ensures StrategyOf(table, default, cs[k]) == StrategyFor(table, default, KindOf(cs[k]).value)
    {
    }
  }

  /**
   * The queue holds exactly the conflicts whose strategy is manual review,
   * each as often as it was given, in input order.
   */
  lemma QueuedExact(table: map<ConflictType, Strategy>, default: Strategy, cs: seq<Conflict>)
    requires AllValid(cs)
    ensures forall c :: c in Queued(table, default, cs) <==>
      c in cs && StrategyFor(table, default, KindOf(c).value) == ManualReview
    ensures forall c :: (multiset(Queued(table, default, cs))[c] ==
      if c in cs && StrategyFor(table, default, KindOf(c).value) == ManualReview then multiset(cs)[c] else 0)
    ensures IsSubsequence(Queued(table, default, cs), cs)
  {
    FilterExact(NeedsReview(table, default), cs);
  }

  /** FirstInvalid(cs) is the index where the valid prefix of cs ends. */
  lemma {:induction false} FirstInvalidAt(cs: seq<Conflict>, k: nat)
    requires k <= |cs| && AllValid(cs[..k])
    requires k < |cs| ==> KindOf(cs[k]).None?
    ensures FirstInvalid(cs) == k
    decreases k
  {
    if k > 0 {
      assert cs[..k][0] == cs[0];
      var tail, pre := cs[1..], cs[..k];
      var pre' := tail[..k - 1];
      forall t | 0 <= t < k - 1
        ensures KindOf(pre'[t]).Some?
      {
        assert pre'[t] == pre[t + 1];
      }
      FirstInvalidAt(tail, k - 1);
    }
  }

  lemma ResolutionsSnoc(table: map<ConflictType, Strategy>, default: Strategy, cs: seq<Conflict>, k: nat, times: nat -> Clock.DateTime)
    requires k < |cs| && AllValid(cs[..k]) && KindOf(cs[k]).Some?
    ensures AllValid(cs[..k + 1])
    ensures Resolutions(table, default, cs[..k + 1], times) == Resolutions(table, default, cs[..k], times)
      + [MakeResolution(cs[k], StrategyOf(table, default, cs[k]), times(k))]
    ensures Queued(table, default, cs[..k + 1]) == Queued(table, default, cs[..k])
      + (if StrategyOf(table, default, cs[k]) == ManualReview then [cs[k]] else [])
  {
    assert cs[..k + 1] == cs[..k] + [cs[k]];
    MapIndexedSnoc(Resolver(table, default, times), cs[..k], cs[k]);
    FilterSnoc(NeedsReview(table, default), cs[..k], cs[k]);
  }

  /** The positions of the successful resolutions in h. */
  function Successes(h: seq<Resolution>): set<nat> {
    set k: nat | k < |h| && h[k].success
  }

  /** The last resolution adds its own position to the successes of the ones before it. */
  lemma SuccessesSnoc(h: seq<Resolution>, x: Resolution)
    ensures |h| !in Successes(h)
    ensures Successes(h + [x]) == Successes(h) + (if x.success then {|h|} else {})
  {
  }

  /** How many resolutions succeeded: the number of successful positions. */
  function SuccessCount(h: seq<Resolution>): (n: nat)
    ensures n == |Successes(h)|
    ensures n <= |h|
    ensures n == |h| <==> forall k :: 0 <= k < |h| ==> h[k].success
    decreases |h|
  {
    if h == [] then 0
    else
      var init, last := h[..|h| - 1], h[|h| - 1];
      SuccessesSnoc(init, last);
      assert init + [last] == h;
      SuccessCount(init) + (if last.success then 1 else 0)
  }

  /** Appending one resolution adds one to the count exactly when it succeeded. */
  lemma SuccessCountSnoc(h: seq<Resolution>, x: Resolution)
    ensures SuccessCount(h + [x]) == SuccessCount(h) + (if x.success then 1 else 0)
  {
  }

  /** The count over two runs of resolutions is the sum of their counts. */
  lemma {:induction false} SuccessCountAppend(h: seq<Resolution>, more: seq<Resolution>)
    ensures SuccessCount(h + more) == SuccessCount(h) + SuccessCount(more)
    decreases |more|
  {
    if more == [] {
      assert h + more == h;
    } else {
      var init, last := more[..|more| - 1], more[|more| - 1];
      assert more == init + [last];
      assert h + more == (h + init) + [last];
      SuccessCountAppend(h, init);
      SuccessCountSnoc(h + init, last);
      SuccessCountSnoc(init, last);
    }
  }

  /** get_conflict_statistics without the success rate (a float). */
  datatype Statistics = Statistics(
    totalConflicts: nat,
    successfulResolutions: nat,
    pendingConflicts: nat,
    strategiesUsed: set<string>)

  class ConflictResolver {
    var defaultStrategy: Strategy
    var resolutionStrategies: map<ConflictType, Strategy>
    var conflictHistory: seq<Resolution>
    var pendingConflicts: seq<Conflict>

    constructor (defaultStrategy: Strategy := PriorityBased)
      ensures this.defaultStrategy == defaultStrategy
      ensures resolutionStrategies == InitialStrategies
      ensures conflictHistory == [] && pendingConflicts == []
    {
      this.defaultStrategy := defaultStrategy;
      resolutionStrategies := map[];
      conflictHistory := [];
      pendingConflicts := [];
      new;
      InitializeStrategies();
    }

    method InitializeStrategies()
      modifies this`resolutionStrategies
      ensures resolutionStrategies == InitialStrategies
    {
      resolutionStrategies := InitialStrategies;
    }

    method SetStrategy(t: ConflictType, s: Strategy)
      modifies this`resolutionStrategies
      ensures resolutionStrategies == old(resolutionStrategies)[t := s]
      ensures StrategyFor(resolutionStrategies, defaultStrategy, t) == s
    {
      resolutionStrategies := resolutionStrategies[t := s];
    }

    /** _check_state_conflict: the loop over state1's keys. */
    method CheckStateConflict(s1: Dict, s2: Dict, i: nat, j: nat, now: Clock.DateTime, epochText: string)
      returns (c: Option<Conflict>)
      ensures c == StateConflictOf(s1, s2, i, j, now, epochText)
    {
      var keys: seq<string> := [];
      var k := 0;
      while k < |s1.keys|
        invariant 0 <= k <= |s1.keys|
        invariant keys == Filter(Clashes(s1, s2), s1.keys[..k])
      {
        var key := s1.keys[k];
        if key in s2.entries && !Equal(s1.entries[key], s2.entries[key]) {
          keys := keys + [key];
        }
        assert s1.keys[..k + 1] == s1.keys[..k] + [key];
        FilterSnoc(Clashes(s1, s2), s1.keys[..k], key);
        k := k + 1;
      }
      assert s1.keys[..k] == s1.keys;
      if keys != [] {
        c := Some(Conflict(VStr(ConflictId(i, j, epochText)), Some(VStr(ConflictTypeValue(StateConflict))),
                           keys, Some(s1), Some(s2), Some(now)));
      } else {
        c := None;
      }
    }

    /** detect_conflicts: every pair i < j, in increasing order. */
    method DetectConflicts(states: seq<Dict>, clock: Readings)
      returns (conflicts: seq<Conflict>)
      ensures conflicts == Detected(states, AllPairs(|states|), clock)
    {
      var n := |states|;
      conflicts := [];
      var i := 0;
      while i < n
        invariant 0 <= i <= n
        invariant conflicts == Detected(states, PairsBefore(n, i), clock)
      {
        var found := CompareWithLater(states, i, clock);
        DetectedOuterStep(states, n, i, clock);
        conflicts := conflicts + found;
        i := i + 1;
      }
    }

    /** The inner loop of detect_conflicts: state i against every later state. */
    method CompareWithLater(states: seq<Dict>, i: nat, clock: Readings)
      returns (found: seq<Conflict>)
      requires i < |states|
      ensures found == Detected(states, Row(i, i + 1, |states|), clock)
    {
      found := [];
      var j := i + 1;
      while j < |states|
        invariant i + 1 <= j <= |states|
        invariant found == Detected(states, Row(i, i + 1, j), clock)
      {
        var c := CheckStateConflict(states[i], states[j], i, j, clock(i, j).1, clock(i, j).0);
        DetectedRowStep(states, i, j, clock);
        if c.Some? {
          found := found + [c.value];
        }
        j := j + 1;
      }
    }

    method MarkForManualReview(c: Conflict) returns (d: Decision)
      modifies this`pendingConflicts
      ensures pendingConflicts == old(pendingConflicts) + [c]
      ensures d == ManualDecision
    {
      pendingConflicts := pendingConflicts + [c];
      d := ManualDecision;
    }

    /**
     * resolve_conflict. An unknown "type" raises before anything is recorded;
     * otherwise exactly one resolution is appended, successful or not, and only
     * manual review queues the conflict.
     */
    method ResolveConflict(c: Conflict, now: Clock.DateTime) returns (r: Result<Resolution, Value>)
      modifies this`conflictHistory, this`pendingConflicts
      ensures KindOf(c).None? ==> && r == Failure(RawKind(c))
                                  && conflictHistory == old(conflictHistory)
                                  && pendingConflicts == old(pendingConflicts)
      ensures KindOf(c).Some? ==>
        var s := StrategyOf(resolutionStrategies, defaultStrategy, c);
        && r == Success(MakeResolution(c, s, now))
        && conflictHistory == old(conflictHistory) + [r.value]
        && pendingConflicts == old(pendingConflicts) + (if s == ManualReview then [c] else [])
    {
      var kind := KindOf(c);
      if kind.None? {
        return Failure(RawKind(c));
      }
      var s := StrategyFor(resolutionStrategies, defaultStrategy, kind.value);
      var attempt: Result<Decision, string>;
      if s == ManualReview {
        var d := MarkForManualReview(c);
        attempt := Success(d);
      } else {
        attempt := Attempt(s, c);
      }
      var resolution := match attempt
        case Success(d) => Resolution(c.id, now, StrategyValue(s), c, Some(d), true, None)
        case Failure(e) => Resolution(c.id, now, StrategyValue(s), c, None, false, Some(e));
      conflictHistory := conflictHistory + [resolution];
      r := Success(resolution);
    }

    /**
     * resolve_all_conflicts. The first conflict with an unknown "type" stops
     * the loop with its exception; the resolutions recorded before it stay in
     * the history. The clock read while resolving the k-th conflict is times(k).
     */
    method ResolveAllConflicts(cs: seq<Conflict>, times: nat -> Clock.DateTime) returns (r: Result<seq<Resolution>, Value>)
      modifies this`conflictHistory, this`pendingConflicts
      ensures var f := FirstInvalid(cs);
        && AllValid(cs[..f])
        && conflictHistory == old(conflictHistory)
             + Resolutions(resolutionStrategies, defaultStrategy, cs[..f], times)
        && pendingConflicts == old(pendingConflicts)
             + Queued(resolutionStrategies, defaultStrategy, cs[..f])
        && r == if f == |cs| then Success(Resolutions(resolutionStrategies, defaultStrategy, cs[..f], times))
                else Failure(RawKind(cs[f]))
    {
      var rs: seq<Resolution> := [];
      var k := 0;
      while k < |cs|
        invariant 0 <= k <= |cs|
        invariant AllValid(cs[..k])
        invariant rs == Resolutions(resolutionStrategies, defaultStrategy, cs[..k], times)
        invariant conflictHistory == old(conflictHistory) + rs
        invariant pendingConflicts == old(pendingConflicts) + Queued(resolutionStrategies, defaultStrategy, cs[..k])
      {
        var one := ResolveConflict(cs[k], times(k));
        if one.Failure? {
          FirstInvalidAt(cs, k);
          return Failure(one.error);
        }
        ResolutionsSnoc(resolutionStrategies, defaultStrategy, cs, k, times);
        assert conflictHistory == old(conflictHistory) + (rs + [one.value]);
        rs := rs + [one.value];
        k := k + 1;
      }
      assert cs[..k] == cs;
      FirstInvalidAt(cs, k);
      r := Success(rs);
    }

    /** get_conflict_statistics, without the success rate. */
    function GetConflictStatistics(): (s: Statistics)
      reads this
      ensures s.totalConflicts == |conflictHistory|
      ensures s.successfulResolutions == |set k: nat | k < |conflictHistory| && conflictHistory[k].success|
      ensures s.successfulResolutions <= s.totalConflicts
      ensures s.successfulResolutions == s.totalConflicts <==>
        forall k :: 0 <= k < |conflictHistory| ==> conflictHistory[k].success
      ensures s.pendingConflicts == |pendingConflicts|
      ensures forall name :: name in s.strategiesUsed <==>
        exists k :: 0 <= k < |conflictHistory| && conflictHistory[k].strategyUsed == name
    {
      Statistics(|conflictHistory|, SuccessCount(conflictHistory), |pendingConflicts|,
                 set k | 0 <= k < |conflictHistory| :: conflictHistory[k].strategyUsed)
    }
  }
}
