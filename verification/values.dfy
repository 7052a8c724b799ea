/**
 * The Python values that the core stores in its dictionaries and compares:
 * None, bool, int, float, str, datetime and other objects, with Python's
 * `==`, `>=`, `str()`, `type(x).__name__` and `getattr(x, "target", None)`;
 * and the insertion-ordered `dict` with string keys.
 */
module PyValues {
  import opened Wrappers
  import opened Text
  import Clock
  import Seqs

  /**
   * A float is its exact value together with the text Python's repr() gives
   * for it. An object other than the built-in scalars is known by its
   * identity, its class name, its str() text and its `target` attribute, if any.
   */
  datatype Value =
    | VNone
    | VBool(b: bool)
    | VInt(i: int)
    | VFloat(x: real, repr: string)
    | VStr(s: string)
    | VTime(t: Clock.DateTime)
    | VObject(id: nat, className: string, text: string, target: Option<Value>)

  /** bool, int and float form Python's numeric tower: they compare by value. */
  predicate IsNumber(v: Value) {
    v.VBool? || v.VInt? || v.VFloat?
  }

  function Number(v: Value): real
    requires IsNumber(v)
  {
    match v
    case VBool(b) => if b then 1.0 else 0.0
    case VInt(i) => i as real
    case VFloat(x, _) => x
  }

  /** Python's `a == b`: numbers by value, objects by identity, the rest structurally. */
  predicate Equal(a: Value, b: Value) {
    if IsNumber(a) && IsNumber(b) then Number(a) == Number(b)
    else if a.VObject? && b.VObject? then a.id == b.id
    else if IsNumber(a) || IsNumber(b) || a.VObject? || b.VObject? then false
    else a == b
  }

  /** type(v).__name__ */
  function TypeName(v: Value): string {
    match v
    case VNone => "NoneType"
    case VBool(_) => "bool"
    case VInt(_) => "int"
    case VFloat(_, _) => "float"
    case VStr(_) => "str"
    case VTime(_) => "datetime"
    case VObject(_, c, _, _) => c
  }

  /**
   * The type name an error message prints: the C-level tp_name, which for
   * datetime carries its module ("datetime.datetime") and is otherwise
   * type(v).__name__.
   */
  function MessageTypeName(v: Value): (r: string)
    ensures v.VTime? ==> r == "datetime.datetime"
    ensures !v.VTime? ==> r == TypeName(v)
  {
    if v.VTime? then "datetime.datetime" else TypeName(v)
  }

  /** str(v) */
  function Str(v: Value): string {
    match v
    case VNone => "None"
    case VBool(b) => if b then "True" else "False"
    case VInt(i) => IntToString(i)
    case VFloat(_, r) => r
    case VStr(s) => s
    case VTime(t) => Clock.IsoFormat(t, ' ')
    case VObject(_, _, text, _) => text
  }

  /** getattr(v, "target", None): only objects can carry the attribute. */
  function TargetAttribute(v: Value): (r: Value)
    ensures !v.VObject? ==> r == VNone
  {
    if v.VObject? && v.target.Some? then v.target.value else VNone
  }

  /** The message of the TypeError an unsupported comparison raises. */
  function TypeErrorText(op: string, a: Value, b: Value): string {
    "'" + op + "' not supported between instances of '" + MessageTypeName(a) + "' and '" + MessageTypeName(b) + "'"
  }

  /** a < b for strings: code point by code point, a proper prefix first. */
  predicate StrLess(a: string, b: string)
    decreases |a|
  {
    if a == [] then b != []
    else if b == [] then false
    else if a[0] != b[0] then a[0] < b[0]
    else StrLess(a[1..], b[1..])
  }

  lemma {:induction false} StrLessIrreflexive(a: string)
    ensures !StrLess(a, a)
    decreases |a|
  {
    if a != [] {
      StrLessIrreflexive(a[1..]);
    }
  }

  /** The pairs of built-in values Python can order: two numbers, two strings, two datetimes. */
  predicate Comparable(a: Value, b: Value) {
    (IsNumber(a) && IsNumber(b)) || (a.VStr? && b.VStr?) || (a.VTime? && b.VTime?)
  }

  /** Python's `a >= b`: the comparison's value, or the TypeError it raises. */
  function AtLeast(a: Value, b: Value): (r: Result<bool, string>)
    ensures r.Failure? <==> !Comparable(a, b)
    ensures r.Failure? ==> r.error == TypeErrorText(">=", a, b)
  {
    if IsNumber(a) && IsNumber(b) then Success(Number(a) >= Number(b))
    else if a.VStr? && b.VStr? then Success(!StrLess(a.s, b.s))
    else if a.VTime? && b.VTime? then Success(Clock.AtLeast(a.t, b.t))
    else Failure(TypeErrorText(">=", a, b))
  }

  /** Values that compare equal and can be ordered satisfy `a >= b`: ties count as at least. */
  lemma AtLeastOnTies(a: Value, b: Value)
    requires AtLeast(a, b).Success? && Equal(a, b)
    ensures AtLeast(a, b) == Success(true)
  {
    if a.VStr? {
      StrLessIrreflexive(a.s);
    }
  }

  /** An insertion-ordered dictionary with string keys. */
  datatype DictRep = DictRep(keys: seq<string>, entries: map<string, Value>)

  predicate ValidDict(d: DictRep) {
    && (forall i, j :: 0 <= i < j < |d.keys| ==> d.keys[i] != d.keys[j])
    && (forall k :: k in d.keys ==> k in d.entries)
    && (forall k :: k in d.entries ==> k in d.keys)
  }

  type Dict = d: DictRep | ValidDict(d) witness DictRep([], map[])

  const EmptyDict: Dict := DictRep([], map[])

  /** d.get(k): None when k is absent. */
  function Get(d: Dict, k: string): (r: Option<Value>)
    ensures r.Some? <==> k in d.keys
  {
    if k in d.entries then Some(d.entries[k]) else None
  }

  /** d[k] = v: a new key goes to the end, an existing one keeps its place. */
  function Put(d: Dict, k: string, v: Value): (r: Dict)
    ensures r.entries == d.entries[k := v]
    ensures r.keys == if k in d.keys then d.keys else d.keys + [k]
  {
    if k in d.entries then DictRep(d.keys, d.entries[k := v]) else DictRep(d.keys + [k], d.entries[k := v])
  }

  /** The keys that are not yet in d, as a filter condition. */
  function Absent(d: Dict): string -> bool {
    k => k !in d.keys
  }

  /** d[k] = src[k] for each key of ks in turn. */
  function PutAll(d: Dict, src: map<string, Value>, ks: seq<string>): Dict
    requires forall k :: k in ks ==> k in src
    decreases |ks|
  {
    if ks == [] then d else Put(PutAll(d, src, ks[..|ks| - 1]), ks[|ks| - 1], src[ks[|ks| - 1]])
  }

  /** d.update(e) */
  function Update(d: Dict, e: Dict): Dict {
    PutAll(d, e.entries, e.keys)
  }

  /**
   * After d.update(e) every key of e maps to its value in e and every other
   * key keeps its value in d; d's keys keep their order and e's new keys
   * follow them in e's order.
   */
  lemma UpdateExact(d: Dict, e: Dict)
    ensures forall k :: k in Update(d, e).entries <==> k in d.entries || k in e.entries
    ensures forall k :: k in e.entries ==> Update(d, e).entries[k] == e.entries[k]
    ensures forall k :: k in d.entries && k !in e.entries ==> Update(d, e).entries[k] == d.entries[k]
    ensures Update(d, e).keys == d.keys + Seqs.Filter(Absent(d), e.keys)
  {
    PutAllEntries(d, e.entries, e.keys);
    PutAllKeys(d, e.entries, e.keys);
  }

  lemma {:induction false} PutAllEntries(d: Dict, src: map<string, Value>, ks: seq<string>)
    requires forall k :: k in ks ==> k in src
    ensures forall k :: k in PutAll(d, src, ks).entries <==> k in d.entries || k in ks
    ensures forall k :: k in ks ==> PutAll(d, src, ks).entries[k] == src[k]
    ensures forall k :: k in d.entries && k !in ks ==> PutAll(d, src, ks).entries[k] == d.entries[k]
    decreases |ks|
  {
    if ks != [] {
      var init := ks[..|ks| - 1];
      PutAllEntries(d, src, init);
      assert ks == init + [ks[|ks| - 1]];
    }
  }

  lemma {:induction false} PutAllKeys(d: Dict, src: map<string, Value>, ks: seq<string>)
    requires forall k :: k in ks ==> k in src
    requires forall i, j :: 0 <= i < j < |ks| ==> ks[i] != ks[j]
    ensures PutAll(d, src, ks).keys == d.keys + Seqs.Filter(Absent(d), ks)
    decreases |ks|
  {
    if ks != [] {
      var init, last := ks[..|ks| - 1], ks[|ks| - 1];
      assert ks == init + [last];
      PutAllKeys(d, src, init);
      var before := PutAll(d, src, init);
      var kept := Seqs.Filter(Absent(d), init);
      Seqs.FilterMembers(Absent(d), init);
      Seqs.FilterSnoc(Absent(d), init, last);
      assert last !in init;
      assert last in before.keys <==> last in d.keys;
      if last in d.keys {
        assert PutAll(d, src, ks).keys == before.keys;
      } else {
        assert PutAll(d, src, ks).keys == before.keys + [last];
        assert Seqs.Filter(Absent(d), ks) == kept + [last];
      }
    }
  }

  /** d.get(k, default) */
  function GetOr(d: Dict, k: string, default: Value): Value {
    if k in d.entries then d.entries[k] else default
  }
}
