/**
 * The Python values the exporter hands to `json.dumps`, the JSON tree that
 * `json.dumps` writes out, `delete_keys_with_none_values`, `serialize`, and
 * `json.dumps(..., default=serialize)` as a function from values to trees.
 *
 * A dict is a `map` from keys to values: the order of the keys, like all
 * other properties of the JSON text, is not modelled.
 */
module PyJson {
  import opened Wrappers
  import opened GltfEnums

  /** A member of one of the three enumerations. */
  datatype EnumMember =
    | AccessorTypeMember(accessorType: AccessorType)
    | ComponentTypeMember(componentType: ComponentType)
    | ModeMember(mode: Mode)

  /** A Python number as the records hold it: `[2]` and `[1.0]` are different lists. */
  datatype Number = Int(i: int) | Float(r: real)

  /**
   * A Python value. Lists and tuples are both `PyList`, since `json.dumps`
   * writes both as arrays. A dataclass instance is `PyRecord` of its
   * `__dict__`; a plain dict is `PyDict`.
   */
  datatype PyValue =
    | PyNone
    | PyInt(i: int)
    | PyFloat(f: real)
    | PyStr(s: string)
    | PyList(items: seq<PyValue>)
    | PyDict(entries: map<string, PyValue>)
    | PyEnum(member: EnumMember)
    | PyRecord(fields: map<string, PyValue>)

  /** A JSON value as `json.dumps` writes it (no booleans occur here). */
  datatype Json =
    | JNull
    | JInt(i: int)
    | JFloat(f: real)
    | JString(s: string)
    | JArray(elements: seq<Json>)
    | JObject(members: map<string, Json>)

  function NumberValue(n: Number): PyValue
  {
    match n
    case Int(i) => PyInt(i)
    case Float(r) => PyFloat(r)
  }

  /** The result `delete_keys_with_none_values` returns: the entries whose value is not `None`. */
  function Pruned(d: map<string, PyValue>): (r: map<string, PyValue>)
    ensures r.Keys <= d.Keys
    ensures forall k :: k in r ==> r[k] != PyNone && r[k] == d[k]
    ensures forall k :: k in d && d[k] != PyNone ==> k in r
  {
    map k | k in d && d[k] != PyNone :: d[k]
  }

  /**
   * `delete_keys_with_none_values`: copies the dict and deletes from the copy,
   * one key at a time, every key whose value `is None`. A value that is itself a
   * dict is handed to a recursive call whose result is thrown away, so the
   * nested dict reaches the result unpruned. The input is never changed
   * (Dafny maps are values; the source deletes only from its copy).
   */
  method DeleteKeysWithNoneValues(dictionary: map<string, PyValue>) returns (copy: map<string, PyValue>)
    ensures copy == Pruned(dictionary)
    decreases PyDict(dictionary)
  {
    copy := dictionary;
    var pending := dictionary.Keys;
    while pending != {}
      invariant pending <= dictionary.Keys
      invariant copy == map k | k in dictionary && (k in pending || dictionary[k] != PyNone) :: dictionary[k]
      decreases pending
    {
      var key :| key in pending;
      var value := dictionary[key];
      if value.PyNone? {
        copy := copy - {key};
      } else if value.PyDict? {
        var discarded := DeleteKeysWithNoneValues(value.entries);
      }
      pending := pending - {key};
    }
  }

  /** The raw value of an enum member. */
  function RawValue(e: EnumMember): PyValue
  {
    match e
    case AccessorTypeMember(t) => PyStr(AccessorTypeValue(t))
    case ComponentTypeMember(c) => PyInt(ComponentTypeValue(c))
    case ModeMember(m) => PyInt(ModeValue(m))
  }

  /** The raw value identifies the member, across all three enumerations. */
  lemma RawValueInjective(a: EnumMember, b: EnumMember)
    ensures RawValue(a) == RawValue(b) <==> a == b
  {
    match a
    case AccessorTypeMember(t) =>
      if b.AccessorTypeMember? { AccessorTypeValueInjective(t, b.accessorType); }
    case ComponentTypeMember(c) =>
      ComponentTypeRoundTrip(c, 0);
      match b {
        case AccessorTypeMember(_) =>
        case ComponentTypeMember(c') => ComponentTypeValueInjective(c, c');
        case ModeMember(m') => ModeRoundTrip(m', 0);
      }
    case ModeMember(m) =>
      ModeRoundTrip(m, 0);
      match b {
        case AccessorTypeMember(_) =>
        case ComponentTypeMember(c') => ComponentTypeRoundTrip(c', 0);
        case ModeMember(m') => ModeValueInjective(m, m');
      }
  }

  /**
   * `serialize`: an enum member becomes its raw value; an object becomes its
   * field dict with the `None` entries deleted. Anything else has no
   * `__dict__` and raises (`None` here); `json.dumps` never calls it on those.
   */
  function Serialize(obj: PyValue): (r: Option<PyValue>)
    ensures r.Some? <==> obj.PyEnum? || obj.PyRecord?
    ensures obj.PyEnum? ==> r == Some(RawValue(obj.member))
    ensures obj.PyRecord? ==> r.Some? && r.value.PyDict? && r.value.entries == Pruned(obj.fields)
  {
    match obj
    case PyEnum(e) => Some(RawValue(e))
    case PyRecord(fields) => Some(PyDict(Pruned(fields)))
    case _ => None
  }

  /**
   * `json.dumps(v, default=serialize)` as a tree: JSON-native values are
   * written as they are (a dict's values and a list's items recursively);
   * any other value is first passed to `serialize` and its result written.
   */
  function Dumps(v: PyValue): Json
    decreases v, 1
  {
    match v
    case PyNone => JNull
    case PyInt(i) => JInt(i)
    case PyFloat(f) => JFloat(f)
    case PyStr(s) => JString(s)
    case PyList(items) => JArray(seq(|items|, i requires 0 <= i < |items| => Dumps(items[i])))
    case PyDict(m) => JObject(map k | k in m :: Dumps(m[k]))
    case PyEnum(_) => DumpsDefault(v)
    case PyRecord(_) => DumpsDefault(v)
  }

  /** What the encoder writes for a value it hands to `serialize`. */
  function DumpsDefault(v: PyValue): Json
    requires v.PyEnum? || v.PyRecord?
    decreases v, 0
  {
    match Serialize(v)
    case Some(PyDict(m)) => JObject(map k | k in m :: Dumps(m[k]))
    case Some(PyStr(s)) => JString(s)
    case Some(PyInt(i)) => JInt(i)
    case _ => assert false; JNull
  }

  /** A JSON tree with no `null` anywhere in it. */
  predicate NullFree(j: Json)
  {
    match j
    case JNull => false
    case JArray(a) => forall i :: 0 <= i < |a| ==> NullFree(a[i])
    case JObject(m) => forall k :: k in m ==> NullFree(m[k])
    case _ => true
  }

  /** `None` occurs, if anywhere, only as the value of a field of an object. */
  predicate NoneOnlyInFields(v: PyValue)
  {
    match v
    case PyNone => false
    case PyList(items) => forall i :: 0 <= i < |items| ==> NoneOnlyInFields(items[i])
    case PyDict(m) => forall k :: k in m ==> NoneOnlyInFields(m[k])
    case PyRecord(f) => forall k :: k in f && f[k] != PyNone ==> NoneOnlyInFields(f[k])
    case _ => true
  }

  /**
   * The absent optional fields of objects vanish at every depth: when `None`
   * is only ever an object's field value, the written JSON holds no `null`.
   */
  lemma {:induction false} DumpsNullFree(v: PyValue)
    requires NoneOnlyInFields(v)
    ensures NullFree(Dumps(v))
  {
    match v
    case PyList(items) =>
      forall i | 0 <= i < |items| ensures NullFree(Dumps(v).elements[i]) {
        DumpsNullFree(items[i]);
      }
    case PyDict(m) =>
      forall k | k in m ensures NullFree(Dumps(m[k])) {
        DumpsNullFree(m[k]);
      }
    case PyRecord(f) =>
      var p := Pruned(f);
      forall k | k in p ensures NullFree(Dumps(p[k])) {
        DumpsNullFree(p[k]);
      }
    case _ =>
  }

  /** The keys an object's JSON has: its fields that are not `None`. */
  lemma ObjectKeys(fields: map<string, PyValue>)
    ensures Dumps(PyRecord(fields)).JObject?
    ensures Dumps(PyRecord(fields)).members.Keys == set k | k in fields && fields[k] != PyNone
    ensures forall k :: k in fields && fields[k] != PyNone ==> Dumps(PyRecord(fields)).members[k] == Dumps(fields[k])
  {
  }

  /** The keys of an object's JSON, when the fields that are `None` are known. */
  lemma ObjectKeysAbsent(fields: map<string, PyValue>, absent: set<string>)
    requires forall k :: k in fields ==> (fields[k] == PyNone <==> k in absent)
    ensures Dumps(PyRecord(fields)).JObject?
    ensures Dumps(PyRecord(fields)).members.Keys == fields.Keys - absent
  {
    ObjectKeys(fields);
  }

  /**
   * The pruning test is identity with `None`, not falsiness: a zero, an
   * empty string or an empty list survives.
   */
  lemma FalsyValuesSurvive(d: map<string, PyValue>, k: string)
    requires k in d && d[k] in {PyInt(0), PyFloat(0.0), PyStr(""), PyList([]), PyDict(map[])}
    ensures k in Pruned(d) && Pruned(d)[k] == d[k]
  {
  }

  /** As written: a plain dict nested in an object keeps its `None` entries, and `null` is written. */
  lemma NestedDictNotPruned()
    ensures var inner := map["b" := PyNone];
            var outer := map["a" := PyDict(inner)];
            Pruned(outer) == outer
            && Dumps(PyRecord(outer)) == JObject(map["a" := JObject(map["b" := JNull])])
            && !NullFree(Dumps(PyRecord(outer)))
  {
    var inner := map["b" := PyNone];
    var outer := map["a" := PyDict(inner)];
    assert Pruned(outer) == outer;
    var j := JObject(map["b" := JNull]);
    assert Dumps(PyDict(inner)) == j;
    assert Serialize(PyRecord(outer)) == Some(PyDict(outer));
    assert DumpsDefault(PyRecord(outer)) == JObject(map["a" := j]);
    assert "b" in j.members && j.members["b"] == JNull;
    assert !NullFree(j);
    var top := JObject(map["a" := j]);
    assert "a" in top.members && top.members["a"] == j;
    assert !NullFree(top);
  }

  /**
   * The pruning the docstring promises ("recursively"): a nested dict is
   * replaced by its own pruned copy.
   */
  function PrunedDeep(d: map<string, PyValue>): (r: map<string, PyValue>)
    ensures r.Keys == set k | k in d && d[k] != PyNone
    decreases PyDict(d)
  {
    map k | k in d && d[k] != PyNone :: if d[k].PyDict? then PyDict(PrunedDeep(d[k].entries)) else d[k]
  }

  /** No `None` in a dict or in any dict nested in it. */
  predicate NoneFreeDeep(d: map<string, PyValue>)
    decreases PyDict(d)
  {
    forall k :: k in d ==> d[k] != PyNone && (d[k].PyDict? ==> NoneFreeDeep(d[k].entries))
  }

  lemma {:induction false} PrunedDeepNoneFree(d: map<string, PyValue>)
    ensures NoneFreeDeep(PrunedDeep(d))
    decreases PyDict(d)
  {
    var r := PrunedDeep(d);
    forall k | k in r ensures r[k] != PyNone && (r[k].PyDict? ==> NoneFreeDeep(r[k].entries)) {
      if d[k].PyDict? {
        PrunedDeepNoneFree(d[k].entries);
      }
    }
  }

  /** Where no value is a plain dict, the two prunings agree. */
  lemma PrunedDeepAgrees(d: map<string, PyValue>)
    requires forall k :: k in d ==> !d[k].PyDict?
    ensures PrunedDeep(d) == Pruned(d)
  {
  }
}
