/**
 * The dataclasses of the glTF document model, each with the explicit field
 * list its `__dict__` holds (`...Value`), and the cross-index invariant of a
 * document: every index in bounds, every byte range inside its buffer.
 */
module GltfRecords {
  import opened Wrappers
  import opened GltfEnums
  import opened PyJson

  datatype Asset = Asset(version: string)

  datatype Attributes = Attributes(POSITION: int, NORMAL: Option<int> := None)

  datatype Buffer = Buffer(byteLength: int, uri: string)

  datatype BufferView = BufferView(buffer: int, byteOffset: int, byteLength: int, target: int,
                                   byteStride: Option<int> := None)

  /** `elementType` is the field the source calls `type`. */
  datatype Accessor = Accessor(bufferView: int, byteOffset: int, elementType: AccessorType,
                               componentType: ComponentType, count: int,
                               min: seq<Number>, max: seq<Number>)

  datatype Primitive = Primitive(attributes: Attributes, indices: Option<int> := None, mode: Mode := TRIANGLES)

  datatype Mesh = Mesh(primitives: seq<Primitive>, name: Option<string> := None)

  /** A node; the defaults are the identity transform. */
  datatype Node = Node(mesh: int, children: Option<seq<int>> := None,
                       translation: (real, real, real) := (0.0, 0.0, 0.0),
                       rotation: (real, real, real, real) := (0.0, 0.0, 0.0, 1.0),
                       scale: (real, real, real) := (1.0, 1.0, 1.0))

  datatype Scene = Scene(nodes: seq<int>)

  datatype Gltf2 = Gltf2(asset: Asset, scene: int, scenes: seq<Scene>, nodes: seq<Node>,
                         meshes: seq<Mesh>, buffers: seq<Buffer>, bufferViews: seq<BufferView>,
                         accessors: seq<Accessor>)

  // Python values of the field types

  function IntOrNone(o: Option<int>): PyValue
  {
    if o.Some? then PyInt(o.value) else PyNone
  }

  function StrOrNone(o: Option<string>): PyValue
  {
    if o.Some? then PyStr(o.value) else PyNone
  }

  function IntList(xs: seq<int>): PyValue
  {
    PyList(seq(|xs|, i requires 0 <= i < |xs| => PyInt(xs[i])))
  }

  function NumberList(xs: seq<Number>): PyValue
  {
    PyList(seq(|xs|, i requires 0 <= i < |xs| => NumberValue(xs[i])))
  }

  function Vec3(t: (real, real, real)): PyValue
  {
    PyList([PyFloat(t.0), PyFloat(t.1), PyFloat(t.2)])
  }

  function Vec4(t: (real, real, real, real)): PyValue
  {
    PyList([PyFloat(t.0), PyFloat(t.1), PyFloat(t.2), PyFloat(t.3)])
  }

  // Each record as the object `json.dumps` sees, by its field list

  function AssetValue(a: Asset): PyValue
  {
    PyRecord(map["version" := PyStr(a.version)])
  }

  function AttributesValue(a: Attributes): PyValue
  {
    PyRecord(map["POSITION" := PyInt(a.POSITION), "NORMAL" := IntOrNone(a.NORMAL)])
  }

  function BufferValue(b: Buffer): PyValue
  {
    PyRecord(map["byteLength" := PyInt(b.byteLength), "uri" := PyStr(b.uri)])
  }

  function BufferViewValue(v: BufferView): PyValue
  {
    PyRecord(map["buffer" := PyInt(v.buffer), "byteOffset" := PyInt(v.byteOffset),
                 "byteLength" := PyInt(v.byteLength), "target" := PyInt(v.target),
                 "byteStride" := IntOrNone(v.byteStride)])
  }

  function AccessorValue(a: Accessor): PyValue
  {
    PyRecord(map["bufferView" := PyInt(a.bufferView), "byteOffset" := PyInt(a.byteOffset),
                 "type" := PyEnum(AccessorTypeMember(a.elementType)),
                 "componentType" := PyEnum(ComponentTypeMember(a.componentType)),
                 "count" := PyInt(a.count), "min" := NumberList(a.min), "max" := NumberList(a.max)])
  }

  function PrimitiveValue(p: Primitive): PyValue
  {
    PyRecord(map["attributes" := AttributesValue(p.attributes), "indices" := IntOrNone(p.indices),
                 "mode" := PyEnum(ModeMember(p.mode))])
  }

  function MeshValue(m: Mesh): PyValue
  {
    PyRecord(map["primitives" := PyList(seq(|m.primitives|, i requires 0 <= i < |m.primitives| => PrimitiveValue(m.primitives[i]))),
                 "name" := StrOrNone(m.name)])
  }

  function NodeValue(n: Node): PyValue
  {
    PyRecord(map["mesh" := PyInt(n.mesh),
                 "children" := if n.children.Some? then IntList(n.children.value) else PyNone,
                 "translation" := Vec3(n.translation), "rotation" := Vec4(n.rotation),
                 "scale" := Vec3(n.scale)])
  }

  function SceneValue(s: Scene): PyValue
  {
    PyRecord(map["nodes" := IntList(s.nodes)])
  }

  function ListOf<T>(xs: seq<T>, f: T -> PyValue): PyValue
  {
    PyList(seq(|xs|, i requires 0 <= i < |xs| => f(xs[i])))
  }

  /** `self.__dict__` of a document: a plain dict, which `to_json` passes to `json.dumps` unpruned. */
  function Gltf2Dict(g: Gltf2): map<string, PyValue>
  {
    map["asset" := AssetValue(g.asset), "scene" := PyInt(g.scene),
        "scenes" := ListOf(g.scenes, SceneValue), "nodes" := ListOf(g.nodes, NodeValue),
        "meshes" := ListOf(g.meshes, MeshValue), "buffers" := ListOf(g.buffers, BufferValue),
        "bufferViews" := ListOf(g.bufferViews, BufferViewValue),
        "accessors" := ListOf(g.accessors, AccessorValue)]
  }

  /** `Gltf2.to_json`, as a JSON tree. */
  function ToJson(g: Gltf2): Json
  {
    Dumps(PyDict(Gltf2Dict(g)))
  }

  // What the JSON of each record holds

  lemma {:induction false} ListNoneOnlyInFields<T>(xs: seq<T>, f: T -> PyValue)
    requires forall x :: x in xs ==> NoneOnlyInFields(f(x))
    ensures NoneOnlyInFields(ListOf(xs, f))
  {
    var items := ListOf(xs, f).items;
    forall i | 0 <= i < |items| ensures NoneOnlyInFields(items[i]) {
      assert items[i] == f(xs[i]);
      assert xs[i] in xs;
    }
  }

  lemma {:induction false} NumberListNoneOnlyInFields(xs: seq<Number>)
    ensures NoneOnlyInFields(NumberList(xs))
  {
    var items := NumberList(xs).items;
    forall i | 0 <= i < |items| ensures NoneOnlyInFields(items[i]) {
      assert items[i] == NumberValue(xs[i]);
    }
  }

  lemma {:induction false} IntListNoneOnlyInFields(xs: seq<int>)
    ensures NoneOnlyInFields(IntList(xs))
  {
    var items := IntList(xs).items;
    forall i | 0 <= i < |items| ensures NoneOnlyInFields(items[i]) {
      assert items[i] == PyInt(xs[i]);
    }
  }

  lemma MeshNoneOnlyInFields(m: Mesh)
    ensures NoneOnlyInFields(MeshValue(m))
  {
    var prims := MeshValue(m).fields["primitives"];
    forall i | 0 <= i < |prims.items| ensures NoneOnlyInFields(prims.items[i]) {
      assert prims.items[i] == PrimitiveValue(m.primitives[i]);
    }
  }

  lemma ScenesNoneOnlyInFields(scenes: seq<Scene>)
    ensures NoneOnlyInFields(ListOf(scenes, SceneValue))
  {
    forall s | s in scenes ensures NoneOnlyInFields(SceneValue(s)) { IntListNoneOnlyInFields(s.nodes); }
    ListNoneOnlyInFields(scenes, SceneValue);
  }

  lemma NodesNoneOnlyInFields(nodes: seq<Node>)
    ensures NoneOnlyInFields(ListOf(nodes, NodeValue))
  {
    forall n | n in nodes ensures NoneOnlyInFields(NodeValue(n)) {
      if n.children.Some? { IntListNoneOnlyInFields(n.children.value); }
    }
    ListNoneOnlyInFields(nodes, NodeValue);
  }

  lemma MeshesNoneOnlyInFields(meshes: seq<Mesh>)
    ensures NoneOnlyInFields(ListOf(meshes, MeshValue))
  {
    forall m | m in meshes ensures NoneOnlyInFields(MeshValue(m)) { MeshNoneOnlyInFields(m); }
    ListNoneOnlyInFields(meshes, MeshValue);
  }

  lemma AccessorsNoneOnlyInFields(accessors: seq<Accessor>)
    ensures NoneOnlyInFields(ListOf(accessors, AccessorValue))
  {
    forall a | a in accessors ensures NoneOnlyInFields(AccessorValue(a)) {
      NumberListNoneOnlyInFields(a.min);
      NumberListNoneOnlyInFields(a.max);
    }
    ListNoneOnlyInFields(accessors, AccessorValue);
  }

  /** A document's own dict holds no `None` at all, and below it `None` is only ever a field. */
  lemma Gltf2DictNoneOnlyInFields(g: Gltf2)
    ensures NoneOnlyInFields(PyDict(Gltf2Dict(g)))
  {
    ScenesNoneOnlyInFields(g.scenes);
    NodesNoneOnlyInFields(g.nodes);
    MeshesNoneOnlyInFields(g.meshes);
    ListNoneOnlyInFields(g.buffers, BufferValue);
    ListNoneOnlyInFields(g.bufferViews, BufferViewValue);
    AccessorsNoneOnlyInFields(g.accessors);
  }

  /**
   * No `null` anywhere in the JSON of any document: every absent optional
   * field is left out at every depth.
   */
  lemma ToJsonNullFree(g: Gltf2)
    ensures NullFree(ToJson(g))
  {
    Gltf2DictNoneOnlyInFields(g);
    DumpsNullFree(PyDict(Gltf2Dict(g)));
  }

  // Which fields of each record are `None`, and which are left

  lemma NodeFields(n: Node)
    ensures var f, absent := NodeValue(n).fields, if n.children.Some? then {} else {"children"};
            && (forall k :: k in f ==> (f[k] == PyNone <==> k in absent))
            && f.Keys - absent == {"mesh", "translation", "rotation", "scale"} + (if n.children.Some? then {"children"} else {})
  {
  }

  lemma PrimitiveFields(p: Primitive)
    ensures var f, absent := PrimitiveValue(p).fields, if p.indices.Some? then {} else {"indices"};
            && (forall k :: k in f ==> (f[k] == PyNone <==> k in absent))
            && f.Keys - absent == {"attributes", "mode"} + (if p.indices.Some? then {"indices"} else {})
  {
  }

  lemma AttributesFields(a: Attributes)
    ensures var f, absent := AttributesValue(a).fields, if a.NORMAL.Some? then {} else {"NORMAL"};
            && (forall k :: k in f ==> (f[k] == PyNone <==> k in absent))
            && f.Keys - absent == {"POSITION"} + (if a.NORMAL.Some? then {"NORMAL"} else {})
  {
  }

  lemma BufferViewFields(v: BufferView)
    ensures var f, absent := BufferViewValue(v).fields, if v.byteStride.Some? then {} else {"byteStride"};
            && (forall k :: k in f ==> (f[k] == PyNone <==> k in absent))
            && f.Keys - absent == {"buffer", "byteOffset", "byteLength", "target"} + (if v.byteStride.Some? then {"byteStride"} else {})
  {
  }

  lemma MeshFields(m: Mesh)
    ensures var f, absent := MeshValue(m).fields, if m.name.Some? then {} else {"name"};
            && (forall k :: k in f ==> (f[k] == PyNone <==> k in absent))
            && f.Keys - absent == {"primitives"} + (if m.name.Some? then {"name"} else {})
  {
  }

  lemma AccessorFields(a: Accessor)
    ensures var f := AccessorValue(a).fields;
            && (forall k :: k in f ==> f[k] != PyNone)
            && f.Keys == {"bufferView", "byteOffset", "type", "componentType", "count", "min", "max"}
  {
  }

  // What the JSON of each record holds

  /** A node's JSON: `children` only when set; the transform always. */
  lemma NodeJson(n: Node)
    ensures Dumps(NodeValue(n)).JObject?
    ensures Dumps(NodeValue(n)).members.Keys ==
            {"mesh", "translation", "rotation", "scale"} + (if n.children.Some? then {"children"} else {})
  {
    NodeFields(n);
    ObjectKeysAbsent(NodeValue(n).fields, if n.children.Some? then {} else {"children"});
  }

  /** A node's mesh is written as its index. */
  lemma NodeJsonMesh(n: Node)
    ensures Dumps(NodeValue(n)).JObject? && "mesh" in Dumps(NodeValue(n)).members
    ensures Dumps(NodeValue(n)).members["mesh"] == JInt(n.mesh)
  {
    var f := NodeValue(n).fields;
    assert f["mesh"] == PyInt(n.mesh);
    ObjectKeys(f);
  }

  /** A primitive's JSON: `indices` whenever it is set, zero included. */
  lemma PrimitiveJson(p: Primitive)
    ensures Dumps(PrimitiveValue(p)).JObject?
    ensures Dumps(PrimitiveValue(p)).members.Keys ==
            {"attributes", "mode"} + (if p.indices.Some? then {"indices"} else {})
  {
    PrimitiveFields(p);
    ObjectKeysAbsent(PrimitiveValue(p).fields, if p.indices.Some? then {} else {"indices"});
  }

  /** A primitive's indices are written as the accessor index, and its mode as its code. */
  lemma PrimitiveJsonValues(p: Primitive)
    ensures Dumps(PrimitiveValue(p)).JObject? && "mode" in Dumps(PrimitiveValue(p)).members
    ensures p.indices.Some? ==> "indices" in Dumps(PrimitiveValue(p)).members
                                && Dumps(PrimitiveValue(p)).members["indices"] == JInt(p.indices.value)
    ensures Dumps(PrimitiveValue(p)).members["mode"] == JInt(ModeValue(p.mode))
  {
    var f := PrimitiveValue(p).fields;
    assert f["mode"] == PyEnum(ModeMember(p.mode)) && f["indices"] == IntOrNone(p.indices);
    assert Dumps(PyEnum(ModeMember(p.mode))) == JInt(ModeValue(p.mode));
    ObjectKeys(f);
  }

  lemma AttributesJson(a: Attributes)
    ensures Dumps(AttributesValue(a)).JObject?
    ensures Dumps(AttributesValue(a)).members.Keys == {"POSITION"} + (if a.NORMAL.Some? then {"NORMAL"} else {})
  {
    AttributesFields(a);
    ObjectKeysAbsent(AttributesValue(a).fields, if a.NORMAL.Some? then {} else {"NORMAL"});
  }

  lemma AttributesJsonPosition(a: Attributes)
    ensures Dumps(AttributesValue(a)).JObject? && "POSITION" in Dumps(AttributesValue(a)).members
    ensures Dumps(AttributesValue(a)).members["POSITION"] == JInt(a.POSITION)
  {
    var f := AttributesValue(a).fields;
    assert f["POSITION"] == PyInt(a.POSITION);
    ObjectKeys(f);
  }

  lemma BufferViewJson(v: BufferView)
    ensures Dumps(BufferViewValue(v)).JObject?
    ensures Dumps(BufferViewValue(v)).members.Keys ==
            {"buffer", "byteOffset", "byteLength", "target"} + (if v.byteStride.Some? then {"byteStride"} else {})
  {
    BufferViewFields(v);
    ObjectKeysAbsent(BufferViewValue(v).fields, if v.byteStride.Some? then {} else {"byteStride"});
  }

  lemma MeshJson(m: Mesh)
    ensures Dumps(MeshValue(m)).JObject?
    ensures Dumps(MeshValue(m)).members.Keys == {"primitives"} + (if m.name.Some? then {"name"} else {})
  {
    MeshFields(m);
    ObjectKeysAbsent(MeshValue(m).fields, if m.name.Some? then {} else {"name"});
  }

  lemma AccessorJson(a: Accessor)
    ensures Dumps(AccessorValue(a)).JObject?
    ensures Dumps(AccessorValue(a)).members.Keys ==
            {"bufferView", "byteOffset", "type", "componentType", "count", "min", "max"}
  {
    AccessorFields(a);
    ObjectKeysAbsent(AccessorValue(a).fields, {});
    assert AccessorValue(a).fields.Keys - {} == AccessorValue(a).fields.Keys;
  }

  /** An accessor's enums are written as their raw values, never wrapped. */
  lemma AccessorJsonEnums(a: Accessor)
    ensures Dumps(AccessorValue(a)).JObject?
    ensures "type" in Dumps(AccessorValue(a)).members
    ensures Dumps(AccessorValue(a)).members["type"] == JString(AccessorTypeValue(a.elementType))
    ensures "componentType" in Dumps(AccessorValue(a)).members
    ensures Dumps(AccessorValue(a)).members["componentType"] == JInt(ComponentTypeValue(a.componentType))
  {
    var f := AccessorValue(a).fields;
    var t := PyEnum(AccessorTypeMember(a.elementType));
    var c := PyEnum(ComponentTypeMember(a.componentType));
    assert f["type"] == t && f["componentType"] == c;
    assert Dumps(t) == JString(AccessorTypeValue(a.elementType));
    assert Dumps(c) == JInt(ComponentTypeValue(a.componentType));
    ObjectKeys(f);
  }

  /** The top-level keys of a document's JSON. */
  lemma ToJsonKeys(g: Gltf2)
    ensures ToJson(g).JObject?
    ensures ToJson(g).members.Keys ==
            {"asset", "scene", "scenes", "nodes", "meshes", "buffers", "bufferViews", "accessors"}
    ensures ToJson(g).members["scene"] == JInt(g.scene)
  {
    var d := Gltf2Dict(g);
    assert d["scene"] == PyInt(g.scene);
    assert ToJson(g).members["scene"] == Dumps(d["scene"]);
  }

  // The cross-index invariant

  predicate InBounds<T>(i: int, xs: seq<T>)
  {
    0 <= i < |xs|
  }

  /** The byte range of a view lies inside its (existing) buffer. */
  predicate ViewFits(g: Gltf2, v: BufferView)
  {
    InBounds(v.buffer, g.buffers) && 0 <= v.byteOffset && 0 <= v.byteLength
    && v.byteOffset + v.byteLength <= g.buffers[v.buffer].byteLength
  }

  /**
   * An accessor's elements lie inside its (existing) view, and the accessor
   * starts on a multiple of its component size (glTF 2.0, section 3.6.2.2 and
   * the data alignment rules of section 3.6.2.4).
   */
  predicate AccessorFits(g: Gltf2, a: Accessor)
  {
    var size := ElementSize(a.elementType, a.componentType);
    InBounds(a.bufferView, g.bufferViews) && 0 <= a.byteOffset && 0 <= a.count
    && (var v := g.bufferViews[a.bufferView];
        var stride := if v.byteStride.Some? then v.byteStride.value else size;
        (a.count == 0 || a.byteOffset + stride * (a.count - 1) + size <= v.byteLength)
        && (v.byteOffset + a.byteOffset) % ComponentSize(a.componentType) == 0)
  }

  predicate PrimitiveValid(g: Gltf2, p: Primitive)
  {
    InBounds(p.attributes.POSITION, g.accessors)
    && (p.attributes.NORMAL.Some? ==> InBounds(p.attributes.NORMAL.value, g.accessors))
    && (p.indices.Some? ==> InBounds(p.indices.value, g.accessors))
  }

  predicate NodeValid(g: Gltf2, n: Node)
  {
    InBounds(n.mesh, g.meshes)
    && (n.children.Some? ==> forall c :: c in n.children.value ==> InBounds(c, g.nodes))
  }

  /** Every index in the document resolves, and every byte range fits. */
  predicate Valid(g: Gltf2)
  {
    && InBounds(g.scene, g.scenes)
    && (forall s, i :: s in g.scenes && i in s.nodes ==> InBounds(i, g.nodes))
    && (forall n :: n in g.nodes ==> NodeValid(g, n))
    && (forall m, p :: m in g.meshes && p in m.primitives ==> PrimitiveValid(g, p))
    && (forall v :: v in g.bufferViews ==> ViewFits(g, v))
    && (forall a :: a in g.accessors ==> AccessorFits(g, a))
  }
}
