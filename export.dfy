/**
 * `export_to_gltf`: the fixed one-triangle document. The index and vertex
 * data are packed with `'<4H9f'`, base64-encoded into a data URI, and the
 * document built around that URI is written out as JSON.
 */
module Export {
  import opened Wrappers
  import opened GltfEnums
  import opened PyJson
  import opened GltfRecords
  import opened Bytes
  import opened Struct
  import opened Base64

  const DATA_URI_HEADER: string := "data:application/octet-stream;base64,"

  /** Three triangle indices and one padding index, so that the vertices start at byte 8. */
  const TriangleIndices: seq<int> := [0, 1, 2, 0]

  const TriangleVertexes: seq<(real, real, real)> := [(0.0, 0.0, 0.0), (1.0, 0.0, 0.0), (0.0, 1.0, 0.0)]

  /** `chain.from_iterable` over the vertex tuples. */
  function Flatten(vs: seq<(real, real, real)>): (r: seq<real>)
    ensures |r| == 3 * |vs|
    ensures forall i :: 0 <= i < |vs| ==> r[3 * i] == vs[i].0 && r[3 * i + 1] == vs[i].1 && r[3 * i + 2] == vs[i].2
  {
    if vs == [] then [] else [vs[0].0, vs[0].1, vs[0].2] + Flatten(vs[1..])
  }

  /** The arguments of the `struct.pack` call: `*indices, *chain.from_iterable(vertexes)`. */
  function PackArguments(): seq<Number>
  {
    Ints(TriangleIndices) + Floats(Flatten(TriangleVertexes))
  }

  function DataUri(data: seq<byte>): string
  {
    DATA_URI_HEADER + Encode(data)
  }

  /** The document `export_to_gltf` builds around the buffer's URI. */
  function TriangleGltf(uri: string): Gltf2
  {
    Gltf2(
      asset := Asset(version := "2.0"),
      scene := 0,
      scenes := [Scene(nodes := [0])],
      nodes := [Node(mesh := 0)],
      meshes := [Mesh(primitives := [Primitive(Attributes(POSITION := 1), indices := Some(0))])],
      buffers := [Buffer(byteLength := 44, uri := uri)],
      bufferViews := [
        BufferView(buffer := 0, byteOffset := 0, byteLength := 6, target := 34963),
        BufferView(buffer := 0, byteOffset := 8, byteLength := 36, target := 34962)
      ],
      accessors := [
        Accessor(bufferView := 0, byteOffset := 0, componentType := UNSIGNED_SHORT, count := 3,
                 elementType := SCALAR, max := [Int(2)], min := [Int(0)]),
        Accessor(bufferView := 1, byteOffset := 0, componentType := FLOAT, count := 3,
                 elementType := VEC3, max := [Float(1.0), Float(1.0), Float(0.0)],
                 min := [Float(0.0), Float(0.0), Float(0.0)])
      ])
  }

  /**
   * `export_to_gltf(export_list)`: the argument is not used. An error of
   * `struct.pack` would propagate; the lemmas below show there is none.
   */
  function ExportToGltf(exportList: seq<PyValue>): Result<Json, PackError>
  {
    var packed := Pack(Format4H9f(), PackArguments());
    if packed.Err? then Err(packed.error) else Ok(ToJson(TriangleGltf(DataUri(packed.value))))
  }

  // The packed blob

  /** `struct.pack` succeeds on the triangle's data, with `struct.calcsize('<4H9f')` = 44 bytes. */
  lemma TrianglePack()
    ensures Pack(Format4H9f(), PackArguments()).Ok?
    ensures |Pack(Format4H9f(), PackArguments()).value| == 44 == CalcSize(Format4H9f())
  {
    var flat := Flatten(TriangleVertexes);
    assert flat == [0.0, 0.0, 0.0, 1.0, 0.0, 0.0, 0.0, 1.0, 0.0];
    PackShortsThenFloats(TriangleIndices, flat);
    CalcSize4H9f();
  }

  /**
   * Any blob `struct.pack` returns here is 44 bytes: the little-endian
   * uint16 encoding of the four indices, then nine float32 values that read
   * back as the vertex coordinates.
   */
  lemma TriangleBlobLayout(blob: seq<byte>)
    requires Pack(Format4H9f(), PackArguments()) == Ok(blob)
    ensures |blob| == 44
    ensures blob[..8] == UInt16sLE(TriangleIndices)
    ensures Float32sFromLE(blob[8..]) == Some(Flatten(TriangleVertexes))
  {
    TriangleData();
    PackedShortsThenFloats(TriangleIndices, Flatten(TriangleVertexes), Format4H9f(), PackArguments(), blob);
  }

  /** The format is four `H` then one `f` per coordinate, and every value fits its code. */
  lemma TriangleData()
    ensures |TriangleIndices| == 4 && |Flatten(TriangleVertexes)| == 9
    ensures Format4H9f() == Repeat(H, |TriangleIndices|) + Repeat(F, |Flatten(TriangleVertexes)|)
    ensures PackArguments() == Ints(TriangleIndices) + Floats(Flatten(TriangleVertexes))
    ensures forall x :: x in TriangleIndices ==> IsUInt16(x)
    ensures forall y :: y in Flatten(TriangleVertexes) ==> Float32LE(y).Some?
  {
    TriangleCoordinates();
  }

  lemma TriangleCoordinates()
    ensures Flatten(TriangleVertexes) == [0.0, 0.0, 0.0, 1.0, 0.0, 0.0, 0.0, 1.0, 0.0]
  {
    assert Flatten(TriangleVertexes)[..3] == [0.0, 0.0, 0.0];
  }

  /** The packed blob. */
  function TriangleBlob(): (blob: seq<byte>)
    ensures Pack(Format4H9f(), PackArguments()) == Ok(blob)
  {
    TrianglePack();
    Pack(Format4H9f(), PackArguments()).value
  }

  lemma TriangleIndexEncoding()
    ensures UInt16sLE(TriangleIndices) == [0, 0, 1, 0, 2, 0, 0, 0]
  {
  }

  /**
   * The first 8 bytes are the little-endian uint16 encoding of the indices
   * [0, 1, 2, 0]; the first 6 of them read back as the triangle [0, 1, 2].
   */
  lemma TriangleIndexBytes(blob: seq<byte>)
    requires Pack(Format4H9f(), PackArguments()) == Ok(blob)
    ensures |blob| == 44 && blob[..8] == [0, 0, 1, 0, 2, 0, 0, 0]
    ensures UInt16sFromLE(blob[..8]) == Some(TriangleIndices)
    ensures UInt16sFromLE(blob[..6]) == Some([0, 1, 2])
  {
    TriangleBlobLayout(blob);
    TriangleIndexEncoding();
    UInt16sRoundTrip(TriangleIndices);
    assert TriangleIndices == [0, 1, 2] + [0];
    UInt16sAppend([0, 1, 2], [0]);
    assert blob[..6] == blob[..8][..6];
    UInt16sRoundTrip([0, 1, 2]);
  }

  /** The export succeeds, with the document around the data URI of the packed blob. */
  lemma ExportSucceeds(exportList: seq<PyValue>)
    ensures ExportToGltf(exportList) == Ok(ToJson(TriangleGltf(DataUri(TriangleBlob()))))
  {
    TrianglePack();
  }

  /** The argument changes nothing: every call returns the same document. */
  lemma ExportDeterministic(a: seq<PyValue>, b: seq<PyValue>)
    ensures ExportToGltf(a) == ExportToGltf(b)
  {
  }

  /** A data URI is the header followed by base64 text that decodes to the data. */
  lemma DataUriDecodes(data: seq<byte>)
    ensures var uri := DataUri(data);
            |uri| == |DATA_URI_HEADER| + 4 * ((|data| + 2) / 3)
            && uri[..|DATA_URI_HEADER|] == DATA_URI_HEADER
            && Decode(uri[|DATA_URI_HEADER|..]) == Some(data)
  {
    EncodeLength(data);
    DecodeEncode(data);
    assert DataUri(data)[|DATA_URI_HEADER|..] == Encode(data);
  }

  /**
   * The base64 text of the packed blob is 60 characters for its 44 bytes,
   * and decoding it gives the blob back (`DataUriDecodes` puts the header in front).
   */
  lemma TriangleUri(blob: seq<byte>)
    requires Pack(Format4H9f(), PackArguments()) == Ok(blob)
    ensures |Encode(blob)| == 60
    ensures Decode(Encode(blob)) == Some(blob)
  {
    TriangleBlobLayout(blob);
    Base64Of44Bytes(blob);
    DecodeEncode(blob);
  }

  lemma Base64Of44Bytes(data: seq<byte>)
    requires |data| == 44
    ensures |Encode(data)| == 60
  {
    EncodeLength(data);
  }

  // The document

  /** Every cross-reference of the exported document is in bounds and every byte range fits. */
  lemma TriangleValid(uri: string)
    ensures Valid(TriangleGltf(uri))
  {
    var g := TriangleGltf(uri);
    assert forall a :: a in g.accessors ==> a == g.accessors[0] || a == g.accessors[1];
    assert AccessorFits(g, g.accessors[0]);
    assert AccessorFits(g, g.accessors[1]);
  }

  /**
   * The buffer's declared length is the blob's; the two views lie inside it
   * without overlapping, each accessor fills its view exactly, and each view
   * starts on a multiple of its accessor's component size.
   */
  lemma TriangleLayout(uri: string, blob: seq<byte>)
    requires Pack(Format4H9f(), PackArguments()) == Ok(blob)
    ensures var g := TriangleGltf(uri);
            var v0, v1 := g.bufferViews[0], g.bufferViews[1];
            var a0, a1 := g.accessors[0], g.accessors[1];
            && g.buffers[0].byteLength == |blob|
            && 0 <= v0.byteOffset && v0.byteOffset + v0.byteLength <= v1.byteOffset
            && v1.byteOffset + v1.byteLength == |blob|
            && a0.count * ElementSize(a0.elementType, a0.componentType) == v0.byteLength
            && a1.count * ElementSize(a1.elementType, a1.componentType) == v1.byteLength
            && v0.byteOffset % ComponentSize(a0.componentType) == 0
            && v1.byteOffset % ComponentSize(a1.componentType) == 0
  {
    TriangleBlobLayout(blob);
    TriangleViews(uri);
  }

  lemma TriangleViews(uri: string)
    ensures var g := TriangleGltf(uri);
            var v0, v1 := g.bufferViews[0], g.bufferViews[1];
            var a0, a1 := g.accessors[0], g.accessors[1];
            && g.buffers[0].byteLength == 44
            && 0 <= v0.byteOffset && v0.byteOffset + v0.byteLength <= v1.byteOffset
            && v1.byteOffset + v1.byteLength == 44
            && a0.count * ElementSize(a0.elementType, a0.componentType) == v0.byteLength
            && a1.count * ElementSize(a1.elementType, a1.componentType) == v1.byteLength
            && v0.byteOffset % ComponentSize(a0.componentType) == 0
            && v1.byteOffset % ComponentSize(a1.componentType) == 0
  {
  }

  function MinInt(xs: seq<int>): (m: int)
    requires |xs| > 0
    ensures m in xs && forall x :: x in xs ==> m <= x
  {
    assert forall x :: x in xs ==> x == xs[0] || x in xs[1..];
    if |xs| == 1 then xs[0] else var t := MinInt(xs[1..]); if xs[0] <= t then xs[0] else t
  }

  function MaxInt(xs: seq<int>): (m: int)
    requires |xs| > 0
    ensures m in xs && forall x :: x in xs ==> x <= m
  {
    assert forall x :: x in xs ==> x == xs[0] || x in xs[1..];
    if |xs| == 1 then xs[0] else var t := MaxInt(xs[1..]); if xs[0] >= t then xs[0] else t
  }

  function MinReal(xs: seq<real>): (m: real)
    requires |xs| > 0
    ensures m in xs && forall x :: x in xs ==> m <= x
  {
    assert forall x :: x in xs ==> x == xs[0] || x in xs[1..];
    if |xs| == 1 then xs[0] else var t := MinReal(xs[1..]); if xs[0] <= t then xs[0] else t
  }

  function MaxReal(xs: seq<real>): (m: real)
    requires |xs| > 0
    ensures m in xs && forall x :: x in xs ==> x <= m
  {
    assert forall x :: x in xs ==> x == xs[0] || x in xs[1..];
    if |xs| == 1 then xs[0] else var t := MaxReal(xs[1..]); if xs[0] >= t then xs[0] else t
  }

  /** Component `j` of each vertex in a flat coordinate list. */
  function Component(coords: seq<real>, j: nat): (r: seq<real>)
    requires j < 3
    ensures |r| == |coords| / 3
  {
    seq(|coords| / 3, i requires 0 <= i < |coords| / 3 => coords[3 * i + j])
  }

  /**
   * The index accessor's count and bounds are those of the three indices
   * the blob's first six bytes hold.
   */
  lemma TriangleIndexBounds(uri: string, blob: seq<byte>)
    requires Pack(Format4H9f(), PackArguments()) == Ok(blob)
    ensures |blob| == 44 && UInt16sFromLE(blob[..6]).Some?
    ensures var idx := UInt16sFromLE(blob[..6]).value;
            var a := TriangleGltf(uri).accessors[0];
            |idx| > 0 && a.count == |idx|
            && a.min == [Int(MinInt(idx))] && a.max == [Int(MaxInt(idx))]
  {
    TriangleIndexBytes(blob);
    TriangleIndexAccessor(uri);
  }

  lemma TriangleIndexAccessor(uri: string)
    ensures var a := TriangleGltf(uri).accessors[0];
            a.count == 3 && a.min == [Int(MinInt([0, 1, 2]))] && a.max == [Int(MaxInt([0, 1, 2]))]
  {
    assert MinInt([0, 1, 2]) == 0 && MaxInt([0, 1, 2]) == 2;
  }

  /**
   * The position accessor's bounds are the componentwise minimum and
   * maximum of the vertex positions (which `TriangleBlobLayout` shows the
   * blob's last 36 bytes hold).
   */
  lemma TrianglePositionBounds(uri: string)
    ensures var c := Flatten(TriangleVertexes);
            var a := TriangleGltf(uri).accessors[1];
            |c| == 9 && a.count == |c| / 3
            && a.min == [Float(MinReal(Component(c, 0))), Float(MinReal(Component(c, 1))), Float(MinReal(Component(c, 2)))]
            && a.max == [Float(MaxReal(Component(c, 0))), Float(MaxReal(Component(c, 1))), Float(MaxReal(Component(c, 2)))]
  {
    var c := Flatten(TriangleVertexes);
    assert c == [0.0, 0.0, 0.0, 1.0, 0.0, 0.0, 0.0, 1.0, 0.0];
    var xs, ys, zs := Component(c, 0), Component(c, 1), Component(c, 2);
    assert xs == [0.0, 1.0, 0.0] by { assert xs[0] == c[0] && xs[1] == c[3] && xs[2] == c[6]; }
    assert ys == [0.0, 0.0, 1.0] by { assert ys[0] == c[1] && ys[1] == c[4] && ys[2] == c[7]; }
    assert zs == [0.0, 0.0, 0.0] by { assert zs[0] == c[2] && zs[1] == c[5] && zs[2] == c[8]; }
    ExtremesOf3(xs, 0.0, 1.0);
    ExtremesOf3(ys, 0.0, 1.0);
    ExtremesOf3(zs, 0.0, 0.0);
  }

  lemma ExtremesOf3(xs: seq<real>, lo: real, hi: real)
    requires |xs| == 3 && lo in xs && hi in xs
    requires forall x :: x in xs ==> lo <= x <= hi
    ensures MinReal(xs) == lo && MaxReal(xs) == hi
  {
  }

  // The written JSON

  /** No `null` anywhere in the export. */
  lemma ExportNullFree(exportList: seq<PyValue>)
    ensures ExportToGltf(exportList).Ok? && NullFree(ExportToGltf(exportList).value)
  {
    ExportSucceeds(exportList);
    ToJsonNullFree(TriangleGltf(DataUri(TriangleBlob())));
  }

  /**
   * The exported node has no `children` key but all of its transform; the
   * primitive keeps `indices` 0 and writes mode TRIANGLES as 4.
   */
  lemma ExportedNodeAndPrimitive(uri: string)
    ensures var g := TriangleGltf(uri);
            var n := Dumps(NodeValue(g.nodes[0]));
            var p := Dumps(PrimitiveValue(g.meshes[0].primitives[0]));
            n.JObject? && n.members.Keys == {"mesh", "translation", "rotation", "scale"}
            && p.JObject? && "indices" in p.members && p.members["indices"] == JInt(0)
            && "mode" in p.members && p.members["mode"] == JInt(4)
  {
    var g := TriangleGltf(uri);
    NodeJson(g.nodes[0]);
    PrimitiveJsonValues(g.meshes[0].primitives[0]);
    assert ModeValue(TRIANGLES) == 4;
  }
}
