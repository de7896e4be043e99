# freecad-to-gltf, modelled in Dafny

`freecad_to_gltf/export.py` builds a fixed glTF 2.0 document describing a single
triangle and writes it out as JSON. This project models that file and proves
properties of the model. The model has four parts:

- **The glTF record graph.** The dataclasses `Asset`, `Attributes`, `Buffer`,
  `BufferView`, `Accessor`, `Primitive`, `Mesh`, `Node`, `Scene` and `Gltf2` are
  datatypes, with the source's default field values. They refer to each other by
  integer index. `GltfRecords.Valid` says that every index is in bounds, every byte
  range fits its buffer, and every accessor is aligned to its component size.
- **The three enumerations** `AccessorType`, `ComponentType` and `Mode`, and the raw
  values `serialize` writes for them.
- **`delete_keys_with_none_values`, `serialize` and `Gltf2.to_json`.** A Python value
  is the datatype `PyValue`. A dataclass instance becomes a `PyRecord` of its
  explicit field list. `json.dumps(..., default=serialize)` becomes `PyJson.Dumps`,
  a function from values to a JSON tree (`Json`). The pruning function is a method
  whose loop deletes keys from a copy of the map (`PyJson.DeleteKeysWithNoneValues`),
  proved equal to the function `PyJson.Pruned`.
- **The blob and the data URI of `export_to_gltf`.** `struct.pack('<4H9f', ...)` is
  modelled for the `H` and `f` codes under little-endian order (`Struct.Pack`). It
  has the same errors as the source: a wrong item count, a float given to `H`, and
  an integer out of range. Base64 follows section 4 of RFC 4648 (`Base64.Encode`),
  with a strict decoder as its inverse (`Base64.Decode`). The data URI is
  `DATA_URI_HEADER` followed by the base64 text.

Modules, one per file:

| module | file |
|---|---|
| `Wrappers` | `wrappers.dfy` |
| `GltfEnums` | `enums.dfy` |
| `PyJson` | `pyjson.dfy` |
| `GltfRecords` | `records.dfy` |
| `Bytes` | `bytes.dfy` |
| `Struct` | `struct.dfy` |
| `Base64` | `base64.dfy` |
| `Export` | `export.dfy` |

Python dicts are `map<string, PyValue>`. Tuples and lists are both `PyList`, because
`json.dumps` writes both as arrays. The field the source calls `type` is
`elementType` in `Accessor`.

## Model

| member | source | states |
|---|---|---|
| GltfEnums.AccessorTypeRoundTrip | freecad_to_gltf/export.py:17-26 | The wire string of an accessor type reads back as that type. A string reads back as type `t` exactly when it is `t`'s own name. |
| GltfEnums.AccessorTypeValueInjective | freecad_to_gltf/export.py:17-26 | Two accessor types have the same wire string if and only if they are the same type. |
| GltfEnums.ComponentTypeRoundTrip | freecad_to_gltf/export.py:29-37 | A component type's code lies in 5120..5126 and reads back as that type. An integer reads back as type `c` exactly when it is `c`'s code. |
| GltfEnums.ComponentTypeValueInjective | freecad_to_gltf/export.py:29-37 | Two component types have the same code if and only if they are equal. |
| GltfEnums.ModeRoundTrip | freecad_to_gltf/export.py:40-50 | A mode's code lies in 0..6 and reads back as that mode. An integer reads back as mode `m` exactly when it is `m`'s code. |
| GltfEnums.ModeValueInjective | freecad_to_gltf/export.py:40-50 | Two modes have the same code if and only if they are equal. |
| PyJson.Pruned | freecad_to_gltf/export.py:183-191 | The pruned dict's keys are among the input's keys. Every kept value is not `None` and is unchanged. Every key whose value is not `None` is kept. |
| PyJson.DeleteKeysWithNoneValues | freecad_to_gltf/export.py:183-191 | The loop that copies the dict and deletes the `None` keys from the copy returns exactly `Pruned` of its input. Nested dicts are handed to a recursive call whose result is discarded. The input is a value and so cannot change. |
| PyJson.FalsyValuesSurvive | freecad_to_gltf/export.py:187 | The test is identity with `None`, not falsiness: a field that is 0, 0.0, "", [] or {} is kept, with its value. |
| PyJson.RawValueInjective | freecad_to_gltf/export.py:116-117 | The raw values `serialize` writes for enum members are distinct across all three enumerations, in both directions. |
| PyJson.Serialize | freecad_to_gltf/export.py:115-119 | `serialize` succeeds exactly on enum members and objects. An enum member gives its raw value. An object gives its field dict with the `None` entries deleted. |
| PyJson.DumpsNullFree | freecad_to_gltf/export.py:133-136 | If `None` occurs in a value only as an object's field, the JSON written for it has no `null` at any depth. |
| PyJson.ObjectKeys | freecad_to_gltf/export.py:115-119 | An object is written as a JSON object whose keys are its non-`None` fields, and each member is the JSON of that field. |
| PyJson.ObjectKeysAbsent | freecad_to_gltf/export.py:115-119 | When the set of `None` fields is known, the object's JSON keys are its fields minus that set. |
| PyJson.NestedDictNotPruned | freecad_to_gltf/export.py:189-190 | As written, a plain dict nested in an object keeps its `None` entry, and the output contains a `null`. |
| PyJson.PrunedDeepNoneFree | freecad_to_gltf/export.py:184 | The recursive pruning the docstring describes leaves no `None` in the dict or in any dict nested in it. |
| PyJson.PrunedDeepAgrees | freecad_to_gltf/export.py:189-190 | When no value is a plain dict, the recursive pruning and the as-written pruning give the same dict. |
| GltfRecords.ToJsonNullFree | freecad_to_gltf/export.py:133-136 | The JSON of every document, not only the exported one, has no `null` anywhere. Every unset optional field is left out at every depth. |
| GltfRecords.NodeJson | freecad_to_gltf/export.py:98-107 | A node's JSON keys are `mesh`, `translation`, `rotation` and `scale`, plus `children` exactly when it is set. |
| GltfRecords.NodeJsonMesh | freecad_to_gltf/export.py:103 | A node's `mesh` is written as its integer index. |
| GltfRecords.PrimitiveJson | freecad_to_gltf/export.py:85-89 | A primitive's JSON keys are `attributes` and `mode`, plus `indices` exactly when it is set (so index 0 is written). |
| GltfRecords.PrimitiveJsonValues | freecad_to_gltf/export.py:85-89 | A set `indices` is written as its integer, and `mode` as its code 0..6, never as a wrapped enum. |
| GltfRecords.AttributesJson | freecad_to_gltf/export.py:53-56 | The attributes' JSON keys are `POSITION`, plus `NORMAL` exactly when it is set. |
| GltfRecords.AttributesJsonPosition | freecad_to_gltf/export.py:55 | `POSITION` is written as its accessor index. |
| GltfRecords.BufferViewJson | freecad_to_gltf/export.py:65-71 | A buffer view's JSON keys are `buffer`, `byteOffset`, `byteLength` and `target`, plus `byteStride` exactly when it is set. |
| GltfRecords.MeshJson | freecad_to_gltf/export.py:92-95 | A mesh's JSON keys are `primitives`, plus `name` exactly when it is set. |
| GltfRecords.AccessorJson | freecad_to_gltf/export.py:74-82 | An accessor's JSON has all seven of its keys, `type` among them under the source's own name. |
| GltfRecords.AccessorJsonEnums | freecad_to_gltf/export.py:78-79 | An accessor's `type` is written as its name string and its `componentType` as its integer code. |
| GltfRecords.ToJsonKeys | freecad_to_gltf/export.py:122-136 | A document's JSON has exactly its eight top-level keys, and `scene` is written as its integer. |
| Bytes.UInt16sRoundTrip | freecad_to_gltf/export.py:146 | The little-endian uint16 bytes of values in 0..65535 read back as those values. |
| Bytes.UInt16sFromLESound | freecad_to_gltf/export.py:146 | Any bytes that read back as uint16 values are exactly those values' encoding. |
| Bytes.UInt16sAppend | freecad_to_gltf/export.py:146 | Encoding a concatenation of uint16 values gives the concatenation of the encodings. |
| Bytes.Float32RoundTrip | freecad_to_gltf/export.py:146 | Each modelled float32 encoding is 4 bytes and reads back as its value. A value and its bytes determine each other. |
| Struct.Pack | freecad_to_gltf/export.py:146 | `struct.pack` with a different number of items than codes raises the count error. |
| Struct.PackLength | freecad_to_gltf/export.py:146 | A packed blob is `struct.calcsize` of its format long. |
| Struct.PackItemsAppend | freecad_to_gltf/export.py:146 | Packing a concatenated format is packing each part and concatenating the bytes. |
| Struct.PackShorts | freecad_to_gltf/export.py:146 | A run of `H` codes packs if and only if every item is in 0..65535, and then gives the items' little-endian uint16 bytes. |
| Struct.PackFloatsOk | freecad_to_gltf/export.py:146 | A run of `f` codes packs if and only if every value has a modelled encoding. |
| Struct.PackFloatsReadBack | freecad_to_gltf/export.py:146 | The bytes a run of `f` codes packs read back as the same values. |
| Struct.CalcSize4H9f | freecad_to_gltf/export.py:146 | `struct.calcsize('<4H9f')` is 4·2 + 9·4 = 44. |
| Struct.PackShortsThenFloats | freecad_to_gltf/export.py:146 | Packing shorts then floats succeeds. The blob is 2 bytes per short plus 4 per float, starting with the shorts' uint16 bytes, and the rest reads back as the floats. |
| Base64.IndexOfChar | freecad_to_gltf/export.py:147 | Each character of the RFC 4648 alphabet reads back as its own index and is never the pad `=`. |
| Base64.CharOfIndex | freecad_to_gltf/export.py:147 | A character that reads back as an index is that index's alphabet character. |
| Base64.EncodeLength | freecad_to_gltf/export.py:147 | Base64 text has 4 characters for every started group of 3 bytes. |
| Base64.DecodeEncode | freecad_to_gltf/export.py:147 | Decoding the base64 text of any bytes gives those bytes back. |
| Base64.EncodeDecode | freecad_to_gltf/export.py:147 | Every string the strict decoder accepts is the base64 text of what it decodes to, so encoding and decoding are inverse in both directions. |
| Export.Flatten | freecad_to_gltf/export.py:143-146 | `chain.from_iterable` over the vertex tuples has three coordinates per vertex, in vertex order. |
| Export.TrianglePack | freecad_to_gltf/export.py:146 | `struct.pack` does not raise on the triangle's data, and the blob has `struct.calcsize('<4H9f')` = 44 bytes. |
| Export.TriangleBlobLayout | freecad_to_gltf/export.py:142-146 | The blob is 44 bytes. Its first 8 bytes are the uint16 encoding of the indices [0, 1, 2, 0], and bytes 8..43 read back as the nine vertex coordinates. |
| Export.TriangleIndexBytes | freecad_to_gltf/export.py:142-146 | The blob's first 8 bytes are [0,0,1,0,2,0,0,0] and read back as [0, 1, 2, 0]. The first 6 bytes read back as the triangle [0, 1, 2]. |
| Export.ExportSucceeds | freecad_to_gltf/export.py:139-180 | The export does not raise, and returns the JSON of the constant document built around the data URI of the packed blob. |
| Export.ExportDeterministic | freecad_to_gltf/export.py:139 | `export_list` is ignored: any two calls return the same result. |
| Export.DataUriDecodes | freecad_to_gltf/export.py:147-148 | A data URI is `DATA_URI_HEADER` followed by base64 text of length 4·⌈n/3⌉, and that text decodes to the data. |
| Export.TriangleUri | freecad_to_gltf/export.py:146-148 | The base64 text of the packed blob is 60 characters, and decoding it gives the blob back. |
| Export.TriangleValid | freecad_to_gltf/export.py:149-179 | Every index in the exported document is in bounds, every buffer view fits its buffer, and every accessor fits its view with aligned offsets. |
| Export.TriangleLayout | freecad_to_gltf/export.py:157-178 | The buffer's declared `byteLength` is the blob's length. The views [0,6) and [8,44) lie inside it without overlapping. Each accessor's count times element size fills its view. Each view offset is a multiple of its component size. |
| Export.TriangleIndexBounds | freecad_to_gltf/export.py:163-170 | The index accessor's count, `min` and `max` are the count, minimum and maximum of the three indices read back from the blob's first 6 bytes. |
| Export.TrianglePositionBounds | freecad_to_gltf/export.py:171-178 | The position accessor's count is the number of vertices. Its `min` and `max` are the componentwise minimum and maximum of the vertex coordinates. |
| Export.ExportNullFree | freecad_to_gltf/export.py:139-180 | The exported JSON has no `null` anywhere. |
| Export.ExportedNodeAndPrimitive | freecad_to_gltf/export.py:153-155 | The exported node loses only `children` and keeps its whole transform. The primitive keeps `indices` 0 and writes `TRIANGLES` as 4. |

## Left out

These parts of the source are not modelled:

- The text `json.dumps` produces. Whitespace, key order and float formatting are library behaviour, so the document is a JSON tree (`Json`) instead.
- IEEE-754 float32 encoding. Only the two values the exporter packs, 0.0 and 1.0, have their little-endian bytes in `Bytes.Float32LE`. Any other `f` item makes `Struct.Pack` return `FloatNotModelled`.
- Python's `__dict__` reflection. Each record has an explicit field list instead (the `...Value` functions of `GltfRecords`).
- The `.decode('utf-8')` and `str(...)` around `b64encode`. They are the identity on base64's ASCII output, so the base64 text is a `string` directly.
- Python's own `b64decode`, which the source never calls. `Base64.Decode` is a strict decoder that serves as the encoder's inverse.
- The `TypeError` `json.dumps` raises for values it cannot write. No such value exists in `PyValue`. The `AttributeError` `serialize` would raise on an object without `__dict__` makes `PyJson.Serialize` return `None`; `json.dumps` never calls `serialize` on those values.
- The order of dict iteration in `delete_keys_with_none_values`. The loop picks keys in any order; the result does not depend on the order.
- `PyJson.DeleteKeysWithNoneValues`: does not model aliasing or in-place mutation of the input dict, because maps are values. The source likewise deletes only from its copy.
- Python booleans, and numbers wider than those the exporter uses. Integers are unbounded, as Python's are.
- `GltfEnums.ElementSize`: counts a tightly packed element and does not model the column padding of matrix types under glTF 2.0 section 3.6.2.4, because the exporter uses only SCALAR and VEC3.
- `GltfRecords.Valid`: checks index bounds, byte ranges and component alignment only. Other glTF 2.0 schema rules (allowed `target` values, `byteStride` range, accessor `min`/`max` lengths) are not part of the invariant.

## Findings

| source | as written | input that shows it | evidently intended | confidence | as-written member | corrected member |
|---|---|---|---|---|---|---|
| freecad_to_gltf/export.py:189-190 | The recursive call on a nested dict discards its result, so the nested dict reaches the copy unpruned. | An object whose field `a` is the dict `{"b": None}` is written as `{"a": {"b": null}}`. | The docstring says the deletion is recursive, so the nested dict should lose `b` as well: `{"a": {}}`. | not executed | PyJson.NestedDictNotPruned | PyJson.PrunedDeepNoneFree |

`PyJson.Serialize` keeps the as-written pruning, because that is what the exporter's output depends on. No record in the document model holds a plain dict, so `PyJson.PrunedDeepAgrees` shows that the corrected pruning `PyJson.PrunedDeep` gives the same result for every record.
