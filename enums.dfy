/**
 * The three closed enumerations of the glTF document model and their wire
 * values: what `serialize` returns for an `Enum` member (`obj.value`).
 * Each wire map comes with its inverse (Python's lookup of a member by
 * value, `AccessorType("VEC3")`), and the round trips make each map
 * injective.
 */
module GltfEnums {
  import opened Wrappers

  /** Whether an accessor's elements are scalars, vectors or matrices. */
  datatype AccessorType = SCALAR | VEC2 | VEC3 | VEC4 | MAT2 | MAT3 | MAT4

  /** The numeric type of an accessor's components. */
  datatype ComponentType = BYTE | UNSIGNED_BYTE | SHORT | UNSIGNED_SHORT | UNSIGNED_INT | FLOAT

  /** The topology of a primitive. */
  datatype Mode = POINTS | LINES | LINE_LOOP | LINE_STRIP | TRIANGLES | TRIANGLE_STRIP | TRIANGLE_FAN

  /** The raw value of an `AccessorType` member: its own name. */
  function AccessorTypeValue(t: AccessorType): string
  {
    match t
    case SCALAR => "SCALAR"
    case VEC2 => "VEC2"
    case VEC3 => "VEC3"
    case VEC4 => "VEC4"
    case MAT2 => "MAT2"
    case MAT3 => "MAT3"
    case MAT4 => "MAT4"
  }

  /** The member whose raw value is `s`, if there is one. */
  function AccessorTypeOfValue(s: string): Option<AccessorType>
  {
    if s == "SCALAR" then Some(SCALAR)
    else if s == "VEC2" then Some(VEC2)
    else if s == "VEC3" then Some(VEC3)
    else if s == "VEC4" then Some(VEC4)
    else if s == "MAT2" then Some(MAT2)
    else if s == "MAT3" then Some(MAT3)
    else if s == "MAT4" then Some(MAT4)
    else None
  }

  /** The code of a `ComponentType` member, one of the GL type constants. */
  function ComponentTypeValue(c: ComponentType): int
  {
    match c
    case BYTE => 5120
    case UNSIGNED_BYTE => 5121
    case SHORT => 5122
    case UNSIGNED_SHORT => 5123
    case UNSIGNED_INT => 5125
    case FLOAT => 5126
  }

  function ComponentTypeOfValue(v: int): Option<ComponentType>
  {
    if v == 5120 then Some(BYTE)
    else if v == 5121 then Some(UNSIGNED_BYTE)
    else if v == 5122 then Some(SHORT)
    else if v == 5123 then Some(UNSIGNED_SHORT)
    else if v == 5125 then Some(UNSIGNED_INT)
    else if v == 5126 then Some(FLOAT)
    else None
  }

  /** The code of a `Mode` member, 0 to 6 in declaration order. */
  function ModeValue(m: Mode): int
  {
    match m
    case POINTS => 0
    case LINES => 1
    case LINE_LOOP => 2
    case LINE_STRIP => 3
    case TRIANGLES => 4
    case TRIANGLE_STRIP => 5
    case TRIANGLE_FAN => 6
  }

  function ModeOfValue(v: int): Option<Mode>
  {
    if v == 0 then Some(POINTS)
    else if v == 1 then Some(LINES)
    else if v == 2 then Some(LINE_LOOP)
    else if v == 3 then Some(LINE_STRIP)
    else if v == 4 then Some(TRIANGLES)
    else if v == 5 then Some(TRIANGLE_STRIP)
    else if v == 6 then Some(TRIANGLE_FAN)
    else None
  }

  lemma AccessorTypeRoundTrip(t: AccessorType, s: string)
    ensures AccessorTypeOfValue(AccessorTypeValue(t)) == Some(t)
    ensures AccessorTypeOfValue(s) == Some(t) <==> AccessorTypeValue(t) == s
  {
  }

  lemma AccessorTypeValueInjective(a: AccessorType, b: AccessorType)
    ensures AccessorTypeValue(a) == AccessorTypeValue(b) <==> a == b
  {
    AccessorTypeRoundTrip(a, AccessorTypeValue(b));
  }

  lemma ComponentTypeRoundTrip(c: ComponentType, v: int)
    ensures ComponentTypeOfValue(ComponentTypeValue(c)) == Some(c)
    ensures ComponentTypeOfValue(v) == Some(c) <==> ComponentTypeValue(c) == v
    ensures 5120 <= ComponentTypeValue(c) <= 5126
  {
  }

  lemma ComponentTypeValueInjective(a: ComponentType, b: ComponentType)
    ensures ComponentTypeValue(a) == ComponentTypeValue(b) <==> a == b
  {
    ComponentTypeRoundTrip(a, ComponentTypeValue(b));
  }

  lemma ModeRoundTrip(m: Mode, v: int)
    ensures ModeOfValue(ModeValue(m)) == Some(m)
    ensures ModeOfValue(v) == Some(m) <==> ModeValue(m) == v
    ensures 0 <= ModeValue(m) <= 6
  {
  }

  lemma ModeValueInjective(a: Mode, b: Mode)
    ensures ModeValue(a) == ModeValue(b) <==> a == b
  {
    ModeRoundTrip(a, ModeValue(b));
  }

  /**
   * Number of components per element, and bytes per component, as the
   * accessor data types of the glTF 2.0 specification (section 3.6.2.2) fix them.
   */
  function ComponentCount(t: AccessorType): (n: nat)
    ensures 1 <= n <= 16
  {
    match t
    case SCALAR => 1
    case VEC2 => 2
    case VEC3 => 3
    case VEC4 => 4
    case MAT2 => 4
    case MAT3 => 9
    case MAT4 => 16
  }

  function ComponentSize(c: ComponentType): (n: nat)
    ensures n == 1 || n == 2 || n == 4
  {
    match c
    case BYTE => 1
    case UNSIGNED_BYTE => 1
    case SHORT => 2
    case UNSIGNED_SHORT => 2
    case UNSIGNED_INT => 4
    case FLOAT => 4
  }

  /** Bytes of one tightly packed element. */
  function ElementSize(t: AccessorType, c: ComponentType): nat
  {
    ComponentCount(t) * ComponentSize(c)
  }
}
