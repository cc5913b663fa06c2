/**
  The type descriptions the renderer works on.  The host language's runtime
  type handles become a finite registry from type ids to descriptions; a
  registry, unlike a datatype, can describe self-referential types.
*/
module Types {

  type TypeId = nat

  /** One declared field of a struct type, as reflection reports it. */
  datatype StructField = StructField(
    name: string,       // declared field name (for an embedded field, its type's name)
    exported: bool,     // the field is exported (its package path is empty)
    anonymous: bool,    // the field is embedded
    jsonTag: string,    // value of the `json` struct tag, "" when absent
    specTag: string,    // value of the `spec` struct tag, "" when absent
    typ: TypeId)        // declared type of the field

  datatype Shape =
    | StructShape(fields: seq<StructField>)
    | SliceShape(elem: TypeId)
    | ArrayShape(elem: TypeId)
    | PointerShape(elem: TypeId)
    | OtherShape

  /**
    A type: its name ("" for an unnamed type such as `*T` or `[]T`), the text
    its String method gives (`main.User`, `[]main.User`), and its shape.
  */
  datatype TypeDesc = TypeDesc(name: string, str: string, shape: Shape)

  type Registry = map<TypeId, TypeDesc>

  datatype Kind = Struct | Slice | Array | Pointer | OtherKind

  /** The description of t; an id outside the registry is an opaque unnamed type. */
  function Desc(reg: Registry, t: TypeId): TypeDesc {
    if t in reg then reg[t] else TypeDesc("", "", OtherShape)
  }

  function KindOf(reg: Registry, t: TypeId): Kind {
    match Desc(reg, t).shape
    case StructShape(_) => Struct
    case SliceShape(_) => Slice
    case ArrayShape(_) => Array
    case PointerShape(_) => Pointer
    case OtherShape => OtherKind
  }

  /** Name() of t. */
  function TypeName(reg: Registry, t: TypeId): string {
    Desc(reg, t).name
  }

  /** String() of t, which is what `%v` prints for a type. */
  function TypeString(reg: Registry, t: TypeId): string {
    Desc(reg, t).str
  }

  predicate IsStruct(reg: Registry, t: TypeId)
    ensures IsStruct(reg, t) <==> KindOf(reg, t) == Struct
  {
    t in reg && reg[t].shape.StructShape?
  }

  predicate HasElem(reg: Registry, t: TypeId) {
    KindOf(reg, t) in {Slice, Array, Pointer}
  }

  /** Elem() of a slice, array or pointer type. */
  function Elem(reg: Registry, t: TypeId): TypeId
    requires HasElem(reg, t)
  {
    match Desc(reg, t).shape
    case SliceShape(e) => e
    case ArrayShape(e) => e
    case PointerShape(e) => e
  }

  /** The declared fields of a struct type, in declaration order (none for any other kind). */
  function DeclaredFields(reg: Registry, t: TypeId): seq<StructField> {
    if IsStruct(reg, t) then Desc(reg, t).shape.fields else []
  }

  /** Only types of the registry are structs. */
  lemma StructsAreRegistered(reg: Registry, t: TypeId)
    requires IsStruct(reg, t)
    ensures t in reg
  {
  }

  /** t is a slice type `[]E` whose element type E is a struct. */
  predicate IsSliceOfStruct(reg: Registry, t: TypeId) {
    KindOf(reg, t) == Slice && IsStruct(reg, Elem(reg, t))
  }
}
