/**
  The language-neutral intermediate representation shared by the frontend
  and the code generator: type expressions and declarations.
 */
module Ir {

  /**
    Built-in scalar types. Only `String` is named by the code this model
    follows; the remaining members of the closed enumeration stand in as
    `Other`, identified by their keyword.
   */
  datatype Primitive = String | Other(keyword: string)

  /** The shape of a type expression; nullability is kept apart in `TypeExpr`. */
  datatype TypeExprKind =
    | Primitive(primitive: Primitive)
    | ArrayOf(element: TypeExpr)
    | Identifier(id: string)

  /** A shape plus a nullability flag, so nullability can sit at any nesting level. */
  datatype TypeExpr = TypeExpr(kind: TypeExprKind, nullable: bool)

  datatype Field = Field(name: string, ty: TypeExpr, optional: bool)

  datatype Struct = Struct(name: string, fields: seq<Field>)

  datatype IntegerMember = IntegerMember(name: string, value: int)

  datatype StringMember = StringMember(name: string, value: string)

  /** Enum members are all integer-valued or all string-valued. */
  datatype EnumKind =
    | Integers(integers: seq<IntegerMember>)
    | Strings(strings: seq<StringMember>)

  datatype Enum = Enum(name: string, kind: EnumKind)

  /**
    Externally tagged variants are (name, payload type) pairs; internally
    tagged variants are structs that carry the tag field among their fields.
   */
  datatype UnionKind =
    | ExternallyTagged(variants: seq<(string, TypeExpr)>)
    | InternallyTagged(tagField: string, structVariants: seq<Struct>)

  datatype Union = Union(name: string, kind: UnionKind)

  datatype TypeDecl =
    | StructDecl(st: Struct)
    | UnionDecl(un: Union)
    | EnumDecl(en: Enum)

  /** A file item: a type declaration, or a service, which has no rendering. */
  datatype Item = Decl(decl: TypeDecl) | Service

  datatype File = File(items: seq<Item>)
}
