/**
  The values the code generator hands to a backend, with every nested type
  expression already rendered to a string, and the capability interface
  every backend provides.
 */
module Backend {
  import opened Blocks
  import Ir

  datatype EnumValueType = Integer | String

  /** A struct whose field types are rendered backend strings: (field name, type text). */
  datatype Struct = Struct(name: string, fields: seq<(string, string)>)

  /** An enum whose member values are text: (member name, value text). */
  datatype Enum = Enum(name: string, valueType: EnumValueType, values: seq<(string, string)>)

  datatype UnionKind =
    | ExternallyTagged(variants: seq<(string, string)>)
    | InternallyTagged(tagField: string, structVariants: seq<Struct>)

  datatype Union = Union(name: string, kind: UnionKind)

  /**
    The capability interface every backend provides: a file head, four
    type-expression string mappings and three declaration renderers.
   */
  datatype CodeGen = CodeGen(
    head: Block,
    identifierExpr: string -> string,
    primitiveExpr: Ir.Primitive -> string,
    arrayExpr: string -> string,
    optionalExpr: string -> string,
    structDecl: Struct -> Block,
    enumDecl: Enum -> Block,
    unionDecl: Union -> Block)
}
