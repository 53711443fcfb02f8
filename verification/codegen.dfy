/**
  The code-generation engine: converts IR declarations into codegen-layer
  values whose nested type expressions are already rendered to backend
  strings, and lays the backend's blocks out into one file.
 */
module Codegen {
  import opened Wrappers
  import opened Blocks
  import opened Backend
  import opened TypeExprSpine
  import Seqs
  import Decimal
  import Ir

  /** Generation fails only on a service item, identified by its position in the file. */
  datatype GenError = UnsupportedDeclaration(index: nat)

  /**
    Renders a type expression bottom-up: the shape first (an array's element
    before the array itself), then one optional wrap if the level is nullable.
    The result is the base's mapping with the spine's wraps applied in order.
   */
  function TypeExprToString(t: Ir.TypeExpr, cg: CodeGen): (r: string)
    ensures r == ApplyWraps(BaseString(BaseOf(t), cg), Wraps(t), cg)
  {
    SpineRenderStep(t, cg);
    var unwrapped :=
      match t.kind
      case Primitive(p) => cg.primitiveExpr(p)
      case ArrayOf(element) => cg.arrayExpr(TypeExprToString(element, cg))
      case Identifier(id) => cg.identifierExpr(id);
    if t.nullable then cg.optionalExpr(unwrapped) else unwrapped
  }

  function StructFromIr(s: Ir.Struct, cg: CodeGen): (r: Struct)
    ensures r.name == s.name
    ensures |r.fields| == |s.fields|
    ensures forall i :: 0 <= i < |s.fields| ==>
              r.fields[i] == (s.fields[i].name, TypeExprToString(s.fields[i].ty, cg))
  {
    Struct(s.name, Seqs.Map((f: Ir.Field) => (f.name, TypeExprToString(f.ty, cg)), s.fields))
  }

  function EnumFromIr(e: Ir.Enum): (r: Enum)
    ensures r.name == e.name
    ensures r.valueType == Integer <==> e.kind.Integers?
    ensures e.kind.Integers? ==>
              && |r.values| == |e.kind.integers|
              && forall i :: 0 <= i < |e.kind.integers| ==>
                   r.values[i] == (e.kind.integers[i].name, Decimal.IntToDecimal(e.kind.integers[i].value))
    ensures e.kind.Strings? ==>
              && |r.values| == |e.kind.strings|
              && forall i :: 0 <= i < |e.kind.strings| ==>
                   r.values[i] == (e.kind.strings[i].name, e.kind.strings[i].value)
  {
    match e.kind
    case Integers(members) =>
      Enum(e.name, Integer,
           Seqs.Map((m: Ir.IntegerMember) => (m.name, Decimal.IntToDecimal(m.value)), members))
    case Strings(members) =>
      Enum(e.name, String, Seqs.Map((m: Ir.StringMember) => (m.name, m.value), members))
  }

  function UnionKindFromIr(k: Ir.UnionKind, cg: CodeGen): (r: UnionKind)
    ensures r.ExternallyTagged? <==> k.ExternallyTagged?
    ensures k.ExternallyTagged? ==>
              && |r.variants| == |k.variants|
              && forall i :: 0 <= i < |k.variants| ==>
                   r.variants[i] == (k.variants[i].0, TypeExprToString(k.variants[i].1, cg))
    ensures k.InternallyTagged? ==>
              && r.tagField == k.tagField
              && |r.structVariants| == |k.structVariants|
              && forall i :: 0 <= i < |k.structVariants| ==>
                   r.structVariants[i] == StructFromIr(k.structVariants[i], cg)
  {
    match k
    case ExternallyTagged(variants) =>
      ExternallyTagged(
        Seqs.Map((v: (string, Ir.TypeExpr)) => (v.0, TypeExprToString(v.1, cg)), variants))
    case InternallyTagged(tagField, structs) =>
      InternallyTagged(tagField, Seqs.Map((s: Ir.Struct) => StructFromIr(s, cg), structs))
  }

  function UnionFromIr(u: Ir.Union, cg: CodeGen): (r: Union)
    ensures r.name == u.name
    ensures r.kind == UnionKindFromIr(u.kind, cg)
  {
    Union(u.name, UnionKindFromIr(u.kind, cg))
  }

  /** Dispatches a declaration to the backend renderer of its kind. */
  function DeclBlock(d: Ir.TypeDecl, cg: CodeGen): (r: Block)
    ensures d.StructDecl? ==> r == cg.structDecl(StructFromIr(d.st, cg))
    ensures d.UnionDecl? ==> r == cg.unionDecl(UnionFromIr(d.un, cg))
    ensures d.EnumDecl? ==> r == cg.enumDecl(EnumFromIr(d.en))
  {
    match d
    case StructDecl(s) => cg.structDecl(StructFromIr(s, cg))
    case UnionDecl(u) => cg.unionDecl(UnionFromIr(u, cg))
    case EnumDecl(e) => cg.enumDecl(EnumFromIr(e))
  }

  /** The position of the first service item at or after `from`, or `|items|` if none. */
  function FirstService(items: seq<Ir.Item>, from: nat): (k: nat)
    requires from <= |items|
    ensures from <= k <= |items|
    ensures forall j :: from <= j < k ==> items[j].Decl?
    ensures k < |items| ==> items[k].Service?
    decreases |items| - from
  {
    if from == |items| || items[from].Service? then from else FirstService(items, from + 1)
  }

  /**
    The lines of `items[from..]`: each declaration's block followed by one
    empty line, in file order; the first service item aborts with its index.
   */
  function ItemsLines(items: seq<Ir.Item>, from: nat, cg: CodeGen): (r: Result<seq<string>, GenError>)
    requires from <= |items|
    ensures r.Err? <==> FirstService(items, from) < |items|
    ensures r.Err? ==> r.error.index == FirstService(items, from)
    decreases |items| - from
  {
    if from == |items| then Ok([])
    else
      match items[from]
      case Service => Err(UnsupportedDeclaration(from))
      case Decl(d) =>
        var rest :- ItemsLines(items, from + 1, cg);
        Ok(DeclBlock(d, cg).lines + [""] + rest)
  }

  /**
    The lines of the generated file: the head's lines, then every item's
    section in file order. A file holding a service item yields the error
    for the first one instead of any output.
   */
  function Generate(file: Ir.File, cg: CodeGen): (r: Result<seq<string>, GenError>)
    ensures r.Ok? <==> forall j :: 0 <= j < |file.items| ==> file.items[j].Decl?
    ensures r.Err? ==>
              && r.error.index < |file.items|
              && file.items[r.error.index].Service?
              && forall j :: 0 <= j < r.error.index ==> file.items[j].Decl?
    ensures r.Ok? ==> |cg.head.lines| <= |r.value| && r.value[..|cg.head.lines|] == cg.head.lines
  {
    var body :- ItemsLines(file.items, 0, cg);
    Ok(cg.head.lines + body)
  }
}
