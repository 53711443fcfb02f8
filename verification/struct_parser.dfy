/**
  The struct frontend: maps a TypeScript interface declaration to an IR
  struct, rejecting the syntax the IR cannot express.
 */
module StructParser {
  import opened Wrappers
  import Ir

  /** A source position range, carried opaquely into errors. */
  datatype Span = Span(lo: int, hi: int)

  datatype StructureError = UnsupportedSyntax(span: Span)

  /** A type annotation node, opaque to this module. */
  datatype TsType = TsType(span: Span, source: string)

  /** One member of an interface body, opaque to this module. */
  datatype TsTypeElement = TsTypeElement(span: Span, source: string)

  /**
    An interface declaration reduced to what the frontend inspects: its name,
    the span of its type parameter list if any, the spans of its extended
    types, and its body members in source order.
   */
  datatype TsInterfaceDecl = TsInterfaceDecl(
    id: string,
    typeParams: Option<Span>,
    extended: seq<Span>,
    body: seq<TsTypeElement>)

  /** A member read as a property: its name, whether it is marked `?`, and its annotation. */
  datatype Prop = Prop(name: string, optional: bool, tsType: TsType)

  /** The member-level helpers this frontend relies on, each of which may fail. */
  datatype MemberParsers = MemberParsers(
    asProp: TsTypeElement -> Result<Prop, StructureError>,
    toTypeExpr: TsType -> Result<Ir.TypeExpr, StructureError>)

  /**
    A member becomes a field: the property's name and flag, then its resolved
    type. A failure to read the property is reported before any failure to
    resolve its type.
   */
  function ParseMember(m: TsTypeElement, parsers: MemberParsers): (r: Result<Ir.Field, StructureError>)
    ensures parsers.asProp(m).Err? ==> r == Err(parsers.asProp(m).error)
    ensures parsers.asProp(m).Ok? ==>
              var prop := parsers.asProp(m).value;
              var ty := parsers.toTypeExpr(prop.tsType);
              && (ty.Err? ==> r == Err(ty.error))
              && (ty.Ok? ==> r == Ok(Ir.Field(prop.name, ty.value, prop.optional)))
  {
    var prop :- parsers.asProp(m);
    var ty :- parsers.toTypeExpr(prop.tsType);
    Ok(Ir.Field(prop.name, ty, prop.optional))
  }

  /** The position of the first member that fails to become a field, or `|members|` if none. */
  function FirstFailure(members: seq<TsTypeElement>, parsers: MemberParsers): (k: nat)
    ensures k <= |members|
    ensures forall j :: 0 <= j < k ==> ParseMember(members[j], parsers).Ok?
    ensures k < |members| ==> ParseMember(members[k], parsers).Err?
    decreases |members|
  {
    if |members| == 0 || ParseMember(members[0], parsers).Err? then 0
    else 1 + FirstFailure(members[1..], parsers)
  }

  /**
    Maps the body members to fields one-to-one and in order; the first
    member that fails decides the error.
   */
  function ParseInterfaceBody(members: seq<TsTypeElement>, parsers: MemberParsers)
    : (r: Result<seq<Ir.Field>, StructureError>)
    ensures r.Ok? <==> FirstFailure(members, parsers) == |members|
    ensures r.Ok? ==>
              && |r.value| == |members|
              && forall i :: 0 <= i < |members| ==> ParseMember(members[i], parsers) == Ok(r.value[i])
    ensures r.Err? ==> ParseMember(members[FirstFailure(members, parsers)], parsers) == Err(r.error)
    decreases |members|
  {
    if |members| == 0 then Ok([])
    else
      var field :- ParseMember(members[0], parsers);
      var rest :- ParseInterfaceBody(members[1..], parsers);
      Ok([field] + rest)
  }

  /**
    Rejects type parameters first, then `extends` clauses, each with the
    offending span; otherwise the struct takes the interface's name and the
    body's fields.
   */
  function ParseStruct(decl: TsInterfaceDecl, parsers: MemberParsers): (r: Result<Ir.Struct, StructureError>)
    ensures decl.typeParams.Some? ==> r == Err(UnsupportedSyntax(decl.typeParams.value))
    ensures decl.typeParams.None? && |decl.extended| > 0 ==> r == Err(UnsupportedSyntax(decl.extended[0]))
    ensures r.Ok? <==>
              && decl.typeParams.None?
              && |decl.extended| == 0
              && forall i :: 0 <= i < |decl.body| ==> ParseMember(decl.body[i], parsers).Ok?
    ensures r.Ok? ==>
              && r.value.name == decl.id
              && |r.value.fields| == |decl.body|
              && forall i :: 0 <= i < |decl.body| ==>
                   var prop := parsers.asProp(decl.body[i]);
                   && prop.Ok?
                   && r.value.fields[i].name == prop.value.name
                   && r.value.fields[i].optional == prop.value.optional
                   && parsers.toTypeExpr(prop.value.tsType) == Ok(r.value.fields[i].ty)
    ensures decl.typeParams.None? && |decl.extended| == 0 && r.Err? ==>
              var k := FirstFailure(decl.body, parsers);
              && k < |decl.body|
              && ParseMember(decl.body[k], parsers) == Err(r.error)
  {
    if decl.typeParams.Some? then Err(UnsupportedSyntax(decl.typeParams.value))
    else if |decl.extended| > 0 then Err(UnsupportedSyntax(decl.extended[0]))
    else
      var fields :- ParseInterfaceBody(decl.body, parsers);
      Ok(Ir.Struct(decl.id, fields))
  }

  const StringType := Ir.TypeExpr(Ir.Primitive(Ir.String), false)

  /**
    `interface Hello { foo: string }`, given a member read as the non-optional
    property `foo` whose annotation resolves to the string primitive.
   */
  lemma HelloStruct(foo: TsTypeElement, ann: TsType, parsers: MemberParsers)
    requires parsers.asProp(foo) == Ok(Prop("foo", false, ann))
    requires parsers.toTypeExpr(ann) == Ok(StringType)
    ensures ParseStruct(TsInterfaceDecl("Hello", None, [], [foo]), parsers)
            == Ok(Ir.Struct("Hello", [Ir.Field("foo", StringType, false)]))
  {
    var f := Ir.Field("foo", StringType, false);
    assert ParseMember(foo, parsers) == Ok(f);
    assert [foo][1..] == [];
    assert ParseInterfaceBody([foo][1..], parsers) == Ok([]);
    assert [f] + [] == [f];
    assert ParseInterfaceBody([foo], parsers) == Ok([f]);
  }

  /** `interface Hello { foo?: string }`: the first field is optional. */
  lemma HelloStructOptional(foo: TsTypeElement, ann: TsType, parsers: MemberParsers)
    requires parsers.asProp(foo) == Ok(Prop("foo", true, ann))
    requires parsers.toTypeExpr(ann) == Ok(StringType)
    ensures var r := ParseStruct(TsInterfaceDecl("Hello", None, [], [foo]), parsers);
            r.Ok? && |r.value.fields| >= 1 && r.value.fields[0].optional
  {
  }

  /** `interface Hello<T> { ... }` is rejected at its type parameter list, whatever its body. */
  lemma GenericInterfaceRejected(params: Span, extended: seq<Span>, body: seq<TsTypeElement>, parsers: MemberParsers)
    ensures ParseStruct(TsInterfaceDecl("Hello", Some(params), extended, body), parsers)
            == Err(UnsupportedSyntax(params))
  {
  }

  /** `interface Hello extends Base {}` is rejected at the extended type. */
  lemma ExtendingInterfaceRejected(base: Span, parsers: MemberParsers)
    ensures ParseStruct(TsInterfaceDecl("Hello", None, [base], []), parsers)
            == Err(UnsupportedSyntax(base))
  {
  }
}
