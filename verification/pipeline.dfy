/**
  The front edge and the back edge composed: a parsed interface, once
  converted for code generation, lists one rendered field per body member,
  in source order.
 */
module Pipeline {
  import opened Backend
  import opened Codegen
  import opened StructParser

  /**
    Field `i` of the codegen struct is the name of body member `i` and the
    backend rendering of that member's resolved type annotation.
   */
  lemma ParsedStructFields(decl: TsInterfaceDecl, parsers: MemberParsers, cg: CodeGen)
    requires ParseStruct(decl, parsers).Ok?
    ensures var s := StructFromIr(ParseStruct(decl, parsers).value, cg);
            && s.name == decl.id
            && |s.fields| == |decl.body|
            && forall i :: 0 <= i < |decl.body| ==>
                 var prop := parsers.asProp(decl.body[i]).value;
                 s.fields[i] == (prop.name, TypeExprToString(parsers.toTypeExpr(prop.tsType).value, cg))
  {
  }
}
