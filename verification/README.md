# tser core in Dafny

A model of two pure pieces of tser, a compiler that reads type declarations
written as TypeScript interfaces, enums and unions, lowers them into a
language-neutral IR, and re-emits them as source text for other languages
through pluggable backends.

- **Front edge** (`crates/tser_parser_ts/src/type_decl/st.rs`): `parse_struct`
  turns an interface declaration into an IR struct. It rejects type
  parameters and then `extends` clauses, each at the offending span. Otherwise
  it maps the body member by member into ordered fields. The first member
  that fails decides the error.
- **Back edge** (`crates/tser_codegen/src/lib.rs`): the code-generation
  engine. `type_expr_to_string` renders a type expression bottom-up through
  the backend's string mappings, with nullability applied last at each
  level. The `from_ir` conversions pre-render every nested type into
  codegen-layer values. `generate` emits the backend head and then, for each
  item in file order, its declaration block followed by one empty line.

Layout:

- `ir.dfy` (`Ir`): the IR — type expressions, structs, enums, unions, items, files.
- `block.dfy` (`Blocks`): a block, seen as the lines it contributes once flattened.
- `backend.dfy` (`Backend`): the codegen-layer values and the backend
  interface `CodeGen`, a record of eight functions.
- `type_expr_spine.dfy` (`TypeExprSpine`): an independent reading of rendering.
  A type expression is split into a base and a list of array/optional wraps.
- `codegen.dfy` (`Codegen`): type-expression rendering, the `from_ir`
  conversions, dispatch and `Generate`.
- `codegen_proofs.dfy` (`CodegenProofs`): the output layout, the enum
  conversion's inverse, and the struct conversion's indifference to `optional`.
- `decimal.dfy` (`Decimal`): decimal text of integers and its reader.
- `struct_parser.dfy` (`StructParser`): the struct frontend over a reduced interface AST.
- `pipeline.dfy` (`Pipeline`): the frontend and the struct conversion composed.
- `wrappers.dfy`, `seqs.dfy`: `Option`/`Result` and an order-preserving `Map`.

The backend is a parameter. `CodeGen` holds `head`, `identifierExpr`,
`primitiveExpr`, `arrayExpr`, `optionalExpr`, `structDecl`, `enumDecl` and
`unionDecl` as arbitrary total functions. Every property below therefore
holds for every backend. The two member helpers of the frontend,
`parse_as_prop` and `parse_to_type_expr`, are likewise arbitrary
`Result`-returning functions, held in `MemberParsers`.

`generate` panics with `unimplemented!()` on a service item (lib.rs:145).
The model returns `Err(UnsupportedDeclaration(k))` instead,
where `k` is the position of the first service item. No output is produced in
that case, just as the panic produces none.

## Model

| member | source | states |
|---|---|---|
| Codegen.TypeExprToString | crates/tser_codegen/src/lib.rs:38-52 | for every backend, the rendering is the base's mapping (primitive or identifier) followed by one backend mapping per wrap of the spine, innermost first: an array mapping after its whole element is rendered, and one optional mapping after each nullable level's shape |
| TypeExprSpine.RebuildSpine | crates/tser_codegen/src/lib.rs:38-52 | the base and wrap list that rendering follows determine the type expression exactly, so no nesting level or nullability flag is lost or merged |
| TypeExprSpine.OptionalWrapsCount | crates/tser_codegen/src/lib.rs:47-51 | the number of optional wraps equals the number of nullable levels along the array chain: nested nullable levels are never collapsed into one wrap |
| CodegenProofs.NullableArrayOfNullablePrimitive | crates/tser_codegen/src/lib.rs:41-48 | a nullable array of nullable primitives renders as `optional(array(optional(primitive)))` |
| Codegen.StructFromIr | crates/tser_codegen/src/lib.rs:23-35 | the name is kept; there is one field per IR field, in order; field i is the IR field's name with its type rendered by the backend |
| CodegenProofs.StructFromIrIgnoresOptional | crates/tser_codegen/src/lib.rs:29-32 | the IR `optional` flag is not carried over: structs that differ only in it convert to the same value |
| Codegen.EnumFromIr | crates/tser_codegen/src/lib.rs:60-82 | the name is kept; the value type is Integer exactly when the IR kind holds integers; members keep count, order and names; string values are copied verbatim and integer values become their decimal text |
| CodegenProofs.EnumRoundTrip | crates/tser_codegen/src/lib.rs:60-82 | the enum conversion loses nothing: reading values back according to the value type recovers the IR enum; integer text is read by a reader that accepts only canonical decimal text, so no value is reformatted or reordered |
| Decimal.IntToDecimalRoundTrip | crates/tser_codegen/src/lib.rs:66 | an integer's decimal text reads back as the same integer |
| Decimal.ParseIntExact | crates/tser_codegen/src/lib.rs:66 | a text reads back as `i` exactly when it is `i`'s decimal text: no other spelling (a leading zero, `-0`, `00`) denotes the same integer |
| Decimal.IntToDecimal | crates/tser_codegen/src/lib.rs:66 | the text is '-' exactly for negative values, followed by the magnitude's digits with no leading zero; zero is exactly `"0"` |
| Decimal.NatToDecimal | crates/tser_codegen/src/lib.rs:66 | the decimal text of a magnitude is a non-empty string of digits with no leading zero, and it is `"0"` exactly for zero |
| Codegen.UnionKindFromIr | crates/tser_codegen/src/lib.rs:93-111 | the tagging discipline is kept; externally tagged variants keep names and order with payloads rendered; internally tagged unions keep the tag field and convert each variant struct in order |
| CodegenProofs.UnionKindKeepsVariantNames | crates/tser_codegen/src/lib.rs:93-111 | for both tagging disciplines, the backend receives the IR union's variant names (labels, or variant struct names) unchanged and in the same order |
| Codegen.UnionFromIr | crates/tser_codegen/src/lib.rs:119-124 | the name is kept and the kind is converted by the union-kind conversion |
| Codegen.DeclBlock | crates/tser_codegen/src/lib.rs:144-154 | dispatch by declaration kind: Struct goes to `structDecl`, Union to `unionDecl`, Enum to `enumDecl`, each given the converted codegen value |
| Codegen.ItemsLines | crates/tser_codegen/src/lib.rs:143-157 | the items' sections fail exactly when a service item is present, and then with the position of the first one |
| Codegen.Generate | crates/tser_codegen/src/lib.rs:139-161 | generation succeeds exactly when the file has no service item; otherwise the error names the first service item; on success the output starts with the head's lines |
| CodegenProofs.GenerateLayout | crates/tser_codegen/src/lib.rs:142-161 | item i's section starts after the head and the sections of items 0..i-1, holds the lines of the block the backend renders for that item's declaration kind, and is followed by exactly one empty line |
| CodegenProofs.GenerateLength | crates/tser_codegen/src/lib.rs:156-159 | the output has exactly the head's lines plus each block's lines and one empty line per item, so nothing else is emitted |
| CodegenProofs.GenerateTwoItems | crates/tser_codegen/src/lib.rs:156-159 | with two declarations the output is the head, the first block, one empty line, the second block, one empty line |
| StructParser.ParseStruct | crates/tser_parser_ts/src/type_decl/st.rs:8-19 | type parameters are rejected at their span before anything else; then the first extended type is rejected at its span; success holds exactly when neither is present and every member parses; the struct takes the interface's name and field i takes name and `optional` from member i's property and its type from resolving that property's annotation; a body failure is the first failing member's error |
| StructParser.ParseMember | crates/tser_parser_ts/src/type_decl/st.rs:28-35 | a member whose property cannot be read fails with that error; otherwise a type annotation that cannot be resolved fails with that error; otherwise the field has the property's name and `optional` flag and the resolved type |
| StructParser.ParseInterfaceBody | crates/tser_parser_ts/src/type_decl/st.rs:21-37 | fields correspond one-to-one with members, in order; the body fails exactly when some member fails, and then with the first failing member's error |
| StructParser.GenericInterfaceRejected | crates/tser_parser_ts/src/type_decl/st.rs:9-11 | an interface with type parameters is rejected at their span whatever its `extends` clauses and body |
| StructParser.ExtendingInterfaceRejected | crates/tser_parser_ts/src/type_decl/st.rs:12-14 | `interface Hello extends Base {}` is rejected at the span of `Base` |
| StructParser.HelloStruct | crates/tser_parser_ts/src/type_decl/st.rs:55-71 | `interface Hello { foo: string }` gives the struct `Hello` with one non-optional field `foo` of non-nullable primitive string type |
| StructParser.HelloStructOptional | crates/tser_parser_ts/src/type_decl/st.rs:73-84 | `interface Hello { foo?: string }` gives a struct whose first field is optional |
| Pipeline.ParsedStructFields | crates/tser_parser_ts/src/type_decl/st.rs:24-35 | a parsed interface, converted for code generation, has one field per body member in source order, each the member's name with its resolved type rendered by the backend |

## Left out

- Backend implementations (`rust`, `swift`, lib.rs:1-2) are not part of this model. Every backend operation is an arbitrary function.
- The `tser_block` crate is not part of this model. A block is the sequence of lines it contributes once flattened, indentation included. `flatten!`/`block!` become concatenation of those lines. The final `string()` rendering of the file block (lib.rs:161) is left out, so `Generate` returns the file's lines rather than one string.
- `parse_as_prop` and `parse_to_type_expr` are not part of this model. They are parameters of the frontend, and the AST nodes they read are opaque.
- The conversion of a span into a `StructureError` (`.into()`) is not shown. The model's error just carries the span.
- The swc tokenizer and AST are reduced to the four things `parse_struct` inspects: the name, the optional type-parameter span, the extended-type spans and the body members.
- The full `Primitive` enumeration of `tser_ir` is not part of this model. Only `String` is named. The other members stand in as `Other(keyword)`, which is enough because the engine passes primitives to the backend untouched.
- Codegen.EnumFromIr: the IR's integer width is not part of this model, so enum values are unbounded integers. Their decimal text is that of the mathematical value.
- Codegen.EnumFromIr: the unused `code_gen` argument of `Enum::from_ir` (lib.rs:60) is dropped.
- Panic: `unimplemented!()` on a service item (lib.rs:145) is modelled as the error result described above.
- Idempotence of rendering needs no lemma. Every operation is a Dafny function, so equal inputs give equal outputs by construction.
- Test scaffolding (`parse_src_as_decl`, `assert_matches`) is left out. The two tests become lemmas, stated for any member helpers that read the member as the property `foo` with a string annotation.
