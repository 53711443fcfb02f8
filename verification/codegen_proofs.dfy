/**
  Properties of the code-generation engine that relate several calls: the
  position of every item's section in the generated file, the enum
  conversion's inverse, and the struct conversion's indifference to the
  IR `optional` flag.
 */
module CodegenProofs {
  import opened Wrappers
  import Seqs
  import Decimal
  import Ir
  import opened Backend
  import opened TypeExprSpine
  import opened Codegen

  predicate AllDecls(items: seq<Ir.Item>)
  {
    forall j :: 0 <= j < |items| ==> items[j].Decl?
  }

  /** The number of lines taken by the sections of `items[from..to]`: each block plus one empty line. */
  function SectionsLength(items: seq<Ir.Item>, from: nat, to: nat, cg: CodeGen): nat
    requires from <= to <= |items|
    requires AllDecls(items)
    decreases |items| - from
  {
    if from == to then 0
    else |DeclBlock(items[from].decl, cg).lines| + 1 + SectionsLength(items, from + 1, to, cg)
  }

  lemma SliceAfterPrefix(h: seq<string>, body: seq<string>, lo: nat, hi: nat)
    requires lo <= hi <= |body|
    ensures (h + body)[|h| + lo..|h| + hi] == body[lo..hi]
  {
  }

  lemma {:induction false} ItemsLinesLength(items: seq<Ir.Item>, from: nat, cg: CodeGen)
    requires from <= |items|
    requires AllDecls(items)
    ensures ItemsLines(items, from, cg).Ok?
    ensures |ItemsLines(items, from, cg).value| == SectionsLength(items, from, |items|, cg)
    decreases |items| - from
  {
    if from < |items| {
      ItemsLinesLength(items, from + 1, cg);
    }
  }

  lemma {:induction false} ItemsLinesLayout(items: seq<Ir.Item>, from: nat, i: nat, cg: CodeGen)
    requires from <= i < |items|
    requires AllDecls(items)
    ensures ItemsLines(items, from, cg).Ok?
    ensures var out := ItemsLines(items, from, cg).value;
            var o := SectionsLength(items, from, i, cg);
            var b := DeclBlock(items[i].decl, cg).lines;
            && o + |b| < |out|
            && out[o..o + |b|] == b
            && out[o + |b|] == ""
    decreases i - from
  {
    ItemsLinesLength(items, from + 1, cg);
    var rest := ItemsLines(items, from + 1, cg).value;
    var section := DeclBlock(items[from].decl, cg).lines + [""];
    var out := section + rest;
    assert ItemsLines(items, from, cg) == Ok(out);
    if i > from {
      ItemsLinesLayout(items, from + 1, i, cg);
      var o' := SectionsLength(items, from + 1, i, cg);
      var b := DeclBlock(items[i].decl, cg).lines;
      assert SectionsLength(items, from, i, cg) == |section| + o';
      SliceAfterPrefix(section, rest, o', o' + |b|);
      assert out[|section| + o' + |b|] == rest[o' + |b|];
    } else {
      assert out[..|section| - 1] == section[..|section| - 1];
    }
  }

  /**
    When the file has no service item, generation succeeds and its output is
    the head's lines followed by one section per item, with nothing else.
   */
  lemma GenerateLength(file: Ir.File, cg: CodeGen)
    requires AllDecls(file.items)
    ensures Generate(file, cg).Ok?
    ensures |Generate(file, cg).value|
            == |cg.head.lines| + SectionsLength(file.items, 0, |file.items|, cg)
  {
    ItemsLinesLength(file.items, 0, cg);
  }

  /**
    Item `i`'s section sits right after the head and the sections of the
    items before it: the lines of the block the backend renders for its kind,
    then exactly one empty line.
   */
  lemma GenerateLayout(file: Ir.File, i: nat, cg: CodeGen)
    requires AllDecls(file.items)
    requires i < |file.items|
    ensures Generate(file, cg).Ok?
    ensures var out := Generate(file, cg).value;
            var o := |cg.head.lines| + SectionsLength(file.items, 0, i, cg);
            var b := DeclBlock(file.items[i].decl, cg).lines;
            && o + |b| < |out|
            && out[o..o + |b|] == b
            && out[o + |b|] == ""
  {
    ItemsLinesLayout(file.items, 0, i, cg);
    var body := ItemsLines(file.items, 0, cg).value;
    var h := cg.head.lines;
    var out := h + body;
    assert Generate(file, cg) == Ok(out);
    var o' := SectionsLength(file.items, 0, i, cg);
    var b := DeclBlock(file.items[i].decl, cg).lines;
    SliceAfterPrefix(h, body, o', o' + |b|);
    assert out[|h| + o' + |b|] == body[o' + |b|];
  }

  /** Two declarations: head, first block, one empty line, second block, one empty line. */
  lemma GenerateTwoItems(a: Ir.TypeDecl, b: Ir.TypeDecl, cg: CodeGen)
    ensures Generate(Ir.File([Ir.Decl(a), Ir.Decl(b)]), cg)
            == Ok(cg.head.lines + DeclBlock(a, cg).lines + [""] + DeclBlock(b, cg).lines + [""])
  {
    var items := [Ir.Decl(a), Ir.Decl(b)];
    var lb := DeclBlock(b, cg).lines + [""];
    assert ItemsLines(items, 2, cg) == Ok([]);
    assert lb + [] == lb;
    assert ItemsLines(items, 1, cg) == Ok(lb);
    var body := DeclBlock(a, cg).lines + [""] + lb;
    assert ItemsLines(items, 0, cg) == Ok(body);
    assert cg.head.lines + body
        == cg.head.lines + DeclBlock(a, cg).lines + [""] + DeclBlock(b, cg).lines + [""];
  }

  /** Reads integer member values back from their text; fails if any is not decimal text. */
  function ParseIntegerMembers(values: seq<(string, string)>): Option<seq<Ir.IntegerMember>>
    decreases |values|
  {
    if |values| == 0 then Some([])
    else
      match Decimal.ParseInt(values[0].1)
      case None => None
      case Some(v) =>
        match ParseIntegerMembers(values[1..])
        case None => None
        case Some(rest) => Some([Ir.IntegerMember(values[0].0, v)] + rest)
  }

  /** Recovers the IR enum from its codegen form, reading values according to the value type. */
  function EnumToIr(e: Enum): Option<Ir.Enum>
  {
    match e.valueType
    case Integer =>
      var members :- ParseIntegerMembers(e.values);
      Some(Ir.Enum(e.name, Ir.Integers(members)))
    case String =>
      Some(Ir.Enum(e.name, Ir.Strings(Seqs.Map((v: (string, string)) => Ir.StringMember(v.0, v.1), e.values))))
  }

  lemma {:induction false} IntegerMembersRoundTrip(values: seq<(string, string)>, members: seq<Ir.IntegerMember>)
    requires |values| == |members|
    requires forall i :: 0 <= i < |members| ==>
               values[i] == (members[i].name, Decimal.IntToDecimal(members[i].value))
    ensures ParseIntegerMembers(values) == Some(members)
    decreases |members|
  {
    if |members| > 0 {
      IntegerMembersRoundTrip(values[1..], members[1..]);
      var v := members[0].value;
      assert Decimal.ParseInt(values[0].1) == Some(v) by {
        Decimal.IntToDecimalRoundTrip(v);
      }
      assert [Ir.IntegerMember(values[0].0, v)] + members[1..] == members;
    }
  }

  /**
    The enum conversion loses nothing: member names and order are kept,
    string values are copied verbatim and integer values are decimal text
    that reads back as the same integer, so the IR enum is recovered.
   */
  lemma EnumRoundTrip(e: Ir.Enum)
    ensures EnumToIr(EnumFromIr(e)) == Some(e)
  {
    match e.kind {
      case Integers(members) =>
        IntegerMembersRoundTrip(EnumFromIr(e).values, members);
      case Strings(members) =>
        var r := EnumFromIr(e);
        var back := Seqs.Map((v: (string, string)) => Ir.StringMember(v.0, v.1), r.values);
        assert back == members;
    }
  }

  /** Two IR structs that differ only in their fields' `optional` flags convert identically. */
  lemma StructFromIrIgnoresOptional(s1: Ir.Struct, s2: Ir.Struct, cg: CodeGen)
    requires s1.name == s2.name
    requires |s1.fields| == |s2.fields|
    requires forall i :: 0 <= i < |s1.fields| ==>
               s1.fields[i].name == s2.fields[i].name && s1.fields[i].ty == s2.fields[i].ty
    ensures StructFromIr(s1, cg) == StructFromIr(s2, cg)
  {
  }

  /** A nullable array of nullable primitives is wrapped optionally twice, at two levels. */
  lemma NullableArrayOfNullablePrimitive(p: Ir.Primitive, cg: CodeGen)
    ensures var t := Ir.TypeExpr(Ir.ArrayOf(Ir.TypeExpr(Ir.Primitive(p), true)), true);
            && Wraps(t) == [OptionalWrap, ArrayWrap, OptionalWrap]
            && TypeExprToString(t, cg)
               == cg.optionalExpr(cg.arrayExpr(cg.optionalExpr(cg.primitiveExpr(p))))
  {
    var element := Ir.TypeExpr(Ir.Primitive(p), true);
    assert Wraps(element) == [] + [OptionalWrap];
    assert KindWraps(Ir.ArrayOf(element)) == [OptionalWrap] + [ArrayWrap];
  }

  /** The variant names of an IR union, in order: labels when externally tagged, struct names otherwise. */
  function IrVariantNames(k: Ir.UnionKind): seq<string>
  {
    match k
    case ExternallyTagged(variants) => Seqs.Map((v: (string, Ir.TypeExpr)) => v.0, variants)
    case InternallyTagged(_, structs) => Seqs.Map((st: Ir.Struct) => st.name, structs)
  }

  /** The variant names a backend sees, in order. */
  function VariantNames(k: UnionKind): seq<string>
  {
    match k
    case ExternallyTagged(variants) => Seqs.Map((v: (string, string)) => v.0, variants)
    case InternallyTagged(_, structs) => Seqs.Map((st: Struct) => st.name, structs)
  }

  /** The union conversion hands the backend the same variant names, in the same order. */
  lemma UnionKindKeepsVariantNames(k: Ir.UnionKind, cg: CodeGen)
    ensures VariantNames(UnionKindFromIr(k, cg)) == IrVariantNames(k)
  {
  }
}
