/**
  An independent reading of type-expression rendering. A type expression is
  its spine: a base (a primitive or an identifier) and the list of wraps laid
  around it, innermost first. Rendering equals applying the backend's array
  and optional mappings to the base string in that order, and the spine
  loses nothing: the type expression can be rebuilt from it.
 */
module TypeExprSpine {
  import Ir
  import opened Backend

  datatype Base = PrimitiveBase(primitive: Ir.Primitive) | IdentifierBase(id: string)

  datatype Wrap = ArrayWrap | OptionalWrap

  function KindBase(k: Ir.TypeExprKind): Base
  {
    match k
    case Primitive(p) => PrimitiveBase(p)
    case Identifier(id) => IdentifierBase(id)
    case ArrayOf(element) => BaseOf(element)
  }

  function BaseOf(t: Ir.TypeExpr): Base
  {
    KindBase(t.kind)
  }

  function KindWraps(k: Ir.TypeExprKind): seq<Wrap>
  {
    match k
    case ArrayOf(element) => Wraps(element) + [ArrayWrap]
    case _ => []
  }

  /** The wraps around the base, innermost first; a nullable level adds one optional wrap. */
  function Wraps(t: Ir.TypeExpr): seq<Wrap>
  {
    KindWraps(t.kind) + (if t.nullable then [OptionalWrap] else [])
  }

  function BaseString(b: Base, cg: CodeGen): string
  {
    match b
    case PrimitiveBase(p) => cg.primitiveExpr(p)
    case IdentifierBase(id) => cg.identifierExpr(id)
  }

  function WrapString(w: Wrap, s: string, cg: CodeGen): string
  {
    match w
    case ArrayWrap => cg.arrayExpr(s)
    case OptionalWrap => cg.optionalExpr(s)
  }

  /** Applies the wraps to `s`, first wrap innermost. */
  function ApplyWraps(s: string, ws: seq<Wrap>, cg: CodeGen): string
    decreases |ws|
  {
    if |ws| == 0 then s else ApplyWraps(WrapString(ws[0], s, cg), ws[1..], cg)
  }

  /** Rebuilds a type expression from a base and its wraps, outermost wrap last. */
  function Rebuild(b: Base, ws: seq<Wrap>): Ir.TypeExpr
    decreases |ws|
  {
    if |ws| == 0 then
      match b
      case PrimitiveBase(p) => Ir.TypeExpr(Ir.Primitive(p), false)
      case IdentifierBase(id) => Ir.TypeExpr(Ir.Identifier(id), false)
    else
      var inner := Rebuild(b, ws[..|ws| - 1]);
      match ws[|ws| - 1]
      case OptionalWrap => inner.(nullable := true)
      case ArrayWrap => Ir.TypeExpr(Ir.ArrayOf(inner), false)
  }

  /** The number of nullable levels along the chain of array elements. */
  function NullableLevels(t: Ir.TypeExpr): nat
  {
    (match t.kind case ArrayOf(element) => NullableLevels(element) case _ => 0)
    + (if t.nullable then 1 else 0)
  }

  function CountOptional(ws: seq<Wrap>): nat
    decreases |ws|
  {
    if |ws| == 0 then 0 else (if ws[0] == OptionalWrap then 1 else 0) + CountOptional(ws[1..])
  }

  lemma {:induction false} ApplyWrapsAppend(s: string, a: seq<Wrap>, b: seq<Wrap>, cg: CodeGen)
    ensures ApplyWraps(s, a + b, cg) == ApplyWraps(ApplyWraps(s, a, cg), b, cg)
    decreases |a|
  {
    if |a| > 0 {
      assert (a + b)[1..] == a[1..] + b;
      ApplyWrapsAppend(WrapString(a[0], s, cg), a[1..], b, cg);
    } else {
      assert a + b == b;
    }
  }

  lemma {:induction false} CountOptionalAppend(a: seq<Wrap>, b: seq<Wrap>)
    ensures CountOptional(a + b) == CountOptional(a) + CountOptional(b)
    decreases |a|
  {
    if |a| > 0 {
      assert (a + b)[1..] == a[1..] + b;
      CountOptionalAppend(a[1..], b);
    } else {
      assert a + b == b;
    }
  }

  /** The spine's rendering: the base's mapping with every wrap applied, innermost first. */
  function SpineRender(t: Ir.TypeExpr, cg: CodeGen): string
  {
    ApplyWraps(BaseString(BaseOf(t), cg), Wraps(t), cg)
  }

  /**
    The spine's rendering obeys the one-level recurrence of the renderer:
    the shape's mapping (an array's mapping applied to its element's
    rendering), then one optional mapping if the level is nullable.
   */
  lemma SpineRenderStep(t: Ir.TypeExpr, cg: CodeGen)
    ensures var unwrapped :=
              match t.kind
              case Primitive(p) => cg.primitiveExpr(p)
              case ArrayOf(element) => cg.arrayExpr(SpineRender(element, cg))
              case Identifier(id) => cg.identifierExpr(id);
            SpineRender(t, cg) == if t.nullable then cg.optionalExpr(unwrapped) else unwrapped
  {
    var base := BaseString(BaseOf(t), cg);
    var inner := KindWraps(t.kind);
    var unwrapped :=
      match t.kind
      case Primitive(p) => cg.primitiveExpr(p)
      case ArrayOf(element) => cg.arrayExpr(SpineRender(element, cg))
      case Identifier(id) => cg.identifierExpr(id);
    match t.kind {
      case ArrayOf(element) =>
        assert inner == Wraps(element) + [ArrayWrap];
        assert BaseOf(t) == BaseOf(element);
        ApplyWrapsAppend(base, Wraps(element), [ArrayWrap], cg);
        assert ApplyWraps(cg.arrayExpr(ApplyWraps(base, Wraps(element), cg)), [], cg)
            == cg.arrayExpr(ApplyWraps(base, Wraps(element), cg));
      case Primitive(p) =>
        assert inner == [];
        assert BaseOf(t) == PrimitiveBase(p);
      case Identifier(id) =>
        assert inner == [];
        assert BaseOf(t) == IdentifierBase(id);
    }
    assert ApplyWraps(base, inner, cg) == unwrapped;
    if t.nullable {
      ApplyWrapsAppend(base, inner, [OptionalWrap], cg);
      assert ApplyWraps(cg.optionalExpr(ApplyWraps(base, inner, cg)), [], cg)
          == cg.optionalExpr(ApplyWraps(base, inner, cg));
    } else {
      assert Wraps(t) == inner;
    }
  }

  lemma {:induction false} RebuildKind(k: Ir.TypeExprKind)
    ensures Rebuild(KindBase(k), KindWraps(k)) == Ir.TypeExpr(k, false)
    decreases k
  {
    match k {
      case ArrayOf(element) =>
        var ws := Wraps(element) + [ArrayWrap];
        assert ws[..|ws| - 1] == Wraps(element);
        RebuildSpine(element);
      case Primitive(p) =>
      case Identifier(id) =>
    }
  }

  /** The spine determines the type expression: no wrap is lost or merged. */
  lemma {:induction false} RebuildSpine(t: Ir.TypeExpr)
    ensures Rebuild(BaseOf(t), Wraps(t)) == t
    decreases t
  {
    RebuildKind(t.kind);
    var ws := Wraps(t);
    if t.nullable {
      assert ws[..|ws| - 1] == KindWraps(t.kind);
    } else {
      assert ws == KindWraps(t.kind);
    }
  }

  /** Every nullable level yields its own optional wrap; nested ones never collapse. */
  lemma {:induction false} OptionalWrapsCount(t: Ir.TypeExpr)
    ensures CountOptional(Wraps(t)) == NullableLevels(t)
    decreases t
  {
    var inner := KindWraps(t.kind);
    match t.kind {
      case ArrayOf(element) =>
        OptionalWrapsCount(element);
        CountOptionalAppend(Wraps(element), [ArrayWrap]);
      case Primitive(p) =>
      case Identifier(id) =>
    }
    CountOptionalAppend(inner, if t.nullable then [OptionalWrap] else []);
  }
}
