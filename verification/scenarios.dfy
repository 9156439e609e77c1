/**
  Two concrete situations: the constant `A::B::X: u64 = 5` checked twice from
  the same text, and the same constant associated with an impl and checked
  against two independently allocated `u64` handles.
 */
module Scenarios {
  import opened Prelude
  import opened Collaborators
  import opened ConstantDecl
  import opened ConstantEq
  import opened ConstantHash

  const U64: TypeInfo := TypeInfo(64)

  /** A type engine holding `u64` behind two handles, with structural component equality. */
  function TwoSessionEngines(): (e: Engines)
    ensures TypeId(0) in e.te && TypeId(1) in e.te && e.te[TypeId(0)] == e.te[TypeId(1)]
    ensures ReflexiveEqs(e) && SymmetricEqs(e) && TransitiveEqs(e) && HashesAgreeWithEqs(e)
  {
    Engines(
      map[TypeId(0) := U64, TypeId(1) := U64],
      (s: TypeInfo, t: TypeInfo) => s == t, (s: TypeInfo) => [Word(s.repr)],
      (x: TyExpression, y: TyExpression) => x == y, (x: TyExpression) => [Word(x.repr)],
      (x: TypeArgument, y: TypeArgument) => x == y, (x: TypeArgument) => [Word(x.repr)],
      (d: TyDecl, g: TyDecl) => d == g, (d: TyDecl) => [Word(d.repr)])
  }

  function ConstantX(handle: TypeId, implementing: Option<TyDecl>, attrs: AttributesMap, span: Span): TyConstantDecl
  {
    TyConstantDecl(
      CallPath([Ident("A"), Ident("B")], Ident("X"), false),
      Some(TyExpression(5)),
      Private,
      false,
      attrs,
      handle,
      TypeArgument(64),
      span,
      implementing)
  }

  /**
    Checked twice from the same text, the free-standing constant yields two
    identical declarations that hash alike but do not compare equal.
   */
  lemma FreeStandingTwinsHashAlikeButDiffer()
    ensures var e := TwoSessionEngines();
            var a := ConstantX(TypeId(0), None, AttributesMap(0), Span("lib.sw", 0, 20));
            var b := ConstantX(TypeId(0), None, AttributesMap(0), Span("lib.sw", 0, 20));
            a == b && Hash(a, e) == Hash(b, e) && !Eq(a, b, e)
  {
  }

  /**
    As an associated constant, the two checks are equal and hash alike even
    though their declared-type handles, attributes and spans all differ.
   */
  lemma AssociatedTwinsEqualAcrossHandles()
    ensures var e := TwoSessionEngines();
            var a := ConstantX(TypeId(0), Some(TyDecl(1)), AttributesMap(0), Span("lib.sw", 0, 20));
            var b := ConstantX(TypeId(1), Some(TyDecl(1)), AttributesMap(3), Span("lib.sw", 40, 60));
            a.returnType != b.returnType && Eq(a, b, e) && Hash(a, e) == Hash(b, e)
  {
  }
}
