/**
  Context-aware equality of constant declarations (`PartialEqWithEngines`).
  The declared type is compared through the type engine, never by handle, and
  two declarations are equal only when both are associated with an
  implementing declaration and those are equal.
 */
module ConstantEq {
  import opened Prelude
  import opened Collaborators
  import opened ConstantDecl

  function Eq(a: TyConstantDecl, b: TyConstantDecl, e: Engines): (r: bool)
    requires Resolvable(a, e.te) && Resolvable(b, e.te)
    ensures r ==> a.implementingType.Some? && b.implementingType.Some?
    ensures r ==> Name(a) == Name(b)
  {
    && a.callPath == b.callPath
    && ValueEq(a.value, b.value, e)
    && a.visibility == b.visibility
    && e.argEq(a.typeAscription, b.typeAscription)
    && a.isConfigurable == b.isConfigurable
    && e.infoEq(e.te[a.returnType], e.te[b.returnType])
    && (match (a.implementingType, b.implementingType)
        case (Some(x), Some(y)) => e.declEq(x, y)
        case _ => false)
  }

  /**
    How two field contents of the same kind are compared: paths, visibility
    and flags by value; initializers, written types and implementing
    declarations by their context-aware equality; type handles by the types
    they resolve to; provenance not at all. An absent implementing
    declaration agrees with nothing, not even another absent one.
   */
  predicate ValuesAgree(x: FieldValue, y: FieldValue, e: Engines)
  {
    match (x, y)
    case (PathValue(p), PathValue(q)) => p == q
    case (ExprValue(v), ExprValue(w)) => ValueEq(v, w, e)
    case (VisibilityValue(v), VisibilityValue(w)) => v == w
    case (FlagValue(v), FlagValue(w)) => v == w
    case (AttributesValue(_), AttributesValue(_)) => true
    case (TypeIdValue(h), TypeIdValue(k)) => h in e.te && k in e.te && e.infoEq(e.te[h], e.te[k])
    case (ArgValue(v), ArgValue(w)) => e.argEq(v, w)
    case (SpanValue(_), SpanValue(_)) => true
    case (DeclValue(Some(d)), DeclValue(Some(g))) => e.declEq(d, g)
    case _ => false
  }

  /** Equality is the field-by-field agreement of every non-provenance field. */
  lemma EqIsFieldwise(a: TyConstantDecl, b: TyConstantDecl, e: Engines)
    requires Resolvable(a, e.te) && Resolvable(b, e.te)
    ensures Eq(a, b, e) <==> forall f :: f !in ProvenanceFields ==> ValuesAgree(Get(a, f), Get(b, f), e)
  {
    if Eq(a, b, e) {
      forall f | f !in ProvenanceFields
        ensures ValuesAgree(Get(a, f), Get(b, f), e)
      {
        match f
        case ImplementingTypeField =>
          assert ValuesAgree(DeclValue(a.implementingType), DeclValue(b.implementingType), e);
        case _ =>
      }
    }
    if forall f :: f !in ProvenanceFields ==> ValuesAgree(Get(a, f), Get(b, f), e) {
      assert ValuesAgree(Get(a, CallPathField), Get(b, CallPathField), e);
      assert ValuesAgree(Get(a, ValueField), Get(b, ValueField), e);
      assert ValuesAgree(Get(a, VisibilityField), Get(b, VisibilityField), e);
      assert ValuesAgree(Get(a, TypeAscriptionField), Get(b, TypeAscriptionField), e);
      assert ValuesAgree(Get(a, IsConfigurableField), Get(b, IsConfigurableField), e);
      assert ValuesAgree(Get(a, ReturnTypeField), Get(b, ReturnTypeField), e);
      assert ValuesAgree(Get(a, ImplementingTypeField), Get(b, ImplementingTypeField), e);
    }
  }

  /** Two declarations differing only in attributes and span compare alike against any third. */
  lemma EqIgnoresProvenance(a: TyConstantDecl, a': TyConstantDecl, c: TyConstantDecl, e: Engines)
    requires Resolvable(a, e.te) && Resolvable(c, e.te)
    requires AgreeOutside(a, a', ProvenanceFields)
    ensures Resolvable(a', e.te)
    ensures Eq(a, c, e) == Eq(a', c, e)
    ensures Eq(c, a, e) == Eq(c, a', e)
  {
    AgreeOutsideFields(a, a', ProvenanceFields);
  }

  /** A declaration with no implementing declaration equals nothing, not even itself. */
  lemma FreeStandingNeverEqual(a: TyConstantDecl, b: TyConstantDecl, e: Engines)
    requires Resolvable(a, e.te) && Resolvable(b, e.te)
    requires a.implementingType.None? || b.implementingType.None?
    ensures !Eq(a, b, e) && !Eq(b, a, e)
    ensures !Eq(a, a, e) || !Eq(b, b, e)
  {
  }

  /** With reflexive components, a declaration equals itself exactly when it has an implementing declaration. */
  lemma EqReflexiveIffAssociated(n: TyConstantDecl, e: Engines)
    requires Resolvable(n, e.te)
    requires ReflexiveEqs(e)
    ensures Eq(n, n, e) <==> n.implementingType.Some?
  {
  }

  /**
    The declared type takes part through the type engine: two declarations
    that differ only in the handle of their declared type are equal exactly
    when the handles resolve to equal types, whatever the raw handles are.
   */
  lemma EqComparesResolvedReturnTypes(a: TyConstantDecl, b: TyConstantDecl, e: Engines)
    requires Resolvable(a, e.te) && Resolvable(b, e.te)
    requires ReflexiveEqs(e)
    requires AgreeOutside(a, b, {ReturnTypeField})
    requires a.implementingType.Some?
    ensures Eq(a, b, e) <==> e.infoEq(e.te[a.returnType], e.te[b.returnType])
  {
    AgreeOutsideFields(a, b, {ReturnTypeField});
  }

  /** Equality is symmetric when each component's equality is. */
  lemma EqSymmetric(a: TyConstantDecl, b: TyConstantDecl, e: Engines)
    requires Resolvable(a, e.te) && Resolvable(b, e.te)
    requires SymmetricEqs(e)
    ensures Eq(a, b, e) == Eq(b, a, e)
  {
  }

  /** Equality is transitive when each component's equality is. */
  lemma EqTransitive(a: TyConstantDecl, b: TyConstantDecl, c: TyConstantDecl, e: Engines)
    requires Resolvable(a, e.te) && Resolvable(b, e.te) && Resolvable(c, e.te)
    requires TransitiveEqs(e)
    requires Eq(a, b, e) && Eq(b, c, e)
    ensures Eq(a, c, e)
  {
  }
}
