/**
  The three in-place rewrites of a constant declaration: type substitution
  (`SubstTypes`), self-type replacement (`ReplaceSelfType`) and declaration
  replacement (`ReplaceDecls`). Each is modelled as a function returning the
  rewritten declaration.
 */
module ConstantRewrite {
  import opened Prelude
  import opened Collaborators
  import opened ConstantDecl
  import opened ConstantEq

  /** The fields a type rewrite may change. */
  const RewrittenFields: set<Field> := {ReturnTypeField, TypeAscriptionField, ValueField}

  /** A rewrite of the type references inside a declaration's components. */
  datatype TypeRewrite = TypeRewrite(
    onTypeId: TypeId -> TypeId,
    onArg: TypeArgument -> TypeArgument,
    onExpr: TyExpression -> TyExpression)

  /**
    The shape both type rewrites share: the declared type's handle, the
    written type and the initializer (when there is one) are rewritten by the
    component rewrites; every other field is left alone.
   */
  function RewriteTypes(n: TyConstantDecl, t: TypeRewrite): (r: TyConstantDecl)
    ensures AgreeOutside(r, n, RewrittenFields)
    ensures r.value.None? <==> n.value.None?
  {
    n.(returnType := t.onTypeId(n.returnType),
       typeAscription := t.onArg(n.typeAscription),
       value := match n.value
                case Some(x) => Some(t.onExpr(x))
                case None => None)
  }

  function SubstRewrite(m: TypeSubstMap, rw: Rewriters): TypeRewrite
  {
    TypeRewrite(id => rw.substTypeId(id, m), arg => rw.substArg(arg, m), x => rw.substExpr(x, m))
  }

  function SelfTypeRewrite(selfType: TypeId, rw: Rewriters): TypeRewrite
  {
    TypeRewrite(id => rw.selfTypeId(id, selfType), arg => rw.selfArg(arg, selfType), x => rw.selfExpr(x, selfType))
  }

  /** Substituting the types of `m` into the declaration. */
  function SubstInner(n: TyConstantDecl, m: TypeSubstMap, rw: Rewriters): (r: TyConstantDecl)
    ensures AgreeOutside(r, n, RewrittenFields)
    ensures r.value.None? <==> n.value.None?
  {
    RewriteTypes(n, SubstRewrite(m, rw))
  }

  /** Replacing the self-type placeholder by `selfType` throughout the declaration. */
  function ReplaceSelfType(n: TyConstantDecl, selfType: TypeId, rw: Rewriters): (r: TyConstantDecl)
    ensures AgreeOutside(r, n, RewrittenFields)
    ensures r.value.None? <==> n.value.None?
  {
    RewriteTypes(n, SelfTypeRewrite(selfType, rw))
  }

  /** A type rewrite leaves the declaration as it is exactly when it leaves each rewritten component as it is. */
  lemma RewriteFixesIff(n: TyConstantDecl, t: TypeRewrite)
    ensures RewriteTypes(n, t) == n <==>
              && t.onTypeId(n.returnType) == n.returnType
              && t.onArg(n.typeAscription) == n.typeAscription
              && (n.value.Some? ==> t.onExpr(n.value.value) == n.value.value)
  {
  }

  /** Self-type replacement is a no-op when the placeholder occurs in none of the rewritten components. */
  lemma SelfTypeNoOpWhenAbsent(n: TyConstantDecl, selfType: TypeId, rw: Rewriters)
    requires rw.selfTypeId(n.returnType, selfType) == n.returnType
    requires rw.selfArg(n.typeAscription, selfType) == n.typeAscription
    requires n.value.Some? ==> rw.selfExpr(n.value.value, selfType) == n.value.value
    ensures ReplaceSelfType(n, selfType, rw) == n
  {
  }

  /**
    The component rewrites keep handles resolvable and respect the
    components' equality: equal inputs give equal outputs.
   */
  ghost predicate RespectsEqs(t: TypeRewrite, e: Engines)
  {
    && (forall h :: h in e.te ==> t.onTypeId(h) in e.te)
    && (forall h, k :: h in e.te && k in e.te && e.infoEq(e.te[h], e.te[k])
          ==> t.onTypeId(h) in e.te && t.onTypeId(k) in e.te
              && e.infoEq(e.te[t.onTypeId(h)], e.te[t.onTypeId(k)]))
    && (forall x, y :: e.argEq(x, y) ==> e.argEq(t.onArg(x), t.onArg(y)))
    && (forall x, y :: e.exprEq(x, y) ==> e.exprEq(t.onExpr(x), t.onExpr(y)))
  }

  /** A rewrite whose components respect equality maps equal declarations to equal declarations. */
  lemma RewritePreservesEq(a: TyConstantDecl, b: TyConstantDecl, t: TypeRewrite, e: Engines)
    requires Resolvable(a, e.te) && Resolvable(b, e.te)
    requires RespectsEqs(t, e)
    requires Eq(a, b, e)
    ensures Resolvable(RewriteTypes(a, t), e.te) && Resolvable(RewriteTypes(b, t), e.te)
    ensures Eq(RewriteTypes(a, t), RewriteTypes(b, t), e)
  {
    var a', b' := RewriteTypes(a, t), RewriteTypes(b, t);
    assert e.infoEq(e.te[a'.returnType], e.te[b'.returnType]);
    assert e.argEq(a'.typeAscription, b'.typeAscription);
    assert ValueEq(a'.value, b'.value, e) by {
      if a.value.Some? {
        assert e.exprEq(a.value.value, b.value.value);
      }
    }
  }

  /** What declaration replacement yields: the rewritten declaration, the handler, and the outcome. */
  datatype DeclsReplaced = DeclsReplaced(
    node: TyConstantDecl,
    handler: Handler,
    result: Result<(), ErrorEmitted>)

  /**
    Replacing declaration references with the resolved declarations of `m`.
    Only the initializer can hold such references; a declaration without one
    is left as it is and succeeds. Otherwise the initializer's own replacement
    decides the outcome, and its error token is passed up unchanged: this
    layer reports nothing of its own.
   */
  function ReplaceDeclsInner(n: TyConstantDecl, m: DeclMapping, h: Handler, ctx: TypeCheckContext, rw: Rewriters)
    : (r: DeclsReplaced)
    ensures AgreeOutside(r.node, n, {ValueField})
    ensures r.node.value.None? <==> n.value.None?
    ensures n.value.None? ==> r == DeclsReplaced(n, h, Ok(()))
    ensures r.result.Err? || r.handler != h ==> n.value.Some?
    ensures n.value.Some? ==>
              var inner := rw.replaceDecls(n.value.value, m, h, ctx);
              r.node.value == Some(inner.expr) && r.handler == inner.handler && r.result == inner.result
  {
    match n.value
    case Some(x) =>
      var inner := rw.replaceDecls(x, m, h, ctx);
      DeclsReplaced(n.(value := Some(inner.expr)), inner.handler, inner.result)
    case None =>
      DeclsReplaced(n, h, Ok(()))
  }

  /**
    None of the three rewrites moves the name or the span a diagnostic about
    the declaration points at.
   */
  lemma RewritesKeepDiagnosticAnchor(n: TyConstantDecl, m: TypeSubstMap, selfType: TypeId, dm: DeclMapping,
                                     h: Handler, ctx: TypeCheckContext, rw: Rewriters)
    ensures Name(SubstInner(n, m, rw)) == Name(n) && SpanOf(SubstInner(n, m, rw)) == SpanOf(n)
    ensures Name(ReplaceSelfType(n, selfType, rw)) == Name(n) && SpanOf(ReplaceSelfType(n, selfType, rw)) == SpanOf(n)
    ensures Name(ReplaceDeclsInner(n, dm, h, ctx, rw).node) == Name(n)
    ensures SpanOf(ReplaceDeclsInner(n, dm, h, ctx, rw).node) == SpanOf(n)
  {
  }
}
