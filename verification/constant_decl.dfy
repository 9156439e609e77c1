/**
  The checked-AST node for a constant declaration, its field schema, and the
  two accessors diagnostics use (`name` and `span`).
 */
module ConstantDecl {
  import opened Prelude
  import opened Collaborators

  /**
    A type-checked constant declaration. `value` is absent for a constant
    declared without a body; `implementingType` is present only for an
    associated constant, and names the declaration it belongs to.
   */
  datatype TyConstantDecl = TyConstantDecl(
    callPath: CallPath,
    value: Option<TyExpression>,
    visibility: Visibility,
    isConfigurable: bool,
    attributes: AttributesMap,
    returnType: TypeId,
    typeAscription: TypeArgument,
    span: Span,
    implementingType: Option<TyDecl>)

  /** The declared type's handle can be resolved through the type engine. */
  predicate Resolvable(n: TyConstantDecl, te: map<TypeId, TypeInfo>)
  {
    n.returnType in te
  }

  /** The declared name: the last segment of the fully-qualified path. */
  function Name(n: TyConstantDecl): (r: Ident)
    ensures r == Segments(n.callPath)[|Segments(n.callPath)| - 1]
    ensures Segments(n.callPath) == n.callPath.prefixes + [r]
  {
    n.callPath.suffix
  }

  /** The source location diagnostics about this declaration point at. */
  function SpanOf(n: TyConstantDecl): Span
  {
    n.span
  }

  // The field schema: which fields a declaration has, so that rules about
  // which fields take part in a protocol can be stated field by field.

  datatype Field =
    | CallPathField
    | ValueField
    | VisibilityField
    | IsConfigurableField
    | AttributesField
    | ReturnTypeField
    | TypeAscriptionField
    | SpanField
    | ImplementingTypeField

  /** The content of one field, tagged by its kind. */
  datatype FieldValue =
    | PathValue(path: CallPath)
    | ExprValue(expr: Option<TyExpression>)
    | VisibilityValue(visibility: Visibility)
    | FlagValue(flag: bool)
    | AttributesValue(attributes: AttributesMap)
    | TypeIdValue(id: TypeId)
    | ArgValue(arg: TypeArgument)
    | SpanValue(span: Span)
    | DeclValue(decl: Option<TyDecl>)

  function Get(n: TyConstantDecl, f: Field): FieldValue
  {
    match f
    case CallPathField => PathValue(n.callPath)
    case ValueField => ExprValue(n.value)
    case VisibilityField => VisibilityValue(n.visibility)
    case IsConfigurableField => FlagValue(n.isConfigurable)
    case AttributesField => AttributesValue(n.attributes)
    case ReturnTypeField => TypeIdValue(n.returnType)
    case TypeAscriptionField => ArgValue(n.typeAscription)
    case SpanField => SpanValue(n.span)
    case ImplementingTypeField => DeclValue(n.implementingType)
  }

  /** Fields that record where a declaration came from, not what it is. */
  const ProvenanceFields: set<Field> := {AttributesField, SpanField}

  /** `a` and `b` hold the same content in every field outside `fs`. */
  ghost predicate AgreeOutside(a: TyConstantDecl, b: TyConstantDecl, fs: set<Field>)
  {
    forall f :: f !in fs ==> Get(a, f) == Get(b, f)
  }

  /** Agreement outside `fs`, spelled out record field by record field. */
  lemma AgreeOutsideFields(a: TyConstantDecl, b: TyConstantDecl, fs: set<Field>)
    requires AgreeOutside(a, b, fs)
    ensures CallPathField !in fs ==> a.callPath == b.callPath
    ensures ValueField !in fs ==> a.value == b.value
    ensures VisibilityField !in fs ==> a.visibility == b.visibility
    ensures IsConfigurableField !in fs ==> a.isConfigurable == b.isConfigurable
    ensures AttributesField !in fs ==> a.attributes == b.attributes
    ensures ReturnTypeField !in fs ==> a.returnType == b.returnType
    ensures TypeAscriptionField !in fs ==> a.typeAscription == b.typeAscription
    ensures SpanField !in fs ==> a.span == b.span
    ensures ImplementingTypeField !in fs ==> a.implementingType == b.implementingType
  {
  }

  /** The schema is complete: agreeing on every field is being the same declaration. */
  lemma AgreeEverywhereIsEquality(a: TyConstantDecl, b: TyConstantDecl)
    ensures AgreeOutside(a, b, {}) <==> a == b
  {
    if AgreeOutside(a, b, {}) {
      AgreeOutsideFields(a, b, {});
    }
  }
}
