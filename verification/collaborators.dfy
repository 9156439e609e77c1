/**
  The compiler components a checked constant declaration refers to but does
  not define. Their internals are not part of this model: each opaque entity
  carries a `repr` payload that only tells values apart, and every behaviour
  the declaration relies on (context-aware equality and hashing, type
  substitution, self-type replacement, declaration replacement) is a function
  supplied in an `Engines` or `Rewriters` record, constrained only by the laws
  stated as predicates at the end of this module.
 */
module Collaborators {
  import opened Prelude

  /** An identifier; identifiers compare and hash by their text. */
  datatype Ident = Ident(text: string)

  /** A fully-qualified path `prefix::...::suffix`, with derived equality and hashing. */
  datatype CallPath = CallPath(prefixes: seq<Ident>, suffix: Ident, isAbsolute: bool)

  /** The segments of a path, outermost first; the last one is the suffix. */
  function Segments(p: CallPath): (r: seq<Ident>)
    ensures |r| == |p.prefixes| + 1
    ensures r[..|p.prefixes|] == p.prefixes
  {
    p.prefixes + [p.suffix]
  }

  datatype Visibility = Private | Public

  /** Source-level annotations (`#[...]`) attached to a declaration. */
  datatype AttributesMap = AttributesMap(repr: nat)

  /** A source location. */
  datatype Span = Span(source: string, start: nat, end: nat)

  /** A handle into the type engine. Handles are never compared directly. */
  datatype TypeId = TypeId(index: nat)

  /** The structural description of a type, as stored in the type engine. */
  datatype TypeInfo = TypeInfo(repr: nat)

  /** A checked expression (a constant's initializer). */
  datatype TyExpression = TyExpression(repr: nat)

  /** A type as written by the user: a handle plus its written form and location. */
  datatype TypeArgument = TypeArgument(repr: nat)

  /** A checked declaration (the trait, struct or impl an associated constant belongs to). */
  datatype TyDecl = TyDecl(repr: nat)

  /** A mapping from type parameters to concrete types. */
  datatype TypeSubstMap = TypeSubstMap(repr: nat)

  /** A mapping from abstract declaration references to resolved declarations. */
  datatype DeclMapping = DeclMapping(repr: nat)

  /** The type-checking scope; read-only for the protocols modelled here. */
  datatype TypeCheckContext = TypeCheckContext(repr: nat)

  /** A user-visible diagnostic. */
  datatype Diagnostic = Diagnostic(repr: nat)

  /** The diagnostic handler: the diagnostics reported so far, in order. */
  datatype Handler = Handler(diagnostics: seq<Diagnostic>)

  /** The token proving that a diagnostic has already been reported. */
  datatype ErrorEmitted = ErrorEmitted

  /**
    One item fed to a hasher. A hash is modelled as the sequence of items fed,
    in order; real hash values (and their collisions) are not modelled.
   */
  datatype Token =
    | PathToken(path: CallPath)
    | VisibilityToken(visibility: Visibility)
    | BoolToken(flag: bool)
    | ByteToken(byte: nat)
    | Word(word: nat)

  /**
    The engines facade at one point in time: the type engine, as a read-only
    map from handle to type description, together with the context-aware
    equality and hashing of the components a constant declaration holds.
   */
  datatype Engines = Engines(
    te: map<TypeId, TypeInfo>,
    infoEq: (TypeInfo, TypeInfo) -> bool,
    infoHash: TypeInfo -> seq<Token>,
    exprEq: (TyExpression, TyExpression) -> bool,
    exprHash: TyExpression -> seq<Token>,
    argEq: (TypeArgument, TypeArgument) -> bool,
    argHash: TypeArgument -> seq<Token>,
    declEq: (TyDecl, TyDecl) -> bool,
    declHash: TyDecl -> seq<Token>)

  /** What replacing declarations inside an expression yields: the rewritten
      expression, the handler after any report, and the outcome. */
  datatype DeclReplacement = DeclReplacement(
    expr: TyExpression,
    handler: Handler,
    result: Result<(), ErrorEmitted>)

  /** The in-place rewrites of the components, as functions returning the rewritten value. */
  datatype Rewriters = Rewriters(
    substTypeId: (TypeId, TypeSubstMap) -> TypeId,
    substArg: (TypeArgument, TypeSubstMap) -> TypeArgument,
    substExpr: (TyExpression, TypeSubstMap) -> TyExpression,
    selfTypeId: (TypeId, TypeId) -> TypeId,
    selfArg: (TypeArgument, TypeId) -> TypeArgument,
    selfExpr: (TyExpression, TypeId) -> TyExpression,
    replaceDecls: (TyExpression, DeclMapping, Handler, TypeCheckContext) -> DeclReplacement)

  /** Context-aware equality of an optional initializer: two absent values are
      equal, two present ones are compared, a present and an absent one differ. */
  function ValueEq(a: Option<TyExpression>, b: Option<TyExpression>, e: Engines): bool
  {
    match (a, b)
    case (None, None) => true
    case (Some(x), Some(y)) => e.exprEq(x, y)
    case _ => false
  }

  /** What hashing an absent value feeds: a single zero byte. */
  const NoneTag: Token := ByteToken(0)

  /** Context-aware hashing of an optional initializer. */
  function ValueHash(v: Option<TyExpression>, e: Engines): seq<Token>
  {
    match v
    case None => [NoneTag]
    case Some(x) => e.exprHash(x)
  }

  // Laws assumed of the components. Each property of the declaration that
  // depends on its components names the law it needs in its `requires`.

  ghost predicate ReflexiveEqs(e: Engines)
  {
    && (forall s :: e.infoEq(s, s))
    && (forall x :: e.exprEq(x, x))
    && (forall x :: e.argEq(x, x))
    && (forall d :: e.declEq(d, d))
  }

  ghost predicate SymmetricEqs(e: Engines)
  {
    && (forall s, t :: e.infoEq(s, t) == e.infoEq(t, s))
    && (forall x, y :: e.exprEq(x, y) == e.exprEq(y, x))
    && (forall x, y :: e.argEq(x, y) == e.argEq(y, x))
    && (forall d, g :: e.declEq(d, g) == e.declEq(g, d))
  }

  ghost predicate TransitiveEqs(e: Engines)
  {
    && (forall s, t, u :: e.infoEq(s, t) && e.infoEq(t, u) ==> e.infoEq(s, u))
    && (forall x, y, z :: e.exprEq(x, y) && e.exprEq(y, z) ==> e.exprEq(x, z))
    && (forall x, y, z :: e.argEq(x, y) && e.argEq(y, z) ==> e.argEq(x, z))
    && (forall d, g, k :: e.declEq(d, g) && e.declEq(g, k) ==> e.declEq(d, k))
  }

  /** Each component's equality implies an equal hash. */
  ghost predicate HashesAgreeWithEqs(e: Engines)
  {
    && (forall s, t :: e.infoEq(s, t) ==> e.infoHash(s) == e.infoHash(t))
    && (forall x, y :: e.exprEq(x, y) ==> e.exprHash(x) == e.exprHash(y))
    && (forall x, y :: e.argEq(x, y) ==> e.argHash(x) == e.argHash(y))
    && (forall d, g :: e.declEq(d, g) ==> e.declHash(d) == e.declHash(g))
  }
}
