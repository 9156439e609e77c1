# Checked constant declarations in the Sway compiler, in Dafny

This project models `TyConstantDecl`, the type-checked AST node for a
constant declaration in `sway-core`, together with the context-aware
protocols the node implements:

- equality (`PartialEqWithEngines::eq`);
- hashing (`HashWithEngines::hash`);
- naming (`Named::name`) and location (`Spanned::span`);
- three in-place rewrites: type substitution (`subst_inner`), self-type
  replacement (`replace_self_type`) and declaration replacement
  (`replace_decls_inner`).

The node is a record of nine fields (`ConstantDecl.TyConstantDecl`). Each of
its protocols is a rule about which fields take part and how:

- Equality compares every field except `attributes` and `span`. The declared
  type (`return_type`) is compared through the type engine, not by handle.
  An absent `implementing_type` on either side makes the two declarations
  unequal.
- Hashing feeds the same fields in a fixed order, with the declared type
  resolved through the type engine. It feeds the implementing declaration
  only when there is one.
- The two type rewrites touch only `return_type`, `type_ascription` and
  `value`.
- Declaration replacement touches only `value`.

## Modelling choices

- **Collaborators are opaque.** The compiler components a declaration refers
  to are `Collaborators` datatypes with a `repr` payload that only tells
  values apart. These are `TyExpression`, `TypeArgument`, `TypeInfo`,
  `TyDecl`, `TypeSubstMap`, `DeclMapping` and `TypeCheckContext`.
- **Component behaviour is supplied as functions.** Their context-aware
  equality and hashing are function fields of `Collaborators.Engines`. So
  are their substitution, self-type replacement and declaration replacement,
  in `Collaborators.Rewriters`. The laws a property needs are predicates
  named in its `requires`: `ReflexiveEqs`, `SymmetricEqs`, `TransitiveEqs`,
  `HashesAgreeWithEqs` and `ConstantRewrite.RespectsEqs`.
- **The type engine is a finite map.** `Engines.te` is a read-only map from
  handle to type description. A declaration must have a declared-type
  handle in that map (`Resolvable`); the source's lookup does not handle a
  dangling handle.
- **A hash is a token sequence.** It is the sequence of tokens fed to the
  hasher, in order. `CallPath`, `Visibility` and `bool` are hashed by their
  derived `Hash`, modelled as one token each.
- **Optional initializers follow the compiler's `Option` impls.** Their
  equality and hashing go through the generic `Option` implementations of
  the engine-threading traits. Those are outside
  `sway-core/src/language/ty/declaration/constant.rs` and are modelled as
  `Collaborators.ValueEq` and `Collaborators.ValueHash`:
  - two absent values are equal;
  - two present values are compared;
  - an absent value hashes as one zero byte;
  - a present value hashes as the expression does.
- **In-place rewrites return the updated record.** Each `&mut self` rewrite
  is a function that returns the rewritten declaration.
  - `ReplaceDeclsInner` also returns the diagnostic handler and the
    `Result<(), ErrorEmitted>`.
  - The initializer's replacement yields a rewritten expression, a handler
    and a result. The node takes the expression and passes the other two
    through.
- **The two type rewrites share one function.** Type substitution and
  self-type replacement have the same shape, so both are instances of
  `ConstantRewrite.RewriteTypes`.
- **Identifiers are their text.** `Ident` is modelled by its text, which is
  what identifiers compare and hash by.
- **Fields are enumerated.** The field schema (`ConstantDecl.Field`, `Get`,
  `AgreeOutside`) lets rules such as "differ only in attributes and span"
  and "nothing else changes" be stated field by field.
  `AgreeEverywhereIsEquality` shows that the schema covers the whole record.

### Free-standing constants are never equal

One might expect two checks of `A::B::X: u64 = 5` from identical text to
compare equal. In the code, a free-standing constant
(no `implementing_type`) compares unequal to everything, itself included.
This happens even though the type is marked `EqWithEngines` (line 28).

The model follows the code:
- `FreeStandingNeverEqual` and `EqReflexiveIffAssociated` state the rule.
- `Scenarios.FreeStandingTwinsHashAlikeButDiffer` shows it on that constant.
- `Scenarios.AssociatedTwinsEqualAcrossHandles` shows that the associated
  version of the same constant is equal across two handles of `u64`.

## Model

| member | source | states |
|---|---|---|
| ConstantDecl.AgreeEverywhereIsEquality | sway-core/src/language/ty/declaration/constant.rs:16-26 | the nine fields are the whole declaration: agreeing on all of them is being the same declaration |
| ConstantDecl.Name | sway-core/src/language/ty/declaration/constant.rs:76-78 | the name is the last segment of the fully-qualified call path, and the path is its prefixes followed by the name |
| ConstantEq.Eq | sway-core/src/language/ty/declaration/constant.rs:30-44 | equal declarations both have an implementing declaration and declare the same name |
| ConstantEq.EqIsFieldwise | sway-core/src/language/ty/declaration/constant.rs:30-44 | equality holds exactly when every non-provenance field agrees under its own comparison. Handles agree when they resolve to equal types. Implementing declarations agree only when both are present and equal |
| ConstantEq.EqIgnoresProvenance | sway-core/src/language/ty/declaration/constant.rs:30-44 | two declarations differing only in attributes and span compare the same against any third, on either side |
| ConstantEq.FreeStandingNeverEqual | sway-core/src/language/ty/declaration/constant.rs:40-43 | if either side lacks an implementing declaration the two are unequal in both orders, so a free-standing constant is not equal to itself |
| ConstantEq.EqReflexiveIffAssociated | sway-core/src/language/ty/declaration/constant.rs:28-43 | with reflexive components, a declaration equals itself exactly when it has an implementing declaration |
| ConstantEq.EqComparesResolvedReturnTypes | sway-core/src/language/ty/declaration/constant.rs:37-39 | declarations differing only in the declared-type handle are equal exactly when the handles resolve to equal types; identical raw handles are not needed |
| ConstantEq.EqSymmetric | sway-core/src/language/ty/declaration/constant.rs:30-44 | equality is symmetric when the component equalities are |
| ConstantEq.EqTransitive | sway-core/src/language/ty/declaration/constant.rs:30-44 | equality is transitive when the component equalities are |
| ConstantHash.Hash | sway-core/src/language/ty/declaration/constant.rs:48-72 | the call path is the first thing fed to the hasher |
| ConstantHash.HashOrder | sway-core/src/language/ty/declaration/constant.rs:50-71 | the fields fed are distinct and never attributes or span |
| ConstantHash.HashOrderCoversIdentity | sway-core/src/language/ty/declaration/constant.rs:50-71 | every field except attributes and span is fed; the implementing declaration is fed exactly when present |
| ConstantHash.FeedFixedOrder | sway-core/src/language/ty/declaration/constant.rs:63-68 | the six fixed fields are fed in the order call path, value, visibility, resolved declared type, type ascription, configurable flag |
| ConstantHash.HashFeedsFieldsInOrder | sway-core/src/language/ty/declaration/constant.rs:63-71 | the hash is exactly the field-by-field feed of those fields in that order |
| ConstantHash.HashOfFreeStanding | sway-core/src/language/ty/declaration/constant.rs:63-71 | without an implementing declaration the hash is just the six fixed fields in order |
| ConstantHash.HashWithImplementingType | sway-core/src/language/ty/declaration/constant.rs:69-71 | with an implementing declaration the hash is the free-standing hash followed by that declaration's tokens |
| ConstantHash.HashIgnoresProvenance | sway-core/src/language/ty/declaration/constant.rs:58-62 | two declarations differing only in attributes and span hash alike |
| ConstantHash.EqImpliesSameHash | sway-core/src/language/ty/declaration/constant.rs:30-72 | equal declarations hash alike, given that each component's equality implies an equal hash |
| ConstantRewrite.RewriteTypes | sway-core/src/language/ty/declaration/constant.rs:87-105 | a type rewrite changes nothing outside the declared type, the written type and the initializer, and keeps an absent initializer absent |
| ConstantRewrite.SubstInner | sway-core/src/language/ty/declaration/constant.rs:88-94 | substitution keeps call path, visibility, configurable flag, attributes, span and implementing declaration; an absent initializer stays absent |
| ConstantRewrite.ReplaceSelfType | sway-core/src/language/ty/declaration/constant.rs:98-104 | self-type replacement keeps the same fields and keeps an absent initializer absent |
| ConstantRewrite.RewriteFixesIff | sway-core/src/language/ty/declaration/constant.rs:87-105 | a type rewrite leaves a declaration unchanged exactly when it leaves each rewritten component unchanged |
| ConstantRewrite.SelfTypeNoOpWhenAbsent | sway-core/src/language/ty/declaration/constant.rs:98-104 | self-type replacement is a no-op when the placeholder occurs in none of the rewritten components |
| ConstantRewrite.RewritePreservesEq | sway-core/src/language/ty/declaration/constant.rs:87-105 | a type rewrite whose components keep handles resolvable and respect equality maps equal declarations to equal declarations |
| ConstantRewrite.ReplaceDeclsInner | sway-core/src/language/ty/declaration/constant.rs:108-119 | with no initializer: `Ok(())`, declaration and handler unchanged. Otherwise only the initializer changes, and the handler and result are the initializer's, passed up unchanged. An error or a report implies an initializer |
| ConstantRewrite.RewritesKeepDiagnosticAnchor | sway-core/src/language/ty/declaration/constant.rs:76-119 | none of the three rewrites changes the name or the span |
| Scenarios.FreeStandingTwinsHashAlikeButDiffer | sway-core/src/language/ty/declaration/constant.rs:40-43 | `A::B::X: u64 = 5` checked twice gives identical declarations that hash alike but are unequal |
| Scenarios.AssociatedTwinsEqualAcrossHandles | sway-core/src/language/ty/declaration/constant.rs:37-43 | associated, the same constant is equal and hashes alike across two distinct `u64` handles with different attributes and spans |

## Left out

- The type engine's and declaration engine's storage and interning: the type engine is a read-only map, and the declaration engine appears only behind `DeclMapping`.
- The internals of `TyExpression`, `TypeArgument`, `TyDecl`, `TypeInfo` and `TypeSubstMap`, and their own equality, hashing, substitution, self-type replacement and declaration replacement. These are defined elsewhere and enter as functions, constrained only by the stated laws.
- The `Hasher` state machine and real hash values: a hash is the token sequence fed. Collisions between distinct token sequences are not modelled.
- How the handler emits diagnostics and what `TypeCheckContext` holds. Both are effectful or foreign. The handler is the list of reported diagnostics; the context is an opaque value passed through.
- Composition and idempotence of substitution. They depend on the component substitutions, which are not part of this model. The same goes for "exactly one diagnostic per unresolved reference", a property of the initializer's own replacement.
- The caller discipline of not re-reporting an `ErrorEmitted`. It belongs to callers further up the tree.
- The derived `Clone` and `Debug` implementations: they add no behaviour of interest.
- `ConstantDecl.SpanOf`: `Spanned::span` clones the stored span. Its only property here is that the rewrites keep it, stated in `RewritesKeepDiagnosticAnchor`.
