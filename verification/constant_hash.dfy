/**
  Context-aware hashing of constant declarations (`HashWithEngines`). A hash
  is the sequence of tokens fed to the hasher: the identity fields in a fixed
  order, the declared type as resolved through the type engine, and the
  implementing declaration only when there is one. Attributes and span are
  never fed.
 */
module ConstantHash {
  import opened Prelude
  import opened Collaborators
  import opened ConstantDecl
  import opened ConstantEq

  function Hash(n: TyConstantDecl, e: Engines): (r: seq<Token>)
    requires Resolvable(n, e.te)
    ensures |r| > 0 && r[0] == PathToken(n.callPath)
  {
    [PathToken(n.callPath)]
    + ValueHash(n.value, e)
    + [VisibilityToken(n.visibility)]
    + e.infoHash(e.te[n.returnType])
    + e.argHash(n.typeAscription)
    + [BoolToken(n.isConfigurable)]
    + (match n.implementingType
       case Some(d) => e.declHash(d)
       case None => [])
  }

  /** The tokens one field contributes on its own. Provenance fields contribute none. */
  function FieldTokens(f: Field, n: TyConstantDecl, e: Engines): seq<Token>
    requires Resolvable(n, e.te)
    requires f !in ProvenanceFields
  {
    match f
    case CallPathField => [PathToken(n.callPath)]
    case ValueField => ValueHash(n.value, e)
    case VisibilityField => [VisibilityToken(n.visibility)]
    case IsConfigurableField => [BoolToken(n.isConfigurable)]
    case ReturnTypeField => e.infoHash(e.te[n.returnType])
    case TypeAscriptionField => e.argHash(n.typeAscription)
    case ImplementingTypeField =>
      (match n.implementingType
       case Some(d) => e.declHash(d)
       case None => [])
  }

  /** Feeding the fields `fs` one after another. */
  function Feed(fs: seq<Field>, n: TyConstantDecl, e: Engines): seq<Token>
    requires Resolvable(n, e.te)
    requires forall i :: 0 <= i < |fs| ==> fs[i] !in ProvenanceFields
  {
    if fs == [] then [] else FieldTokens(fs[0], n, e) + Feed(fs[1..], n, e)
  }

  lemma {:induction false} FeedAppend(fs: seq<Field>, gs: seq<Field>, n: TyConstantDecl, e: Engines)
    requires Resolvable(n, e.te)
    requires forall i :: 0 <= i < |fs| ==> fs[i] !in ProvenanceFields
    requires forall i :: 0 <= i < |gs| ==> gs[i] !in ProvenanceFields
    ensures Feed(fs + gs, n, e) == Feed(fs, n, e) + Feed(gs, n, e)
  {
    if fs == [] {
      assert fs + gs == gs;
    } else {
      assert (fs + gs)[1..] == fs[1..] + gs;
      FeedAppend(fs[1..], gs, n, e);
    }
  }

  /** The six fields every declaration feeds, in the order they are fed. */
  const FixedOrder: seq<Field> :=
    [CallPathField, ValueField, VisibilityField, ReturnTypeField, TypeAscriptionField, IsConfigurableField]

  /** The fields a declaration feeds: the fixed six, then the implementing declaration if present. */
  function HashOrder(n: TyConstantDecl): (r: seq<Field>)
    ensures forall f :: f in r ==> f !in ProvenanceFields
    ensures forall i, j :: 0 <= i < j < |r| ==> r[i] != r[j]
  {
    FixedOrder + (if n.implementingType.Some? then [ImplementingTypeField] else [])
  }

  /** Every field except attributes and span is fed, the implementing declaration only when present. */
  lemma HashOrderCoversIdentity(n: TyConstantDecl, f: Field)
    ensures f in HashOrder(n) <==> f !in ProvenanceFields && (f == ImplementingTypeField ==> n.implementingType.Some?)
  {
    match f
    case ImplementingTypeField =>
    case AttributesField =>
    case SpanField =>
    case _ => assert f in FixedOrder;
  }

  /** Feeding the fixed six fields, spelled out token group by token group. */
  lemma FeedFixedOrder(n: TyConstantDecl, e: Engines)
    requires Resolvable(n, e.te)
    ensures Feed(FixedOrder, n, e)
            == [PathToken(n.callPath)] + ValueHash(n.value, e) + [VisibilityToken(n.visibility)]
               + e.infoHash(e.te[n.returnType]) + e.argHash(n.typeAscription) + [BoolToken(n.isConfigurable)]
  {
    var o5: seq<Field> := [IsConfigurableField];
    var o4: seq<Field> := [TypeAscriptionField] + o5;
    var o3: seq<Field> := [ReturnTypeField] + o4;
    var o2: seq<Field> := [VisibilityField] + o3;
    var o1: seq<Field> := [ValueField] + o2;
    var o0: seq<Field> := [CallPathField] + o1;
    assert o0 == FixedOrder;
    assert o5[1..] == [];
    assert Feed(o5, n, e) == [BoolToken(n.isConfigurable)];
    assert o4[1..] == o5;
    var t4 := e.argHash(n.typeAscription) + [BoolToken(n.isConfigurable)];
    assert Feed(o4, n, e) == t4;
    assert o3[1..] == o4;
    var t3 := e.infoHash(e.te[n.returnType]) + t4;
    assert Feed(o3, n, e) == t3;
    assert o2[1..] == o3;
    var t2 := [VisibilityToken(n.visibility)] + t3;
    assert Feed(o2, n, e) == t2;
    assert o1[1..] == o2;
    var t1 := ValueHash(n.value, e) + t2;
    assert Feed(o1, n, e) == t1;
    assert o0[1..] == o1;
    assert Feed(o0, n, e) == [PathToken(n.callPath)] + t1;
  }

  /** The hash is exactly the field-by-field feed of `HashOrder`. */
  lemma HashFeedsFieldsInOrder(n: TyConstantDecl, e: Engines)
    requires Resolvable(n, e.te)
    ensures Hash(n, e) == Feed(HashOrder(n), n, e)
  {
    var tail := if n.implementingType.Some? then [ImplementingTypeField] else [];
    FeedAppend(FixedOrder, tail, n, e);
    FeedFixedOrder(n, e);
    assert Feed(tail, n, e) == FieldTokens(ImplementingTypeField, n, e) by {
      if n.implementingType.Some? {
        assert tail[1..] == [];
      }
    }
  }

  /** Without an implementing declaration, only the six fixed fields are fed. */
  lemma HashOfFreeStanding(n: TyConstantDecl, e: Engines)
    requires Resolvable(n, e.te)
    requires n.implementingType.None?
    ensures Hash(n, e) == Feed(FixedOrder, n, e)
  {
    HashFeedsFieldsInOrder(n, e);
    assert HashOrder(n) == FixedOrder;
  }

  /**
    An associated constant's hash extends the hash of the same declaration
    without its implementing declaration, by exactly that declaration's tokens.
   */
  lemma HashWithImplementingType(n: TyConstantDecl, d: TyDecl, e: Engines)
    requires Resolvable(n, e.te)
    requires n.implementingType == Some(d)
    ensures Hash(n, e) == Hash(n.(implementingType := None), e) + e.declHash(d)
  {
  }

  /** Attributes and span never reach the hasher. */
  lemma HashIgnoresProvenance(a: TyConstantDecl, a': TyConstantDecl, e: Engines)
    requires Resolvable(a, e.te)
    requires AgreeOutside(a, a', ProvenanceFields)
    ensures Resolvable(a', e.te)
    ensures Hash(a, e) == Hash(a', e)
  {
    AgreeOutsideFields(a, a', ProvenanceFields);
  }

  /** Equal declarations hash alike, provided each component's equality implies an equal hash. */
  lemma EqImpliesSameHash(a: TyConstantDecl, b: TyConstantDecl, e: Engines)
    requires Resolvable(a, e.te) && Resolvable(b, e.te)
    requires HashesAgreeWithEqs(e)
    requires Eq(a, b, e)
    ensures Hash(a, e) == Hash(b, e)
  {
  }
}
