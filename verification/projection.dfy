/** Projection of internal type signatures onto the public schema
    (`ContractInterfaceAtomType::from_*` and `from_function_args`), and its
    inverse on well-formed public types. */
module Projection {
  import opened Types
  import opened Faults
  import Abi

  /* ---- The projection ---- */

  /** Projects a signature; fails exactly when an `AnyType` occurs in it. */
  function FromTypeSignature(sig: TypeSignature): (r: Result<Abi.AtomType>)
    decreases sig, 0
    ensures r.Ok? <==> AnyFreeSig(sig)
    ensures r.Fail? ==> r.fault == AnyTypeInInterface
    ensures r.Ok? ==> Abi.WellFormed(r.value)
    ensures r.Ok? ==> (r.value.List? <==> sig.List?)
  {
    match sig
    case Atom(a) => FromAtomType(a)
    case List(a, meta) =>
      var d :- FromAtomType(a);
      Ok(Abi.List(d, meta.maxLen, meta.dimension))
  }

  /** Projects an atom; an atom never projects to a list. */
  function FromAtomType(a: AtomType): (r: Result<Abi.AtomType>)
    decreases a, 0
    ensures r.Ok? <==> AnyFreeAtom(a)
    ensures r.Fail? ==> r.fault == AnyTypeInInterface
    ensures r.Ok? ==> Abi.WellFormed(r.value) && !r.value.List?
  {
    match a
    case AnyType => Fail(AnyTypeInInterface)
    case NoType => Ok(Abi.None)
    case IntType => Ok(Abi.Int128)
    case BoolType => Ok(Abi.Bool)
    case BufferType(len) => Ok(Abi.Buffer(len))
    case PrincipalType => Ok(Abi.Principal)
    case TupleType(t) => FromTupleType(t)
    case OptionalType(s) =>
      var d :- FromTypeSignature(s);
      Ok(Abi.Optional(d))
    case ResponseType(ok, err) =>
      var okType :- FromTypeSignature(ok);
      var errType :- FromTypeSignature(err);
      Ok(Abi.Response(okType, errType))
  }

  /** Projects a tuple to one `{name, data_type}` entry per field, in field order. */
  function FromTupleType(t: TupleTypeSignature): (r: Result<Abi.AtomType>)
    decreases t, |t.typeMap| + 1
    ensures r.Ok? <==> AnyFreeTuple(t)
    ensures r.Fail? ==> r.fault == AnyTypeInInterface
    ensures r.Ok? ==> r.value.Tuple? && |r.value.dataTypes| == |t.typeMap|
    ensures r.Ok? ==> forall i :: 0 <= i < |t.typeMap| ==>
      && r.value.dataTypes[i].name == t.typeMap[i].0
      && FromTypeSignature(t.typeMap[i].1) == Ok(r.value.dataTypes[i].dataType)
    ensures r.Ok? ==> Abi.WellFormed(r.value)
  {
    var entries :- FromFields(t, 0);
    Ok(Abi.Tuple(entries))
  }

  /** The entries of the fields of `t` from position `i` on. */
  function FromFields(t: TupleTypeSignature, i: nat): (r: Result<seq<Abi.TupleEntry>>)
    requires i <= |t.typeMap|
    decreases t, |t.typeMap| - i
    ensures r.Ok? <==> forall j :: i <= j < |t.typeMap| ==> AnyFreeSig(t.typeMap[j].1)
    ensures r.Fail? ==> r.fault == AnyTypeInInterface
    ensures r.Ok? ==> |r.value| == |t.typeMap| - i
    ensures r.Ok? ==> forall j :: i <= j < |t.typeMap| ==>
      && r.value[j - i].name == t.typeMap[j].0
      && FromTypeSignature(t.typeMap[j].1) == Ok(r.value[j - i].dataType)
      && Abi.WellFormed(r.value[j - i].dataType)
  {
    if i == |t.typeMap| then Ok([])
    else
      var d :- FromTypeSignature(t.typeMap[i].1);
      var rest :- FromFields(t, i + 1);
      Ok([Abi.TupleEntry(t.typeMap[i].0, d)] + rest)
  }

  /** Projects a function's arguments, keeping their count, order and names. */
  function FromFunctionArgs(args: seq<FunctionArg>): (r: Result<seq<Abi.FunctionArg>>)
    ensures r.Ok? <==> forall i :: 0 <= i < |args| ==> AnyFreeSig(args[i].signature)
    ensures r.Fail? ==> r.fault == AnyTypeInInterface
    ensures r.Ok? ==> |r.value| == |args|
    ensures r.Ok? ==> forall i :: 0 <= i < |args| ==>
      && r.value[i].name == args[i].name
      && FromTypeSignature(args[i].signature) == Ok(r.value[i].dataType)
  {
    if |args| == 0 then Ok([])
    else
      var d :- FromTypeSignature(args[0].signature);
      var rest :- FromFunctionArgs(args[1..]);
      Ok([Abi.FunctionArg(args[0].name, d)] + rest)
  }

  /* ---- The inverse on well-formed public types ---- */

  function ToTypeSignature(a: Abi.AtomType): TypeSignature
    requires Abi.WellFormed(a)
    decreases a, 1
  {
    match a
    case List(d, maxLen, dimension) => List(ToAtomType(d), ListData(maxLen, dimension))
    case _ => Atom(ToAtomType(a))
  }

  function ToAtomType(a: Abi.AtomType): AtomType
    requires Abi.WellFormed(a) && !a.List?
    decreases a, 0
  {
    match a
    case None => NoType
    case Int128 => IntType
    case Bool => BoolType
    case Buffer(len) => BufferType(len)
    case Principal => PrincipalType
    case Tuple(es) =>
      TupleType(TupleTypeSignature(seq(|es|, i requires 0 <= i < |es| => (es[i].name, ToTypeSignature(es[i].dataType)))))
    case Optional(d) => OptionalType(ToTypeSignature(d))
    case Response(ok, err) => ResponseType(ToTypeSignature(ok), ToTypeSignature(err))
  }

  /** The arguments a projected argument list came from. */
  function ToFunctionArgs(args: seq<Abi.FunctionArg>): seq<FunctionArg>
    requires forall i :: 0 <= i < |args| ==> Abi.WellFormed(args[i].dataType)
  {
    seq(|args|, i requires 0 <= i < |args| => FunctionArg(args[i].name, ToTypeSignature(args[i].dataType)))
  }

  /* ---- Round trips ---- */

  /** Projection loses nothing: every projectable signature is recovered from its image. */
  lemma {:induction false} SignatureRoundTrip(sig: TypeSignature)
    requires AnyFreeSig(sig)
    ensures ToTypeSignature(FromTypeSignature(sig).value) == sig
    decreases sig, 0
  {
    match sig
    case Atom(a) => AtomRoundTrip(a);
    case List(a, meta) => AtomRoundTrip(a);
  }

  lemma {:induction false} AtomRoundTrip(a: AtomType)
    requires AnyFreeAtom(a)
    ensures ToAtomType(FromAtomType(a).value) == a
    decreases a, 0
  {
    match a
    case TupleType(t) => TupleRoundTrip(t);
    case OptionalType(s) => SignatureRoundTrip(s);
    case ResponseType(ok, err) =>
      SignatureRoundTrip(ok);
      SignatureRoundTrip(err);
    case _ =>
  }

  lemma {:induction false} TupleRoundTrip(t: TupleTypeSignature)
    requires AnyFreeTuple(t)
    ensures ToAtomType(FromTupleType(t).value) == TupleType(t)
    decreases t, 0
  {
    var es := FromTupleType(t).value.dataTypes;
    var back := ToAtomType(FromTupleType(t).value);
    forall i | 0 <= i < |t.typeMap|
      ensures back.tuple.typeMap[i] == t.typeMap[i]
    {
      SignatureRoundTrip(t.typeMap[i].1);
    }
  }

  /** Every well-formed public type is the image of the signature `ToTypeSignature` builds. */
  lemma {:induction false} ProjectInverse(a: Abi.AtomType)
    requires Abi.WellFormed(a)
    ensures FromTypeSignature(ToTypeSignature(a)) == Ok(a)
    decreases a, 1
  {
    match a
    case List(d, _, _) => ProjectInverseAtom(d);
    case _ => ProjectInverseAtom(a);
  }

  lemma {:induction false} ProjectInverseAtom(a: Abi.AtomType)
    requires Abi.WellFormed(a) && !a.List?
    ensures FromAtomType(ToAtomType(a)) == Ok(a)
    decreases a, 0
  {
    match a
    case Tuple(es) =>
      var t := ToAtomType(a).tuple;
      var r := FromTupleType(t);
      forall i | 0 <= i < |es|
        ensures FromTypeSignature(t.typeMap[i].1) == Ok(es[i].dataType)
      {
        ProjectInverse(es[i].dataType);
      }
      assert AnyFreeTuple(t);
      assert r.value.dataTypes == es;
    case Optional(d) => ProjectInverse(d);
    case Response(ok, err) =>
      ProjectInverse(ok);
      ProjectInverse(err);
    case _ =>
  }

  /* ---- Key order of tuple maps ---- */

  /** A projection is canonical (tuple names ascending) exactly when every
      tuple map of the signature is ordered, as a `BTreeMap` always is. */
  lemma {:induction false} SignatureCanonical(sig: TypeSignature)
    requires AnyFreeSig(sig)
    ensures Abi.Canonical(FromTypeSignature(sig).value) <==> OrderedSig(sig)
    decreases sig, 0
  {
    match sig
    case Atom(a) => AtomCanonical(a);
    case List(a, _) => AtomCanonical(a);
  }

  lemma {:induction false} AtomCanonical(a: AtomType)
    requires AnyFreeAtom(a)
    ensures Abi.Canonical(FromAtomType(a).value) <==> OrderedAtom(a)
    decreases a, 0
  {
    match a
    case TupleType(t) => TupleCanonical(t);
    case OptionalType(s) => SignatureCanonical(s);
    case ResponseType(ok, err) =>
      SignatureCanonical(ok);
      SignatureCanonical(err);
    case _ =>
  }

  lemma {:induction false} TupleCanonical(t: TupleTypeSignature)
    requires AnyFreeTuple(t)
    ensures Abi.Canonical(FromTupleType(t).value) <==> OrderedTuple(t)
    decreases t, 0
  {
    forall i | 0 <= i < |t.typeMap| {
      SignatureCanonical(t.typeMap[i].1);
    }
  }

  /** The signature a well-formed public type comes from has ordered tuple
      maps exactly when the public type is canonical: the images of
      `BTreeMap`-shaped signatures are exactly the well-formed canonical types. */
  lemma InverseOrdered(a: Abi.AtomType)
    requires Abi.WellFormed(a)
    ensures FromTypeSignature(ToTypeSignature(a)) == Ok(a)
    ensures OrderedSig(ToTypeSignature(a)) <==> Abi.Canonical(a)
  {
    ProjectInverse(a);
    SignatureCanonical(ToTypeSignature(a));
  }

  /** Distinct projectable signatures have distinct public images. */
  lemma ProjectionInjective(s1: TypeSignature, s2: TypeSignature)
    requires FromTypeSignature(s1).Ok? && FromTypeSignature(s1) == FromTypeSignature(s2)
    ensures s1 == s2
  {
    SignatureRoundTrip(s1);
    SignatureRoundTrip(s2);
  }

  /** Argument projection loses nothing: names, order and signatures are recovered. */
  lemma ArgsRoundTrip(args: seq<FunctionArg>)
    requires FromFunctionArgs(args).Ok?
    ensures ToFunctionArgs(FromFunctionArgs(args).value) == args
  {
    var out := FromFunctionArgs(args).value;
    forall i | 0 <= i < |args|
      ensures ToFunctionArgs(out)[i] == args[i]
    {
      SignatureRoundTrip(args[i].signature);
    }
  }
}
