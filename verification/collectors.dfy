/** The three collectors (`from_map` on `ContractInterfaceFunction`,
    `ContractInterfaceVariable` and `ContractInterfaceMap`): each turns an
    ordered name-keyed map into a list of public records, in key order. */
module Collectors {
  import opened Types
  import opened Faults
  import opened OrderedMaps
  import opened Projection
  import Abi

  /* ---- Functions ---- */

  /** A function type that can be exposed: fixed-shaped, and `AnyType` free in
      its return type and in every argument. */
  predicate Exposable(ft: FunctionType) {
    && ft.Fixed?
    && AnyFreeSig(ft.returnType)
    && forall i :: 0 <= i < |ft.args| ==> AnyFreeSig(ft.args[i].signature)
  }

  /** One function record. The output type is built before the arguments, so a
      non-fixed function always fails with the return-type fault and the
      argument-side faults are never reached. */
  function FromFunction(name: string, ft: FunctionType, access: Abi.FunctionAccess): (r: Result<Abi.Function>)
    ensures r.Ok? <==> Exposable(ft)
    ensures ft.Variadic? ==> r == Fail(VariadicFunction)
    ensures ft.UnionArgs? ==> r == Fail(UnionFunction)
    ensures ft.Fixed? && r.Fail? ==> r.fault == AnyTypeInInterface
    ensures r.Ok? ==> && r.value.name == name && r.value.access == access
                      && FromTypeSignature(ft.returnType) == Ok(r.value.outputs.dataType)
                      && FromFunctionArgs(ft.args) == Ok(r.value.args)
  {
    match ft
    case Variadic => Fail(VariadicFunction)
    case UnionArgs => Fail(UnionFunction)
    case Fixed(fnArgs, ret) =>
      var output :- FromTypeSignature(ret);
      var args :- FromFunctionArgs(fnArgs);
      Ok(Abi.Function(name, access, args, Abi.FunctionOutput(output)))
  }

  /** One record per map entry, in key order, each tagged with `access`. */
  function FunctionsFromMap(m: seq<(string, FunctionType)>, access: Abi.FunctionAccess): (r: Result<seq<Abi.Function>>)
    ensures r.Ok? <==> forall i :: 0 <= i < |m| ==> Exposable(m[i].1)
    ensures r.Ok? ==> |r.value| == |m|
    ensures r.Ok? ==> forall i :: 0 <= i < |m| ==>
      && r.value[i].name == m[i].0
      && r.value[i].access == access
      && FromTypeSignature(m[i].1.returnType) == Ok(r.value[i].outputs.dataType)
      && FromFunctionArgs(m[i].1.args) == Ok(r.value[i].args)
    ensures r.Ok? && Ordered(m) ==> forall i, j :: 0 <= i < j < |m| ==> Less(r.value[i].name, r.value[j].name)
    ensures r.Fail? ==>
      exists k ::
        && 0 <= k < |m|
        && (forall j :: 0 <= j < k ==> Exposable(m[j].1))
        && FromFunction(m[k].0, m[k].1, access) == Fail(r.fault)
  {
    var r := Collect(m, (name, ft) => FromFunction(name, ft, access));
    assert r.Fail? ==> exists k :: FirstFailure(m, (name, ft) => FromFunction(name, ft, access), k) && FromFunction(m[k].0, m[k].1, access) == Fail(r.fault);
    r
  }

  /* ---- Variables ---- */

  function FromVariable(name: string, sig: TypeSignature, access: Abi.VariableAccess): (r: Result<Abi.Variable>)
    ensures r.Ok? <==> AnyFreeSig(sig)
    ensures r.Fail? ==> r.fault == AnyTypeInInterface
    ensures r.Ok? ==> && r.value.name == name && r.value.access == access
                      && FromTypeSignature(sig) == Ok(r.value.dataType)
  {
    var d :- FromTypeSignature(sig);
    Ok(Abi.Variable.Variable(name, d, access))
  }

  /** One record per map entry, in key order, name unchanged, tagged with `access`. */
  function VariablesFromMap(m: seq<(string, TypeSignature)>, access: Abi.VariableAccess): (r: Result<seq<Abi.Variable>>)
    ensures r.Ok? <==> forall i :: 0 <= i < |m| ==> AnyFreeSig(m[i].1)
    ensures r.Fail? ==> r.fault == AnyTypeInInterface
    ensures r.Ok? ==> |r.value| == |m|
    ensures r.Ok? ==> forall i :: 0 <= i < |m| ==>
      && r.value[i].name == m[i].0
      && r.value[i].access == access
      && FromTypeSignature(m[i].1) == Ok(r.value[i].dataType)
    ensures r.Ok? && Ordered(m) ==> forall i, j :: 0 <= i < j < |m| ==> Less(r.value[i].name, r.value[j].name)
  {
    Collect(m, (name, sig) => FromVariable(name, sig, access))
  }

  /* ---- Maps ---- */

  predicate IsTupleSig(sig: TypeSignature) {
    sig.Atom? && sig.atom.TupleType?
  }

  /** A tuple signature with at least one field. */
  predicate HasFirstField(sig: TypeSignature) {
    IsTupleSig(sig) && |sig.atom.tuple.typeMap| > 0
  }

  function FirstField(sig: TypeSignature): (string, TypeSignature)
    requires HasFirstField(sig)
  {
    sig.atom.tuple.typeMap[0]
  }

  /** A map entry is exposable when both sides have a first field whose type is `AnyType` free. */
  predicate MapExposable(key: TypeSignature, val: TypeSignature) {
    && HasFirstField(key) && AnyFreeSig(FirstField(key).1)
    && HasFirstField(val) && AnyFreeSig(FirstField(val).1)
  }

  /** The first field of a tuple signature, or the fault for a non-tuple or empty tuple. */
  function TupleHead(sig: TypeSignature, notTuple: Fault, empty: Fault): (r: Result<(string, TypeSignature)>)
    ensures !IsTupleSig(sig) ==> r == Fail(notTuple)
    ensures IsTupleSig(sig) && !HasFirstField(sig) ==> r == Fail(empty)
    ensures HasFirstField(sig) ==> r == Ok(FirstField(sig))
  {
    match sig
    case Atom(TupleType(t)) => if |t.typeMap| == 0 then Fail(empty) else Ok(t.typeMap[0])
    case _ => Fail(notTuple)
  }

  /** One map record. Checks run key side first, then value side; only the
      first field of each tuple is projected, further fields are dropped. */
  function FromMapEntry(name: string, key: TypeSignature, val: TypeSignature): (r: Result<Abi.Map>)
    ensures r.Ok? <==> MapExposable(key, val)
    ensures !IsTupleSig(key) ==> r == Fail(MapKeyNotTuple)
    ensures IsTupleSig(key) && !HasFirstField(key) ==> r == Fail(MapKeyTupleEmpty)
    ensures HasFirstField(key) && !IsTupleSig(val) ==> r == Fail(MapValueNotTuple)
    ensures HasFirstField(key) && IsTupleSig(val) && !HasFirstField(val) ==> r == Fail(MapValueTupleEmpty)
    ensures HasFirstField(key) && HasFirstField(val) && r.Fail? ==> r.fault == AnyTypeInInterface
    ensures r.Ok? ==> && r.value.name == name
                      && r.value.keyName == FirstField(key).0
                      && FromTypeSignature(FirstField(key).1) == Ok(r.value.keyType)
                      && r.value.valueName == FirstField(val).0
                      && FromTypeSignature(FirstField(val).1) == Ok(r.value.valueType)
  {
    var keyField :- TupleHead(key, MapKeyNotTuple, MapKeyTupleEmpty);
    var valField :- TupleHead(val, MapValueNotTuple, MapValueTupleEmpty);
    var keyType :- FromTypeSignature(keyField.1);
    var valType :- FromTypeSignature(valField.1);
    Ok(Abi.Map(name, keyField.0, keyType, valField.0, valType))
  }

  /** One record per map entry, in key order. */
  function MapsFromMap(m: seq<(string, (TypeSignature, TypeSignature))>): (r: Result<seq<Abi.Map>>)
    ensures r.Ok? <==> forall i :: 0 <= i < |m| ==> MapExposable(m[i].1.0, m[i].1.1)
    ensures r.Ok? ==> |r.value| == |m|
    ensures r.Ok? ==> forall i :: 0 <= i < |m| ==>
      && r.value[i].name == m[i].0
      && r.value[i].keyName == FirstField(m[i].1.0).0
      && FromTypeSignature(FirstField(m[i].1.0).1) == Ok(r.value[i].keyType)
      && r.value[i].valueName == FirstField(m[i].1.1).0
      && FromTypeSignature(FirstField(m[i].1.1).1) == Ok(r.value[i].valueType)
    ensures r.Ok? && Ordered(m) ==> forall i, j :: 0 <= i < j < |m| ==> Less(r.value[i].name, r.value[j].name)
    ensures r.Fail? ==>
      exists k ::
        && 0 <= k < |m|
        && (forall j :: 0 <= j < k ==> MapExposable(m[j].1.0, m[j].1.1))
        && FromMapEntry(m[k].0, m[k].1.0, m[k].1.1) == Fail(r.fault)
  {
    var r := Collect(m, (name, kv: (TypeSignature, TypeSignature)) => FromMapEntry(name, kv.0, kv.1));
    assert r.Fail? ==> exists k :: FirstFailure(m, (name, kv: (TypeSignature, TypeSignature)) => FromMapEntry(name, kv.0, kv.1), k) && FromMapEntry(m[k].0, m[k].1.0, m[k].1.1) == Fail(r.fault);
    r
  }

  /* ---- What the collectors keep and what they drop ---- */

  /** The function collector loses nothing: each entry's fixed signature is
      recovered from its record. */
  lemma FunctionsRecoverable(m: seq<(string, FunctionType)>, access: Abi.FunctionAccess)
    requires FunctionsFromMap(m, access).Ok?
    ensures forall i :: 0 <= i < |m| ==>
      var f := FunctionsFromMap(m, access).value[i];
      && Abi.WellFormed(f.outputs.dataType)
      && (forall j :: 0 <= j < |f.args| ==> Abi.WellFormed(f.args[j].dataType))
      && m[i] == (f.name, Fixed(ToFunctionArgs(f.args), ToTypeSignature(f.outputs.dataType)))
  {
    var fs := FunctionsFromMap(m, access).value;
    forall i | 0 <= i < |m|
      ensures Abi.WellFormed(fs[i].outputs.dataType)
      ensures forall j :: 0 <= j < |fs[i].args| ==> Abi.WellFormed(fs[i].args[j].dataType)
      ensures m[i] == (fs[i].name, Fixed(ToFunctionArgs(fs[i].args), ToTypeSignature(fs[i].outputs.dataType)))
    {
      SignatureRoundTrip(m[i].1.returnType);
      ArgsRoundTrip(m[i].1.args);
    }
  }

  /** The variable collector loses nothing: each `(name, signature)` entry is
      recovered from its record. */
  lemma VariablesRecoverable(m: seq<(string, TypeSignature)>, access: Abi.VariableAccess)
    requires VariablesFromMap(m, access).Ok?
    ensures forall i :: 0 <= i < |m| ==>
      var v := VariablesFromMap(m, access).value[i];
      Abi.WellFormed(v.dataType) && m[i] == (v.name, ToTypeSignature(v.dataType))
  {
    var vs := VariablesFromMap(m, access).value;
    forall i | 0 <= i < |m|
      ensures Abi.WellFormed(vs[i].dataType) && m[i] == (vs[i].name, ToTypeSignature(vs[i].dataType))
    {
      SignatureRoundTrip(m[i].1);
    }
  }

  /** Two signatures agree on everything the map collector looks at: tuple
      shape, emptiness and the first field. */
  predicate SameHead(s1: TypeSignature, s2: TypeSignature) {
    && IsTupleSig(s1) == IsTupleSig(s2)
    && HasFirstField(s1) == HasFirstField(s2)
    && (HasFirstField(s1) ==> FirstField(s1) == FirstField(s2))
  }

  /** Field collapse: the map collector's result, success or fault, depends on
      each key and value tuple only through its first field; all further
      fields are ignored, `AnyType` in them included. */
  lemma MapsDependOnFirstFieldsOnly(m1: seq<(string, (TypeSignature, TypeSignature))>,
                                    m2: seq<(string, (TypeSignature, TypeSignature))>)
    requires |m1| == |m2|
    requires forall i :: 0 <= i < |m1| ==>
      m1[i].0 == m2[i].0 && SameHead(m1[i].1.0, m2[i].1.0) && SameHead(m1[i].1.1, m2[i].1.1)
    ensures MapsFromMap(m1) == MapsFromMap(m2)
  {
    var f := (name, kv: (TypeSignature, TypeSignature)) => FromMapEntry(name, kv.0, kv.1);
    forall i | 0 <= i < |m1|
      ensures f(m1[i].0, m1[i].1) == f(m2[i].0, m2[i].1)
    {
      var k1, v1, k2, v2 := m1[i].1.0, m1[i].1.1, m2[i].1.0, m2[i].1.1;
      assert TupleHead(k1, MapKeyNotTuple, MapKeyTupleEmpty) == TupleHead(k2, MapKeyNotTuple, MapKeyTupleEmpty);
      assert TupleHead(v1, MapValueNotTuple, MapValueTupleEmpty) == TupleHead(v2, MapValueNotTuple, MapValueTupleEmpty);
    }
    CollectCongruent(m1, m2, f);
  }
}
