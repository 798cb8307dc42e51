/** Concrete projections illustrating the interface generator's behaviour. */
module Scenarios {
  import opened Types
  import opened Faults
  import opened Projection
  import opened Collectors
  import Abi

  lemma PrimitiveAtoms()
    ensures FromAtomType(NoType) == Ok(Abi.None)
    ensures FromAtomType(IntType) == Ok(Abi.Int128)
    ensures FromAtomType(BoolType) == Ok(Abi.Bool)
    ensures FromAtomType(PrincipalType) == Ok(Abi.Principal)
    ensures FromAtomType(BufferType(32)) == Ok(Abi.Buffer(32))
  {
  }

  lemma NestedComposition()
    ensures FromTypeSignature(Atom(OptionalType(Atom(ResponseType(Atom(IntType), Atom(BoolType))))))
         == Ok(Abi.Optional(Abi.Response(Abi.Int128, Abi.Bool)))
  {
  }

  lemma ListMetadata()
    ensures FromTypeSignature(List(IntType, ListData(5, 1))) == Ok(Abi.List(Abi.Int128, 5, 1))
  {
  }

  /** `AnyType` inside a tuple that is the element of a list still aborts. */
  lemma AnyTypeDeepInList()
    ensures FromTypeSignature(List(TupleType(TupleTypeSignature([("a", Atom(IntType)), ("b", Atom(AnyType))])), ListData(3, 1)))
         == Fail(AnyTypeInInterface)
  {
  }

  /** Key `{id: int}`, value `{amount: int, note: buffer(10)}`: `note` is not in the record. */
  lemma MapFieldCollapse()
    ensures MapsFromMap([("balances", (Atom(TupleType(TupleTypeSignature([("id", Atom(IntType))]))),
                                       Atom(TupleType(TupleTypeSignature([("amount", Atom(IntType)), ("note", Atom(BufferType(10)))])))))])
         == Ok([Abi.Map("balances", "id", Abi.Int128, "amount", Abi.Int128)])
  {
    var r := MapsFromMap([("balances", (Atom(TupleType(TupleTypeSignature([("id", Atom(IntType))]))),
                                        Atom(TupleType(TupleTypeSignature([("amount", Atom(IntType)), ("note", Atom(BufferType(10)))])))))]);
    assert r.Ok? && |r.value| == 1;
    assert FromTypeSignature(Atom(IntType)) == Ok(Abi.Int128);
    assert r.value[0].keyType == Abi.Int128 && r.value[0].valueType == Abi.Int128;
    assert r.value[0] == Abi.Map("balances", "id", Abi.Int128, "amount", Abi.Int128);
    assert r.value == [r.value[0]];
  }

  /** An `AnyType` in a dropped value field goes unnoticed. */
  lemma MapDroppedFieldUnchecked()
    ensures MapsFromMap([("m", (Atom(TupleType(TupleTypeSignature([("id", Atom(IntType))]))),
                                Atom(TupleType(TupleTypeSignature([("amount", Atom(IntType)), ("rest", Atom(AnyType))])))))]).Ok?
  {
  }

  /** Key checks precede value checks. */
  lemma MapKeyCheckedFirst()
    ensures MapsFromMap([("m", (Atom(IntType), Atom(TupleType(TupleTypeSignature([])))))]) == Fail(MapKeyNotTuple)
    ensures MapsFromMap([("m", (Atom(TupleType(TupleTypeSignature([]))), Atom(IntType)))]) == Fail(MapKeyTupleEmpty)
  {
  }

  lemma NonFixedFunctions()
    ensures FunctionsFromMap([("f", Variadic)], Abi.Public) == Fail(VariadicFunction)
    ensures FunctionsFromMap([("f", UnionArgs)], Abi.ReadOnly) == Fail(UnionFunction)
  {
  }

  /** The first failing entry in key order decides the fault. */
  lemma FirstFailingFunctionDecides()
    ensures FunctionsFromMap([("a", UnionArgs), ("b", Variadic)], Abi.Private) == Fail(UnionFunction)
  {
  }

  lemma FixedFunction()
    ensures FunctionsFromMap([("get", Fixed([FunctionArg("key", Atom(IntType))], Atom(BoolType)))], Abi.ReadOnly)
         == Ok([Abi.Function("get", Abi.ReadOnly, [Abi.FunctionArg("key", Abi.Int128)], Abi.FunctionOutput(Abi.Bool))])
  {
    var args := [FunctionArg("key", Atom(IntType))];
    var a := FromFunctionArgs(args);
    assert FromTypeSignature(Atom(IntType)) == Ok(Abi.Int128);
    assert a.Ok? && |a.value| == 1 && a.value[0] == Abi.FunctionArg("key", Abi.Int128);
    assert a.value == [a.value[0]];
    var r := FunctionsFromMap([("get", Fixed(args, Atom(BoolType)))], Abi.ReadOnly);
    assert r.Ok? && |r.value| == 1;
    assert FromTypeSignature(Atom(BoolType)) == Ok(Abi.Bool);
    assert r.value[0] == Abi.Function("get", Abi.ReadOnly, [Abi.FunctionArg("key", Abi.Int128)], Abi.FunctionOutput(Abi.Bool));
    assert r.value == [r.value[0]];
  }
}
