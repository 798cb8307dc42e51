/** The public contract-interface schema the projector produces. */
module Abi {
  import opened Types

  datatype FunctionAccess = Private | Public | ReadOnly

  datatype VariableAccess = Constant | Variable

  /** The public image of a type. `AnyType` has no counterpart. */
  datatype AtomType =
    | None
    | Int128
    | Bool
    | Buffer(length: u32)
    | Principal
    | Tuple(dataTypes: seq<TupleEntry>)
    | Optional(dataType: AtomType)
    | Response(ok: AtomType, error: AtomType)
    | List(dataType: AtomType, maxLen: u32, dimension: u8)

  datatype TupleEntry = TupleEntry(name: string, dataType: AtomType)

  datatype FunctionArg = FunctionArg(name: string, dataType: AtomType)

  datatype FunctionOutput = FunctionOutput(dataType: AtomType)

  datatype Function = Function(name: string, access: FunctionAccess, args: seq<FunctionArg>, outputs: FunctionOutput)

  datatype Variable = Variable(name: string, dataType: AtomType, access: VariableAccess)

  datatype Map = Map(name: string, keyName: string, keyType: AtomType, valueName: string, valueType: AtomType)

  datatype ContractInterface = ContractInterface(functions: seq<Function>, variables: seq<Variable>, maps: seq<Map>)

  /** A list's element is never itself a list: nesting is carried by `dimension`. */
  predicate WellFormed(a: AtomType) {
    match a
    case Tuple(es) => forall i :: 0 <= i < |es| ==> WellFormed(es[i].dataType)
    case Optional(d) => WellFormed(d)
    case Response(ok, err) => WellFormed(ok) && WellFormed(err)
    case List(d, _, _) => !d.List? && WellFormed(d)
    case _ => true
  }

  /** Every tuple's entry names strictly ascend: the only tuples the projector
      can emit from `BTreeMap`-keyed fields. */
  predicate Canonical(a: AtomType) {
    match a
    case Tuple(es) =>
      && (forall i, j :: 0 <= i < j < |es| ==> Less(es[i].name, es[j].name))
      && (forall i :: 0 <= i < |es| ==> Canonical(es[i].dataType))
    case Optional(d) => Canonical(d)
    case Response(ok, err) => Canonical(ok) && Canonical(err)
    case List(d, _, _) => Canonical(d)
    case _ => true
  }
}
