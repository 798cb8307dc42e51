# Contract-interface projector

A Dafny model of the contract-interface ("ABI") generator of the Clarity
type checker. The generator takes the checker's closed internal type algebra:

- `TypeSignature` is `Atom(atom)` or `List(atom, {max_len, dimension})`.
- The atoms are `AnyType`, `NoType`, `IntType`, `BoolType`, `BufferType(n)`,
  `PrincipalType`, `TupleType`, `OptionalType` and `ResponseType`.

It projects that algebra onto a flat public schema (`none`, `int128`, `bool`,
`buffer`, `principal`, `tuple`, `optional`, `response`, `list`). It then
builds the function, variable and map records of a contract from the
checker's name-keyed, ordered maps.

The model is purely functional:

- `types.dfy` (`Types`): the internal algebra, the reference predicate
  "no `AnyType` occurs" (`AnyFreeSig`), and the key order of an ordered map.
- `abi.dfy` (`Abi`): the output schema, and `WellFormed` ("a list element is
  never itself a list").
- `faults.dfy` (`Faults`): one `Fault` per fatal check of the program. A
  projection that would abort returns `Fail(fault)`.
- `projection.dfy` (`Projection`): `from_type_signature`, `from_atom_type`,
  `from_tuple_type` and `from_function_args`. Also the inverse
  `ToTypeSignature` on well-formed public types, with round trips in both
  directions.
- `collect.dfy` (`OrderedMaps`): `iter().map(f).collect()` over an ordered
  map. Entries are visited in key order, and the first failing entry decides
  the fault.
- `collectors.dfy` (`Collectors`): the three `from_map` collectors, and what
  each keeps and drops.
- `scenarios.dfy` (`Scenarios`): concrete examples of the generator's behaviour.

Each `BTreeMap` is a `seq<(string, V)>` that is walked front to back.
`Types.Ordered` is the condition that its keys strictly increase. The model
does not assume it. Instead, the contracts state what follows from it:
- For the three collector maps, records come out in ascending name order
  when the map is `Ordered`.
- A tuple's field map is also a `BTreeMap`. `Types.OrderedSig` says every
  tuple map inside a signature is `Ordered`, and `Abi.Canonical` says every
  tuple's entry names ascend. A projection is `Canonical` exactly when its
  signature is `OrderedSig`.
`max_len`, `dimension` and buffer lengths are `u32`/`u8` subset types and
are copied unchanged. No arithmetic is done on them.

Evaluation order decides which fault is reported, and the model follows
the program's order:

- A function's `outputs` field is built before its `args` field. So a
  `Variadic` or `UnionArgs` function always fails with the return-type fault
  (`interface.rs:126-127`). The argument-side panics (`interface.rs:134-135`)
  can never be reached.
- A map entry checks the key side (tuple shape, then first field) before the
  value side. Then it projects the key type, then the value type.
- All `AnyType` panics carry the same message, so within one projection the
  order of traversal cannot be observed.

## Model

| member | source | states |
|---|---|---|
| Projection.FromTypeSignature | src/vm/checker/typecheck/interface.rs:67-80 | Succeeds exactly when no `AnyType` occurs anywhere in the signature, and otherwise fails with the `AnyType` fault. A success is a well-formed public type, and it is a `list` exactly when the signature is a `List`. |
| Projection.FromAtomType | src/vm/checker/typecheck/interface.rs:45-65 | Succeeds exactly when the atom is free of `AnyType` (with `AnyType` itself failing), and otherwise fails with the `AnyType` fault. An atom never projects to a `list`. |
| Projection.FromTupleType | src/vm/checker/typecheck/interface.rs:34-43 | A tuple projects to a `tuple` with one entry per field, in field order. The i-th entry has the i-th field's name, and its type is the projection of that field's signature. It fails exactly when some field is not free of `AnyType`. |
| Projection.FromFields | src/vm/checker/typecheck/interface.rs:36-41 | The entries for the fields from position i on: count, names and per-field projections, and failure exactly when one of those fields holds `AnyType`. |
| Projection.FromFunctionArgs | src/vm/checker/typecheck/interface.rs:90-99 | Argument projection keeps count, order and names. The i-th output type is the projection of the i-th argument's signature. It fails exactly when some argument holds `AnyType`. |
| Projection.SignatureRoundTrip | src/vm/checker/typecheck/interface.rs:67-80 | Each projectable signature is recovered from its public image, list metadata included: projection loses no information. |
| Projection.AtomRoundTrip | src/vm/checker/typecheck/interface.rs:45-65 | Each projectable atom is recovered from its image. This covers the one-to-one primitive mapping `NoType`/`IntType`/`BoolType`/`PrincipalType`/`BufferType(n)` ↔ `none`/`int128`/`bool`/`principal`/`buffer{n}`, and optional/response structure. |
| Projection.TupleRoundTrip | src/vm/checker/typecheck/interface.rs:34-43 | A projectable tuple's fields (names, order, signatures) are recovered from its `tuple` image. |
| Projection.ProjectInverse | src/vm/checker/typecheck/interface.rs:67-80 | Every well-formed public type (no list directly inside a list) is the projection of the signature `ToTypeSignature` builds. |
| Projection.ProjectInverseAtom | src/vm/checker/typecheck/interface.rs:45-65 | Every well-formed non-list public type is the projection of the atom `ToAtomType` builds. |
| Projection.SignatureCanonical | src/vm/checker/typecheck/interface.rs:67-80 | A projectable signature's image is canonical (every tuple's entry names strictly ascend) exactly when every tuple map in the signature is ordered by key. |
| Projection.AtomCanonical | src/vm/checker/typecheck/interface.rs:45-65 | The same for atoms, through optional, response and tuple nesting. |
| Projection.TupleCanonical | src/vm/checker/typecheck/interface.rs:34-43 | A tuple's image has ascending entry names, recursively, exactly when its field map and every nested tuple map are ordered: the entries keep the map's iteration order. |
| Projection.InverseOrdered | src/vm/checker/typecheck/interface.rs:34-80 | The signature recovered from a well-formed public type projects back to it, and its tuple maps are ordered exactly when the public type is canonical. So the images of signatures whose tuple maps are `BTreeMap`-shaped are exactly the well-formed canonical types. |
| Projection.ProjectionInjective | src/vm/checker/typecheck/interface.rs:45-80 | Two signatures with the same successful projection are equal. |
| Projection.ArgsRoundTrip | src/vm/checker/typecheck/interface.rs:90-99 | A projected argument list gives back the original arguments (names, order, signatures). |
| OrderedMaps.Collect | src/vm/checker/typecheck/interface.rs:117-138 | The `iter().map(..).collect()` shared by all three collectors (also lines 157-163 and 178-201). Collecting over a map succeeds exactly when every entry succeeds. It then yields one result per entry, in map order. On failure, the fault is that of the first failing entry. |
| Collectors.FromFunction | src/vm/checker/typecheck/interface.rs:117-137 | A function record succeeds exactly when the type is `Fixed` and free of `AnyType`. `Variadic` fails with the variadic fault and `UnionArgs` with the union fault. A failing `Fixed` type fails with the `AnyType` fault. On success the name and access are kept, `outputs` is the projected return type and `args` the projected arguments. |
| Collectors.FunctionsFromMap | src/vm/checker/typecheck/interface.rs:116-139 | One record per entry, in key order, each with the given access tag, its projected return type and its projected arguments. Succeeds exactly when every entry is exposable. Otherwise the first failing entry's fault is reported. Names ascend when the map is ordered. |
| Collectors.FromVariable | src/vm/checker/typecheck/interface.rs:157-163 | A variable record keeps the name and access, and its type is the projected signature. It fails exactly when the signature holds `AnyType`. |
| Collectors.VariablesFromMap | src/vm/checker/typecheck/interface.rs:156-164 | One record per entry, in key order. Each has its unchanged name, the given access tag and the projected type. Succeeds exactly when no signature holds `AnyType`. Names ascend when the map is ordered. |
| Collectors.TupleHead | src/vm/checker/typecheck/interface.rs:180-192 | A non-tuple signature gives the "not a tuple" fault, and an empty tuple gives the "no first entry" fault. Otherwise the result is the first field in iteration order. |
| Collectors.FromMapEntry | src/vm/checker/typecheck/interface.rs:178-200 | A map record succeeds exactly when key and value are tuples with a first field whose type is free of `AnyType`. The faults come in the program's order: key not tuple, key empty, value not tuple, value empty, then `AnyType`. On success, the record holds the name and the two first fields' names and projected types. |
| Collectors.MapsFromMap | src/vm/checker/typecheck/interface.rs:177-202 | One record per entry, in key order, built from the first key field and the first value field only. Succeeds exactly when every entry is exposable. Otherwise the first failing entry's fault is reported. Names ascend when the map is ordered. |
| Collectors.FunctionsRecoverable | src/vm/checker/typecheck/interface.rs:116-139 | Each entry `(name, Fixed(args, ret))` is recovered from its record: the function collector adds and drops nothing. |
| Collectors.VariablesRecoverable | src/vm/checker/typecheck/interface.rs:156-164 | Each entry `(name, signature)` is recovered from its record: the variable collector adds and drops nothing. |
| Collectors.MapsDependOnFirstFieldsOnly | src/vm/checker/typecheck/interface.rs:184-199 | The map collector's outcome (records or fault) depends on each key/value tuple only through its shape and first field. Further fields are dropped unprojected, even when they hold `AnyType`. |
| Scenarios.PrimitiveAtoms | src/vm/checker/typecheck/interface.rs:48-52 | `NoType`, `IntType`, `BoolType`, `PrincipalType` and `BufferType(32)` project to `none`, `int128`, `bool`, `principal` and `buffer{32}`. |
| Scenarios.NestedComposition | src/vm/checker/typecheck/interface.rs:54-63 | `OptionalType(ResponseType(IntType, BoolType))` projects to `optional{response{int128, bool}}`. |
| Scenarios.ListMetadata | src/vm/checker/typecheck/interface.rs:72-78 | `List(IntType, {5, 1})` projects to `list{int128, 5, 1}`. |
| Scenarios.AnyTypeDeepInList | src/vm/checker/typecheck/interface.rs:47 | An `AnyType` in a tuple field of a list element fails the projection. |
| Scenarios.MapFieldCollapse | src/vm/checker/typecheck/interface.rs:184-199 | Key `{id: int}` with value `{amount: int, note: buffer(10)}` gives key `id: int128` and value `amount: int128`. `note` does not appear. |
| Scenarios.MapDroppedFieldUnchecked | src/vm/checker/typecheck/interface.rs:191-199 | An `AnyType` in a dropped value field does not make the map collector fail. |
| Scenarios.MapKeyCheckedFirst | src/vm/checker/typecheck/interface.rs:180-189 | Key faults are reported before value faults. |
| Scenarios.NonFixedFunctions | src/vm/checker/typecheck/interface.rs:126-127 | A `Variadic` function fails with the variadic fault and a `UnionArgs` function with the union fault. |
| Scenarios.FirstFailingFunctionDecides | src/vm/checker/typecheck/interface.rs:117-127 | When several functions fail, the first one in key order decides the fault. |
| Scenarios.FixedFunction | src/vm/checker/typecheck/interface.rs:117-137 | A read-only `get(key: int) -> bool` yields the expected record. |

## Left out

- `ContractInterface::serialize` (`interface.rs:213-215`) is left out. It hands the tree to the `serde_json` encoder, whose text format is not part of this model. Only the shape of the `ContractInterface` record is modelled (`Abi.ContractInterface`).
- Putting the interface together is left out. That step merges the private, public and read-only function lists and the constant and variable lists into one `ContractInterface`, and its code lives outside `interface.rs`, so it is not part of this model.
- The text of the panic messages is not modelled. Each panic site is one `Fault` value, and an abort is a `Fail` result rather than a process exit.
- The payloads of `Variadic` and `UnionArgs` are not modelled. These shapes are opaque here, and their only role is to cause a fault.
- The type checker that builds `TypeSignature` and `FunctionType` values is not modelled. Any constructible value is accepted as input. In particular, buffer lengths and list bounds are not range-checked, just as the projector does not check them.
- The `Debug`/`Serialize`/`Clone` derives and the `to_string` conversions are not modelled. Names are treated as the same string.
