/** The type checker's internal type algebra, as the projector reads it.

    Ordered name-keyed collections (`BTreeMap` in the program) are sequences
    of `(name, value)` pairs; iterating the map is walking the sequence. */
module Types {

  type u8 = x: int | 0 <= x < 0x100
  type u32 = x: int | 0 <= x < 0x1_0000_0000

  /** Length bound and nesting dimension of a list type. */
  datatype ListData = ListData(maxLen: u32, dimension: u8)

  datatype AtomType =
    | AnyType
    | NoType
    | IntType
    | BoolType
    | BufferType(length: u32)
    | PrincipalType
    | TupleType(tuple: TupleTypeSignature)
    | OptionalType(inner: TypeSignature)
    | ResponseType(ok: TypeSignature, err: TypeSignature)

  /** A tuple's fields, keyed by name in the map's iteration order. */
  datatype TupleTypeSignature = TupleTypeSignature(typeMap: seq<(string, TypeSignature)>)

  datatype TypeSignature =
    | Atom(atom: AtomType)
    | List(elem: AtomType, meta: ListData)

  datatype FunctionArg = FunctionArg(name: string, signature: TypeSignature)

  /** Only `Fixed` signatures may be exposed; the other two shapes are kept
      opaque, their payloads play no part in the projection. */
  datatype FunctionType =
    | Fixed(args: seq<FunctionArg>, returnType: TypeSignature)
    | Variadic
    | UnionArgs

  /* ---- AnyType occurrence: the reference definition of "projectable" ---- */

  /** No `AnyType` occurs anywhere in `sig`, list elements and nested
      tuples, optionals and responses included. */
  predicate AnyFreeSig(sig: TypeSignature)
    decreases sig
  {
    match sig
    case Atom(a) => AnyFreeAtom(a)
    case List(a, _) => AnyFreeAtom(a)
  }

  predicate AnyFreeAtom(a: AtomType)
    decreases a
  {
    match a
    case AnyType => false
    case TupleType(t) => AnyFreeTuple(t)
    case OptionalType(s) => AnyFreeSig(s)
    case ResponseType(ok, err) => AnyFreeSig(ok) && AnyFreeSig(err)
    case _ => true
  }

  predicate AnyFreeTuple(t: TupleTypeSignature)
    decreases t
  {
    forall i :: 0 <= i < |t.typeMap| ==> AnyFreeSig(t.typeMap[i].1)
  }

  /* ---- Key order of an ordered map ---- */

  /** Lexicographic order on names, character by character (the order of
      Rust's `String`, whose byte-wise UTF-8 order agrees with code points). */
  predicate Less(a: string, b: string)
    decreases |a|
  {
    |b| > 0 && (|a| == 0 || a[0] < b[0] || (a[0] == b[0] && Less(a[1..], b[1..])))
  }

  /** Keys strictly increasing: the shape of every `BTreeMap` the projector iterates. */
  predicate Ordered<V>(m: seq<(string, V)>) {
    forall i, j :: 0 <= i < j < |m| ==> Less(m[i].0, m[j].0)
  }

  /** Every tuple map inside the signature is `Ordered`: the shape the checker
      builds, since tuple fields are held in a `BTreeMap`. */
  predicate OrderedSig(sig: TypeSignature)
    decreases sig
  {
    match sig
    case Atom(a) => OrderedAtom(a)
    case List(a, _) => OrderedAtom(a)
  }

  predicate OrderedAtom(a: AtomType)
    decreases a
  {
    match a
    case TupleType(t) => OrderedTuple(t)
    case OptionalType(s) => OrderedSig(s)
    case ResponseType(ok, err) => OrderedSig(ok) && OrderedSig(err)
    case _ => true
  }

  predicate OrderedTuple(t: TupleTypeSignature)
    decreases t
  {
    && Ordered(t.typeMap)
    && forall i :: 0 <= i < |t.typeMap| ==> OrderedSig(t.typeMap[i].1)
  }
}
