/** The fatal invariant violations of the interface projector, and the
    failure-compatible result type that carries them.

    Every reachable `panic!` / `expect` site of the projection and the three
    collectors becomes one `Fault`; a projection that would abort returns
    `Fail(fault)` instead. */
module Faults {

  datatype Fault =
    | AnyTypeInInterface   // an unresolved `AnyType` reached the public interface
    | VariadicFunction     // a contract function with a variadic return type
    | UnionFunction        // a contract function with a union return type
    | MapKeyNotTuple       // a map whose key type is not a tuple
    | MapKeyTupleEmpty     // a map whose key tuple has no first field
    | MapValueNotTuple     // a map whose value type is not a tuple
    | MapValueTupleEmpty   // a map whose value tuple has no first field

  /** Either a value or the fault that aborted its construction; usable with `:-`. */
  datatype Result<+T> = Ok(value: T) | Fail(fault: Fault) {

    predicate IsFailure() {
      Fail?
    }

    function PropagateFailure<U>(): Result<U>
      requires Fail?
    {
      Fail(fault)
    }

    function Extract(): T
      requires Ok?
    {
      value
    }
  }
}
