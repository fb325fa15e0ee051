// Shared vocabulary: optional values and the machine integer widths of the contract.

module Prelude {

  /** An optional value; also used for decoders that may reject their input. */
  datatype Option<+T> = None | Some(value: T) {

    predicate IsFailure() {
      None?
    }

    function PropagateFailure<U>(): Option<U>
      requires None?
    {
      None
    }

    function Extract(): T
      requires Some?
    {
      value
    }
  }

  const TWO_TO_THE_32: int := 0x1_0000_0000
  const TWO_TO_THE_64: int := 0x1_0000_0000_0000_0000
  const TWO_TO_THE_128: int := 0x1_0000_0000_0000_0000_0000_0000_0000_0000

  type byte = n: nat | n < 256
  type uint32 = n: nat | n < TWO_TO_THE_32
  type uint64 = n: nat | n < TWO_TO_THE_64
  type uint128 = n: nat | n < TWO_TO_THE_128

  /** Concatenation is associative. */
  lemma Regroup<T>(a: seq<T>, b: seq<T>, c: seq<T>)
    ensures (a + b) + c == a + (b + c)
  {
  }
}
