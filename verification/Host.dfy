/** What every contract sees of its host: addresses, machine integers, and the three ways a call can end. */
module Host {

  datatype Address = Address(id: nat)

  /** A code hash; only its identity matters here. */
  datatype WasmHash = WasmHash(id: nat)

  const MAX_U32: int := 0xFFFF_FFFF
  const MAX_U64: int := 0xFFFF_FFFF_FFFF_FFFF
  const MIN_I128: int := -0x8000_0000_0000_0000_0000_0000_0000_0000
  const MAX_I128: int := 0x7FFF_FFFF_FFFF_FFFF_FFFF_FFFF_FFFF_FFFF

  type u32 = x: int | 0 <= x <= MAX_U32
  type u64 = x: int | 0 <= x <= MAX_U64
  type i128 = x: int | MIN_I128 <= x <= MAX_I128

  datatype Option<+T> = None | Some(value: T)

  /** A call returns a value, returns a contract error, or traps.
      In the last two cases the host discards everything the call wrote. */
  datatype Outcome<+T, +E> = Ok(value: T) | Err(error: E) | Trap {
    predicate IsFailure() {
      !Ok?
    }

    function PropagateFailure<U>(): Outcome<U, E>
      requires IsFailure()
    {
      match this
      case Err(e) => Err(e)
      case Trap => Trap
    }

    function Extract(): T
      requires Ok?
    {
      value
    }
  }
}
