/** Answers of the contracts that checks call into. They are fixed for the length of one transaction. */
module Oracles {
  import opened Host

  /** What a cross-contract call gives back. */
  datatype Reply = Yes | No | CalleeError | CalleeTrap

  datatype World = World(
    check: (Address, Address) -> Reply,                      // denylist-gate at, address
    permitted: (Address, Address, seq<string>) -> Reply,     // jurisdiction-flag at, address, allowed codes
    allowed: (Address, Address) -> Reply,                    // allowlist-token at, address
    frozen: Address -> Reply)                                // circuit-breaker at

  /** A plain client call: an error of the callee traps the caller. */
  function Ask<E>(reply: Reply): Outcome<bool, E> {
    match reply
    case Yes => Ok(true)
    case No => Ok(false)
    case _ => Trap
  }

  /** A `try_` client call matched against success with `true`. */
  predicate TryAsk(reply: Reply) {
    reply.Yes?
  }
}
