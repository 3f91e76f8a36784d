/** The token gated by a denylist: balances and allowances in checked 128-bit arithmetic. */
module GatedToken {
  import opened Host
  import Runs
  import opened Oracles

  datatype Error =
    NotInitialized | AlreadyInitialized | NotAuthorized | InsufficientBalance | InsufficientAllowance | DeniedByGate

  datatype Storage = Storage(
    admin: Option<Address>,
    gate: Option<Address>,
    balances: map<Address, i128>,
    allowances: map<(Address, Address), i128>)

  datatype Call =
    | Initialize(admin: Address, gate: Address)
    | Mint(admin: Address, to: Address, amount: i128)
    | Approve(from: Address, spender: Address, amount: i128)
    | Transfer(from: Address, to: Address, amount: i128)
    | TransferFrom(spender: Address, from: Address, to: Address, amount: i128)
    | Burn(from: Address, amount: i128)
    | BurnFrom(spender: Address, from: Address, amount: i128)

  /** One transaction, with the answers other contracts give while it runs. */
  datatype Tx = Tx(auth: set<Address>, world: World, call: Call)

  type Result = Outcome<Storage, Error>

  const FRESH := Storage(None, None, map[], map[])

  // ---- Specification ---------------------------------------------------------------------------------------

  predicate InRange(x: int) {
    MIN_I128 <= x <= MAX_I128
  }

  /** Arithmetic traps outside the 128-bit range. */
  function Checked(x: int): Outcome<i128, Error> {
    if InRange(x) then Ok(x) else Trap
  }

  function Balance(s: Storage, a: Address): i128 {
    if a in s.balances then s.balances[a] else 0
  }

  function Allowance(s: Storage, owner: Address, spender: Address): i128 {
    if (owner, spender) in s.allowances then s.allowances[(owner, spender)] else 0
  }

  function Authorise(auth: set<Address>, a: Address): Outcome<(), Error> {
    if a in auth then Ok(()) else Trap
  }

  function RequireAdmin(s: Storage, auth: set<Address>, admin: Address): Outcome<(), Error> {
    var _ :- Authorise(auth, admin);
    if s.admin.None? then Err(NotInitialized) else if s.admin.value != admin then Err(NotAuthorized) else Ok(())
  }

  /** The gate must clear the sender and then the recipient. */
  function GateCheck(s: Storage, w: World, from: Address, to: Address): Outcome<(), Error> {
    if s.gate.None? then Err(NotInitialized)
    else
      var fromClear :- Ask<Error>(w.check(s.gate.value, from));
      if !fromClear then Err(DeniedByGate)
      else
        var toClear :- Ask<Error>(w.check(s.gate.value, to));
        if toClear then Ok(()) else Err(DeniedByGate)
  }

  /** Both balances are read before either is written. */
  function Move(s: Storage, from: Address, to: Address, amount: i128): Result {
    if Balance(s, from) < amount then Err(InsufficientBalance)
    else
      var fromNew :- Checked(Balance(s, from) - amount);
      var toNew :- Checked(Balance(s, to) + amount);
      Ok(s.(balances := s.balances[from := fromNew][to := toNew]))
  }

  function Draw(s: Storage, owner: Address, spender: Address, amount: i128): Result {
    var allowance := Allowance(s, owner, spender);
    if allowance < amount then Err(InsufficientAllowance)
    else
      var rest :- Checked(allowance - amount);
      Ok(s.(allowances := s.allowances[(owner, spender) := rest]))
  }

  function Destroy(s: Storage, from: Address, amount: i128): Result {
    if Balance(s, from) < amount then Err(InsufficientBalance)
    else
      var rest :- Checked(Balance(s, from) - amount);
      Ok(s.(balances := s.balances[from := rest]))
  }

  function Run(s: Storage, tx: Tx): Result {
    match tx.call
    case Initialize(admin, gate) =>
      if s.admin.Some? then Err(AlreadyInitialized)
      else
        var _ :- Authorise(tx.auth, admin);
        Ok(s.(admin := Some(admin), gate := Some(gate)))
    case Mint(admin, to, amount) =>
      var _ :- RequireAdmin(s, tx.auth, admin);
      var sum :- Checked(Balance(s, to) + amount);
      Ok(s.(balances := s.balances[to := sum]))
    case Approve(from, spender, amount) =>
      var _ :- Authorise(tx.auth, from);
      Ok(s.(allowances := s.allowances[(from, spender) := amount]))
    case Transfer(from, to, amount) =>
      var _ :- Authorise(tx.auth, from);
      var _ :- GateCheck(s, tx.world, from, to);
      Move(s, from, to, amount)
    case TransferFrom(spender, from, to, amount) =>
      var _ :- Authorise(tx.auth, spender);
      var _ :- GateCheck(s, tx.world, from, to);
      var drawn :- Draw(s, from, spender, amount);
      Move(drawn, from, to, amount)
    case Burn(from, amount) =>
      var _ :- Authorise(tx.auth, from);
      Destroy(s, from, amount)
    case BurnFrom(spender, from, amount) =>
      var _ :- Authorise(tx.auth, spender);
      var drawn :- Draw(s, from, spender, amount);
      Destroy(drawn, from, amount)
  }

  /** A transaction that fails leaves the storage as it was. */
  function Step(s: Storage, tx: Tx): Storage {
    var r := Run(s, tx);
    if r.Ok? then r.value else s
  }

  /** The storage after the first `n` transactions of a new token. */
  function After(txs: seq<Tx>, n: nat): Storage
    requires n <= |txs|
  {
    Runs.After(Step, FRESH, txs, n)
  }

  // ---- The contract ----------------------------------------------------------------------------------------

  class Contract {
    var admin: Option<Address>
    var gate: Option<Address>
    var balances: map<Address, i128>
    var allowances: map<(Address, Address), i128>

    constructor ()
      ensures Snapshot() == FRESH
    {
      admin, gate, balances, allowances := None, None, map[], map[];
    }

    function Snapshot(): Storage
      reads this
    {
      Storage(admin, gate, balances, allowances)
    }

    ghost predicate Meets(r: Outcome<(), Error>, spec: Result)
      reads this
    {
      match spec
      case Ok(s) => r == Ok(()) && Snapshot() == s
      case Err(e) => r == Err(e)
      case Trap => r == Trap
    }

    /** The host's transaction: a failed call leaves nothing behind, not even an allowance already lowered. */
    method Invoke(tx: Tx) returns (r: Outcome<(), Error>)
      modifies this
      ensures Meets(r, Run(old(Snapshot()), tx))
      ensures Snapshot() == Step(old(Snapshot()), tx)
    {
      var saved := Snapshot();
      r := Dispatch(tx);
      if !r.Ok? {
        admin, gate, balances, allowances := saved.admin, saved.gate, saved.balances, saved.allowances;
      }
    }

    method Dispatch(tx: Tx) returns (r: Outcome<(), Error>)
      modifies this
      ensures Meets(r, Run(old(Snapshot()), tx))
    {
      match tx.call {
        case Initialize(adm, g) =>
          if admin.Some? { return Err(AlreadyInitialized); }
          var _ :- Authorise(tx.auth, adm);
          admin := Some(adm);
          gate := Some(g);
        case Mint(adm, to, amount) =>
          var _ :- RequireAdmin(Snapshot(), tx.auth, adm);
          var sum :- Checked(Balance(Snapshot(), to) + amount);
          balances := balances[to := sum];
        case Approve(from, spender, amount) =>
          var _ :- Authorise(tx.auth, from);
          allowances := allowances[(from, spender) := amount];
        case Transfer(from, to, amount) =>
          var _ :- Authorise(tx.auth, from);
          var _ :- CheckGate(tx.world, from, to);
          r := DoTransfer(from, to, amount);
          return;
        case TransferFrom(spender, from, to, amount) =>
          var _ :- Authorise(tx.auth, spender);
          var _ :- CheckGate(tx.world, from, to);
          var _ :- LowerAllowance(from, spender, amount);
          r := DoTransfer(from, to, amount);
          return;
        case Burn(from, amount) =>
          var _ :- Authorise(tx.auth, from);
          r := DoBurn(from, amount);
          return;
        case BurnFrom(spender, from, amount) =>
          var _ :- Authorise(tx.auth, spender);
          var _ :- LowerAllowance(from, spender, amount);
          r := DoBurn(from, amount);
          return;
      }
      return Ok(());
    }

    method CheckGate(w: World, from: Address, to: Address) returns (r: Outcome<(), Error>)
      ensures r == GateCheck(Snapshot(), w, from, to)
    {
      if gate.None? { return Err(NotInitialized); }
      var fromClear :- Ask(w.check(gate.value, from));
      if !fromClear { return Err(DeniedByGate); }
      var toClear :- Ask(w.check(gate.value, to));
      if !toClear { return Err(DeniedByGate); }
      return Ok(());
    }

    method LowerAllowance(owner: Address, spender: Address, amount: i128) returns (r: Outcome<(), Error>)
      modifies this`allowances
      ensures Meets(r, Draw(old(Snapshot()), owner, spender, amount))
    {
      var allowance := Allowance(Snapshot(), owner, spender);
      if allowance < amount { return Err(InsufficientAllowance); }
      var rest :- Checked(allowance - amount);
      allowances := allowances[(owner, spender) := rest];
      return Ok(());
    }

    method DoTransfer(from: Address, to: Address, amount: i128) returns (r: Outcome<(), Error>)
      modifies this`balances
      ensures Meets(r, Move(old(Snapshot()), from, to, amount))
    {
      var fromBalance := Balance(Snapshot(), from);
      if fromBalance < amount { return Err(InsufficientBalance); }
      var toBalance := Balance(Snapshot(), to);
      var fromNew :- Checked(fromBalance - amount);
      balances := balances[from := fromNew];
      var toNew :- Checked(toBalance + amount);
      balances := balances[to := toNew];
      return Ok(());
    }

    method DoBurn(from: Address, amount: i128) returns (r: Outcome<(), Error>)
      modifies this`balances
      ensures Meets(r, Destroy(old(Snapshot()), from, amount))
    {
      var balance := Balance(Snapshot(), from);
      if balance < amount { return Err(InsufficientBalance); }
      var rest :- Checked(balance - amount);
      balances := balances[from := rest];
      return Ok(());
    }
  }
}
