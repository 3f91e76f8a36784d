/** Jurisdiction codes per address, kept under three keys: the code list, the legacy single code, and the expiry. */
module JurisdictionFlag {
  import opened Host
  import Runs
  import opened Lists

  const MAX_BATCH_SIZE := 100
  const MAX_CODES_PER_ADDRESS := 8

  datatype Error =
    | NotInitialized | AlreadyInitialized | NotAuthorized | InvalidInput | ContractPaused | InvalidJurisdictionCode
    | EmptyAllowedCodes | NoPendingIssuer | PendingIssuerMismatch | TooManyCodes

  datatype Storage = Storage(
    issuer: Option<Address>,
    pendingIssuer: Option<Address>,
    officer: Option<Address>,
    paused: bool,
    list: map<Address, seq<string>>,
    legacy: map<Address, string>,
    validUntil: map<Address, u32>)

  datatype Call =
    | Initialize(caller: Address)
    | TransferIssuer(caller: Address, newIssuer: Address)
    | ProposeIssuer(caller: Address, newIssuer: Address)
    | AcceptIssuer(caller: Address)
    | CancelIssuerProposal(caller: Address)
    | SetOfficer(caller: Address, newOfficer: Option<Address>)
    | SetPaused(caller: Address, pause: bool)
    | SetJurisdiction(caller: Address, address: Address, code: string)
    | SetMultiple(caller: Address, entries: seq<(Address, string)>)
    | SetUntil(caller: Address, address: Address, code: string, until: u32)
    | AddJurisdiction(caller: Address, address: Address, code: string)
    | RemoveJurisdiction(caller: Address, address: Address, code: string)
    | RemoveMultiple(caller: Address, addresses: seq<Address>)

  datatype Tx = Tx(ledger: u32, auth: set<Address>, call: Call)

  type Result = Outcome<Storage, Error>

  // ---- Specification ---------------------------------------------------------------------------------------

  /** Exactly two uppercase ASCII letters. */
  predicate ValidCode(code: string) {
    |code| == 2 && 'A' <= code[0] <= 'Z' && 'A' <= code[1] <= 'Z'
  }

  function RequireIssuer(s: Storage, auth: set<Address>, caller: Address): Outcome<(), Error> {
    if caller !in auth then Trap
    else if s.issuer.None? then Err(NotInitialized)
    else if s.issuer.value != caller then Err(NotAuthorized)
    else Ok(())
  }

  function RequireAuthority(s: Storage, auth: set<Address>, caller: Address): Outcome<(), Error> {
    if caller !in auth then Trap
    else if s.issuer.None? then Err(NotInitialized)
    else if s.issuer.value == caller || s.officer == Some(caller) then Ok(())
    else Err(NotAuthorized)
  }

  function RequireUnpaused(s: Storage): Outcome<(), Error> {
    if s.paused then Err(ContractPaused) else Ok(())
  }

  function Load(s: Storage, a: Address): seq<string> {
    if a in s.list then s.list[a] else if a in s.legacy then [s.legacy[a]] else []
  }

  function Store(s: Storage, a: Address, codes: seq<string>): Storage {
    if codes != [] then s.(list := s.list[a := codes], legacy := s.legacy[a := codes[0]])
    else s.(list := s.list - {a}, legacy := s.legacy - {a}, validUntil := s.validUntil - {a})
  }

  function Replace(s: Storage, a: Address, code: string, until: Option<u32>): Storage {
    var t := Store(s, a, [code]);
    t.(validUntil := if until.Some? then t.validUntil[a := until.value] else t.validUntil - {a})
  }

  function ReplaceAll(s: Storage, entries: seq<(Address, string)>): Storage {
    if entries == [] then s
    else
      var (a, code) := entries[|entries| - 1];
      Replace(ReplaceAll(s, entries[..|entries| - 1]), a, code, None)
  }

  function ClearAll(s: Storage, addresses: seq<Address>): Storage {
    if addresses == [] then s
    else Store(ClearAll(s, addresses[..|addresses| - 1]), addresses[|addresses| - 1], [])
  }

  /** The authority and pause guards of a call. */
  function Guard(s: Storage, auth: set<Address>, call: Call): Outcome<(), Error> {
    match call
    case Initialize(caller) =>
      if s.issuer.Some? then Err(AlreadyInitialized) else if caller !in auth then Trap else Ok(())
    case TransferIssuer(caller, _) => RequireIssuer(s, auth, caller)
    case ProposeIssuer(caller, _) => RequireIssuer(s, auth, caller)
    case AcceptIssuer(caller) =>
      if caller !in auth then Trap
      else if s.pendingIssuer.None? then Err(NoPendingIssuer)
      else if s.pendingIssuer.value != caller then Err(PendingIssuerMismatch)
      else if s.issuer.None? then Err(NotInitialized)
      else Ok(())
    case CancelIssuerProposal(caller) => RequireIssuer(s, auth, caller)
    case SetOfficer(caller, _) => RequireIssuer(s, auth, caller)
    case SetPaused(caller, _) => RequireIssuer(s, auth, caller)
    case RemoveJurisdiction(caller, _, _) => var _ :- RequireIssuer(s, auth, caller); RequireUnpaused(s)
    case RemoveMultiple(caller, _) => var _ :- RequireIssuer(s, auth, caller); RequireUnpaused(s)
    case _ => var _ :- RequireAuthority(s, auth, call.caller); RequireUnpaused(s)
  }

  /** The calls about codes; the others concern issuer, officer and pause. */
  predicate IsFlagCall(call: Call) {
    && !call.Initialize? && !call.TransferIssuer? && !call.ProposeIssuer? && !call.AcceptIssuer?
    && !call.CancelIssuerProposal? && !call.SetOfficer? && !call.SetPaused?
  }

  function Effect(s: Storage, ledger: u32, call: Call): Result {
    match call
    case Initialize(caller) => Ok(s.(issuer := Some(caller), paused := false))
    case TransferIssuer(_, newIssuer) => Ok(s.(issuer := Some(newIssuer), pendingIssuer := None))
    case ProposeIssuer(_, newIssuer) => Ok(s.(pendingIssuer := Some(newIssuer)))
    case AcceptIssuer(caller) => Ok(s.(issuer := Some(caller), pendingIssuer := None))
    case CancelIssuerProposal(_) => Ok(s.(pendingIssuer := None))
    case SetOfficer(_, newOfficer) => Ok(s.(officer := newOfficer))
    case SetPaused(_, pause) => Ok(s.(paused := pause))
    case SetJurisdiction(_, a, code) =>
      if !ValidCode(code) then Err(InvalidJurisdictionCode) else Ok(Replace(s, a, code, None))
    case SetMultiple(_, entries) =>
      if entries == [] || |entries| > MAX_BATCH_SIZE then Err(InvalidInput)
      else if exists e :: e in entries && !ValidCode(e.1) then Err(InvalidJurisdictionCode)
      else Ok(ReplaceAll(s, entries))
    case SetUntil(_, a, code, until) =>
      if !ValidCode(code) then Err(InvalidJurisdictionCode)
      else if until < ledger then Err(InvalidInput)
      else Ok(Replace(s, a, code, Some(until)))
    case AddJurisdiction(_, a, code) =>
      if !ValidCode(code) then Err(InvalidJurisdictionCode)
      else if code in Load(s, a) then Ok(s)
      else if |Load(s, a)| >= MAX_CODES_PER_ADDRESS then Err(TooManyCodes)
      else Ok(Store(s, a, Load(s, a) + [code]))
    case RemoveJurisdiction(_, a, code) => Ok(Store(s, a, Without(Load(s, a), code)))
    case RemoveMultiple(_, addresses) => Ok(ClearAll(s, addresses))
  }

  function Run(s: Storage, tx: Tx): Result {
    var _ :- Guard(s, tx.auth, tx.call);
    Effect(s, tx.ledger, tx.call)
  }

  /** A transaction that fails leaves the storage as it was. */
  function Step(s: Storage, tx: Tx): Storage {
    var r := Run(s, tx);
    if r.Ok? then r.value else s
  }

  function After(s: Storage, txs: seq<Tx>, n: nat): Storage
    requires n <= |txs|
  {
    Runs.After(Step, s, txs, n)
  }

  /** The codes an address shows in `ledger`: none once its expiry has passed. */
  function Active(s: Storage, ledger: u32, a: Address): seq<string> {
    if a in s.validUntil && s.validUntil[a] < ledger then [] else Load(s, a)
  }

  // ---- The contract ----------------------------------------------------------------------------------------

  class Contract {
    var issuer: Option<Address>
    var pendingIssuer: Option<Address>
    var officer: Option<Address>
    var paused: bool
    var list: map<Address, seq<string>>
    var legacy: map<Address, string>
    var validUntil: map<Address, u32>

    /** A contract upgraded from the version that only kept legacy codes; a new one has none. */
    constructor (legacyCodes: map<Address, string>)
      ensures Snapshot() == Storage(None, None, None, false, map[], legacyCodes, map[])
    {
      issuer, pendingIssuer, officer, paused := None, None, None, false;
      list, legacy, validUntil := map[], legacyCodes, map[];
    }

    function Snapshot(): Storage
      reads this
    {
      Storage(issuer, pendingIssuer, officer, paused, list, legacy, validUntil)
    }

    ghost predicate Meets(r: Outcome<(), Error>, spec: Result)
      reads this
    {
      match spec
      case Ok(s) => r == Ok(()) && Snapshot() == s
      case Err(e) => r == Err(e)
      case Trap => r == Trap
    }

    /** The host's transaction: guards, then the entry point's body, whose writes all follow its checks. */
    method Invoke(tx: Tx) returns (r: Outcome<(), Error>)
      modifies this
      ensures Meets(r, Run(old(Snapshot()), tx))
      ensures Snapshot() == Step(old(Snapshot()), tx)
    {
      var _ :- Guard(Snapshot(), tx.auth, tx.call);
      match tx.call {
        case SetJurisdiction(_, a, code) => r := SetJurisdiction(a, code);
        case SetMultiple(_, entries) => r := SetMultipleJurisdictions(entries);
        case SetUntil(_, a, code, until) => r := SetJurisdictionUntil(tx.ledger, a, code, until);
        case AddJurisdiction(_, a, code) => r := AddJurisdiction(a, code);
        case RemoveJurisdiction(_, a, code) => r := RemoveJurisdiction(a, code);
        case RemoveMultiple(_, addresses) => r := RemoveJurisdictionMultiple(addresses);
        case _ => r := ChangeRoles(tx.call);
      }
    }

    /** The calls about issuer, officer and pause, once their guard has passed. */
    method ChangeRoles(call: Call) returns (r: Outcome<(), Error>)
      requires !IsFlagCall(call)
      modifies this`issuer, this`pendingIssuer, this`officer, this`paused
      ensures forall ledger :: Meets(r, Effect(old(Snapshot()), ledger, call))
    {
      match call {
        case Initialize(caller) =>
          issuer := Some(caller);
          paused := false;
        case TransferIssuer(_, newIssuer) =>
          issuer := Some(newIssuer);
          pendingIssuer := None;
        case ProposeIssuer(_, newIssuer) => pendingIssuer := Some(newIssuer);
        case AcceptIssuer(newIssuer) =>
          issuer := Some(newIssuer);
          pendingIssuer := None;
        case CancelIssuerProposal(_) => pendingIssuer := None;
        case SetOfficer(_, newOfficer) => officer := newOfficer;
        case SetPaused(_, pause) => paused := pause;
      }
      return Ok(());
    }

    method StoreJurisdictions(a: Address, codes: seq<string>)
      modifies this`list, this`legacy, this`validUntil
      ensures Snapshot() == Store(old(Snapshot()), a, codes)
    {
      if |codes| > 0 {
        list := list[a := codes];
        legacy := legacy[a := codes[0]];
      } else {
        list := list - {a};
        legacy := legacy - {a};
        validUntil := validUntil - {a};
      }
    }

    method LoadJurisdictions(a: Address) returns (codes: seq<string>)
      ensures codes == Load(Snapshot(), a)
    {
      if a in list { return list[a]; }
      if a in legacy { return [legacy[a]]; }
      return [];
    }

    method SetJurisdiction(a: Address, code: string) returns (r: Outcome<(), Error>)
      modifies this`list, this`legacy, this`validUntil
      ensures forall caller, ledger :: Meets(r, Effect(old(Snapshot()), ledger, Call.SetJurisdiction(caller, a, code)))
      ensures !r.Ok? ==> Snapshot() == old(Snapshot())
    {
      if !ValidCode(code) { return Err(InvalidJurisdictionCode); }
      StoreJurisdictions(a, [code]);
      validUntil := validUntil - {a};
      return Ok(());
    }

    method SetMultipleJurisdictions(entries: seq<(Address, string)>) returns (r: Outcome<(), Error>)
      modifies this`list, this`legacy, this`validUntil
      ensures forall caller, ledger :: Meets(r, Effect(old(Snapshot()), ledger, SetMultiple(caller, entries)))
      ensures !r.Ok? ==> Snapshot() == old(Snapshot())
    {
      hide ValidCode, Store;
      if |entries| == 0 || |entries| > MAX_BATCH_SIZE { return Err(InvalidInput); }
      for i := 0 to |entries|
        invariant forall e :: e in entries[..i] ==> ValidCode(e.1)
      {
        if !ValidCode(entries[i].1) {
          assert entries[i] in entries;
          return Err(InvalidJurisdictionCode);
        }
      }
      assert entries[..|entries|] == entries;
      ghost var before := Snapshot();
      for i := 0 to |entries|
        invariant Snapshot() == ReplaceAll(before, entries[..i])
      {
        assert entries[..i + 1][..i] == entries[..i];
        StoreJurisdictions(entries[i].0, [entries[i].1]);
        validUntil := validUntil - {entries[i].0};
      }
      return Ok(());
    }

    method SetJurisdictionUntil(ledger: u32, a: Address, code: string, until: u32) returns (r: Outcome<(), Error>)
      modifies this`list, this`legacy, this`validUntil
      ensures forall caller :: Meets(r, Effect(old(Snapshot()), ledger, SetUntil(caller, a, code, until)))
      ensures !r.Ok? ==> Snapshot() == old(Snapshot())
    {
      if !ValidCode(code) { return Err(InvalidJurisdictionCode); }
      if until < ledger { return Err(InvalidInput); }
      StoreJurisdictions(a, [code]);
      validUntil := validUntil[a := until];
      return Ok(());
    }

    method AddJurisdiction(a: Address, code: string) returns (r: Outcome<(), Error>)
      modifies this`list, this`legacy, this`validUntil
      ensures forall caller, ledger :: Meets(r, Effect(old(Snapshot()), ledger, Call.AddJurisdiction(caller, a, code)))
      ensures !r.Ok? ==> Snapshot() == old(Snapshot())
    {
      if !ValidCode(code) { return Err(InvalidJurisdictionCode); }
      var codes := LoadJurisdictions(a);
      if code !in codes {
        if |codes| >= MAX_CODES_PER_ADDRESS { return Err(TooManyCodes); }
        StoreJurisdictions(a, codes + [code]);
      }
      return Ok(());
    }

    method RemoveJurisdiction(a: Address, code: string) returns (r: Outcome<(), Error>)
      modifies this`list, this`legacy, this`validUntil
      ensures forall caller, ledger :: Meets(r, Effect(old(Snapshot()), ledger, Call.RemoveJurisdiction(caller, a, code)))
    {
      var codes := LoadJurisdictions(a);
      var remaining := [];
      for i := 0 to |codes|
        invariant remaining == Without(codes[..i], code)
      {
        assert codes[..i + 1][..i] == codes[..i];
        if codes[i] != code {
          remaining := remaining + [codes[i]];
        }
      }
      assert codes[..|codes|] == codes;
      StoreJurisdictions(a, remaining);
      return Ok(());
    }

    method RemoveJurisdictionMultiple(addresses: seq<Address>) returns (r: Outcome<(), Error>)
      modifies this`list, this`legacy, this`validUntil
      ensures forall caller, ledger :: Meets(r, Effect(old(Snapshot()), ledger, RemoveMultiple(caller, addresses)))
    {
      ghost var before := Snapshot();
      for i := 0 to |addresses|
        invariant Snapshot() == ClearAll(before, addresses[..i])
      {
        assert addresses[..i + 1][..i] == addresses[..i];
        StoreJurisdictions(addresses[i], []);
      }
      assert addresses[..|addresses|] == addresses;
      return Ok(());
    }

    method ListJurisdictions(ledger: u32, a: Address) returns (codes: seq<string>)
      ensures codes == Active(Snapshot(), ledger, a)
    {
      codes := LoadJurisdictions(a);
      if |codes| == 0 { return codes; }
      if a in validUntil {
        if validUntil[a] < ledger { return []; }
      }
    }

    method GetJurisdiction(ledger: u32, a: Address) returns (code: Option<string>)
      ensures var active := Active(Snapshot(), ledger, a);
        code == if active == [] then None else Some(active[0])
    {
      var active := ListJurisdictions(ledger, a);
      return if |active| == 0 then None else Some(active[0]);
    }

    /** Permitted is a non-empty intersection of the allowed codes with the active ones. */
    method IsPermittedJurisdiction(ledger: u32, a: Address, allowed: seq<string>) returns (r: Outcome<bool, Error>)
      ensures allowed == [] ==> r == Err(EmptyAllowedCodes)
      ensures allowed != [] ==> r == Ok(Members(allowed) * Members(Active(Snapshot(), ledger, a)) != {})
    {
      if |allowed| == 0 { return Err(EmptyAllowedCodes); }
      var codes := ListJurisdictions(ledger, a);
      for i := 0 to |allowed|
        invariant forall c :: c in allowed[..i] ==> c !in codes
      {
        for j := 0 to |codes|
          invariant allowed[i] !in codes[..j]
        {
          if codes[j] == allowed[i] {
            assert codes[j] in Members(allowed) * Members(codes);
            return Ok(true);
          }
        }
        assert codes[..|codes|] == codes;
      }
      assert allowed[..|allowed|] == allowed;
      return Ok(false);
    }
  }
}
