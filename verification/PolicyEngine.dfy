/** The configurable policy: an ordered list of checks combined with All or Any, evaluated with short-circuits. */
module PolicyEngine {
  import opened Host
  import Runs
  import opened Oracles

  const MAX_CHECKS := 16

  datatype Error = NotInitialized | AlreadyInitialized | NotAuthorized | MaxDepthExceeded | IndexOutOfBounds | ContractPaused

  datatype CheckKind =
    | Denylist(contract: Address)
    | Jurisdiction(contract: Address, allowedCodes: seq<string>)
    | Allowlist(contract: Address)
    | CircuitBreaker(contract: Address)

  datatype CombineOp = All | Any

  datatype CheckFailure = CheckFailure(checkIndex: nat, kind: string)

  datatype Verdict = Verdict(passed: bool, failure: Option<CheckFailure>)

  datatype PolicyResult = PolicyResult(passed: bool, from: Address, to: Address)

  datatype AddressPair = AddressPair(from: Address, to: Address)

  datatype Storage = Storage(
    admin: Option<Address>,
    op: Option<CombineOp>,
    checks: Option<seq<CheckKind>>,
    breaker: Option<Address>,
    paused: bool)

  datatype Call =
    | Initialize(admin: Address, op: CombineOp, maybeBreaker: Option<Address>)
    | SetCircuitBreaker(admin: Address, breaker: Address)
    | AddCheck(admin: Address, check: CheckKind)
    | RemoveCheck(admin: Address, index: u32)
    | SwapChecks(admin: Address, i: u32, j: u32)
    | ClearChecks(admin: Address)

  datatype Tx = Tx(auth: set<Address>, call: Call)

  const FRESH := Storage(None, None, None, None, false)

  // ---- Specification of the administration -----------------------------------------------------------------

  function RequireAdmin(s: Storage, auth: set<Address>, admin: Address): Outcome<(), Error> {
    if admin !in auth then Trap
    else if s.admin.None? then Err(NotInitialized)
    else if s.admin.value != admin then Err(NotAuthorized)
    else Ok(())
  }

  function Swap<T>(xs: seq<T>, i: nat, j: nat): seq<T>
    requires i < |xs| && j < |xs|
  {
    xs[i := xs[j]][j := xs[i]]
  }

  /** The three edits of an existing list. */
  function EditChecks(checks: seq<CheckKind>, call: Call): Outcome<seq<CheckKind>, Error>
    requires call.AddCheck? || call.RemoveCheck? || call.SwapChecks?
  {
    match call
    case AddCheck(_, check) => if |checks| >= MAX_CHECKS then Err(MaxDepthExceeded) else Ok(checks + [check])
    case RemoveCheck(_, index) =>
      if index >= |checks| then Err(IndexOutOfBounds) else Ok(checks[..index] + checks[index + 1..])
    case SwapChecks(_, i, j) => if i >= |checks| || j >= |checks| then Err(IndexOutOfBounds) else Ok(Swap(checks, i, j))
  }

  function Edit(s: Storage, auth: set<Address>, call: Call): Outcome<Storage, Error>
    requires call.AddCheck? || call.RemoveCheck? || call.SwapChecks?
  {
    var _ :- RequireAdmin(s, auth, call.admin);
    if call.SwapChecks? && call.i == call.j then Ok(s)
    else if s.checks.None? then Err(NotInitialized)
    else
      var checks :- EditChecks(s.checks.value, call);
      Ok(s.(checks := Some(checks)))
  }

  function Run(s: Storage, tx: Tx): Outcome<Storage, Error> {
    match tx.call
    case Initialize(admin, op, breaker) =>
      if s.admin.Some? then Err(AlreadyInitialized)
      else if admin !in tx.auth then Trap
      else Ok(Storage(Some(admin), Some(op), Some([]), if breaker.Some? then breaker else s.breaker, s.paused))
    case SetCircuitBreaker(admin, breaker) =>
      var _ :- RequireAdmin(s, tx.auth, admin);
      Ok(s.(breaker := Some(breaker)))
    case AddCheck(_, _) => if s.paused then Err(ContractPaused) else Edit(s, tx.auth, tx.call)
    case RemoveCheck(_, _) => if s.paused then Err(ContractPaused) else Edit(s, tx.auth, tx.call)
    case SwapChecks(_, _, _) => Edit(s, tx.auth, tx.call)
    case ClearChecks(admin) =>
      if s.paused then Err(ContractPaused)
      else
        var _ :- RequireAdmin(s, tx.auth, admin);
        Ok(s.(checks := Some([])))
  }

  function Step(s: Storage, tx: Tx): Storage {
    var r := Run(s, tx);
    if r.Ok? then r.value else s
  }

  function After(s: Storage, txs: seq<Tx>, n: nat): Storage
    requires n <= |txs|
  {
    Runs.After(Step, s, txs, n)
  }

  // ---- Specification of the evaluation ---------------------------------------------------------------------

  function RunCheck(w: World, check: CheckKind, address: Address): (r: Outcome<bool, Error>)
    ensures !r.Err?
  {
    match check
    case Denylist(c) => Ask(w.check(c, address))
    case Jurisdiction(c, codes) => Ok(TryAsk(w.permitted(c, address, codes)))
    case Allowlist(c) => Ask(w.allowed(c, address))
    case CircuitBreaker(c) =>
      var frozen :- Ask<Error>(w.frozen(c));
      Ok(!frozen)
  }

  function KindSymbol(check: CheckKind): string {
    match check
    case Denylist(_) => "Denylist"
    case Jurisdiction(_, _) => "Jurisdiction"
    case Allowlist(_) => "Allowlist"
    case CircuitBreaker(_) => "CircuitBreaker"
  }

  /** A check on both parties; the second is not asked about once the first has failed. */
  function RunBoth(w: World, check: CheckKind, from: Address, to: Address): (r: Outcome<bool, Error>)
    ensures !r.Err?
  {
    var first :- RunCheck(w, check, from);
    if !first then Ok(false) else RunCheck(w, check, to)
  }

  /** The first position at or after `i` whose check answers `stop`, without asking beyond it. */
  function Scan(w: World, checks: seq<CheckKind>, from: Address, to: Address, stop: bool, i: nat)
    : (r: Outcome<Option<nat>, Error>)
    requires i <= |checks|
    ensures r.Ok? && r.value.Some? ==> i <= r.value.value < |checks|
    ensures !r.Err?
    decreases |checks| - i
  {
    if i == |checks| then Ok(None)
    else
      var passed :- RunBoth(w, checks[i], from, to);
      if passed == stop then Ok(Some(i)) else Scan(w, checks, from, to, stop, i + 1)
  }

  function EvaluateOp(w: World, op: CombineOp, checks: seq<CheckKind>, from: Address, to: Address)
    : (r: Outcome<Verdict, Error>)
    ensures !r.Err?
  {
    match op
    case All =>
      var failing :- Scan(w, checks, from, to, false, 0);
      if failing.None? then Ok(Verdict(true, None))
      else Ok(Verdict(false, Some(CheckFailure(failing.value, KindSymbol(checks[failing.value])))))
    case Any =>
      if checks == [] then Ok(Verdict(false, None))
      else
        var passing :- Scan(w, checks, from, to, true, 0);
        if passing.Some? then Ok(Verdict(true, None))
        else Ok(Verdict(false, Some(CheckFailure(MAX_U32, "AllFailed"))))
  }

  function EvaluateInner(w: World, breaker: Option<Address>, op: CombineOp, checks: seq<CheckKind>,
                         from: Address, to: Address): (r: Outcome<Verdict, Error>)
    ensures !r.Err?
  {
    var frozen :- if breaker.Some? then Ask<Error>(w.frozen(breaker.value)) else Ok(false);
    if frozen then Ok(Verdict(false, None)) else EvaluateOp(w, op, checks, from, to)
  }

  function EvaluateVerbose(s: Storage, w: World, from: Address, to: Address): (r: Outcome<Verdict, Error>)
    ensures r.Err? <==> s.checks.None? || s.op.None?
    ensures r.Err? ==> r.error == NotInitialized
  {
    if s.checks.None? || s.op.None? then Err(NotInitialized)
    else EvaluateInner(w, s.breaker, s.op.value, s.checks.value, from, to)
  }

  /** `results` are the verdicts of evaluating each pair on its own, in order. */
  ghost predicate IsVerdicts(s: Storage, w: World, pairs: seq<AddressPair>, results: seq<bool>) {
    && |results| == |pairs|
    && forall k :: 0 <= k < |pairs| ==>
         var verdict := EvaluateVerbose(s, w, pairs[k].from, pairs[k].to);
         verdict.Ok? && results[k] == verdict.value.passed
  }

  function Published(pairs: seq<AddressPair>, results: seq<bool>): seq<PolicyResult>
    requires |results| == |pairs|
  {
    seq(|pairs|, k requires 0 <= k < |pairs| => PolicyResult(results[k], pairs[k].from, pairs[k].to))
  }

  // ---- The contract ----------------------------------------------------------------------------------------

  class Contract {
    var admin: Option<Address>
    var op: Option<CombineOp>
    var checks: Option<seq<CheckKind>>
    var breaker: Option<Address>
    var paused: bool
    var events: seq<PolicyResult>

    constructor ()
      ensures Snapshot() == FRESH && events == []
    {
      admin, op, checks, breaker, paused, events := None, None, None, None, false, [];
    }

    function Snapshot(): Storage
      reads this
    {
      Storage(admin, op, checks, breaker, paused)
    }

    ghost predicate Meets(r: Outcome<(), Error>, spec: Outcome<Storage, Error>)
      reads this
    {
      match spec
      case Ok(s) => r == Ok(()) && Snapshot() == s
      case Err(e) => r == Err(e)
      case Trap => r == Trap
    }

    /** The host's transaction around the administrative entry points, none of which writes before it can fail. */
    method Invoke(tx: Tx) returns (r: Outcome<(), Error>)
      modifies this`admin, this`op, this`checks, this`breaker
      ensures Meets(r, Run(old(Snapshot()), tx))
      ensures Snapshot() == Step(old(Snapshot()), tx)
    {
      match tx.call {
        case Initialize(adm, combine, maybeBreaker) => r := Initialize(tx.auth, adm, combine, maybeBreaker);
        case SetCircuitBreaker(adm, b) =>
          var _ :- RequireAdmin(Snapshot(), tx.auth, adm);
          breaker := Some(b);
          return Ok(());
        case AddCheck(adm, check) => r := AddCheck(tx.auth, adm, check);
        case RemoveCheck(adm, index) => r := RemoveCheck(tx.auth, adm, index);
        case SwapChecks(adm, i, j) => r := SwapChecks(tx.auth, adm, i, j);
        case ClearChecks(adm) =>
          if paused { return Err(ContractPaused); }
          var _ :- RequireAdmin(Snapshot(), tx.auth, adm);
          checks := Some([]);
          return Ok(());
      }
    }

    method Initialize(auth: set<Address>, adm: Address, combine: CombineOp, maybeBreaker: Option<Address>)
      returns (r: Outcome<(), Error>)
      modifies this`admin, this`op, this`checks, this`breaker
      ensures Meets(r, Run(old(Snapshot()), Tx(auth, Call.Initialize(adm, combine, maybeBreaker))))
      ensures !r.Ok? ==> Snapshot() == old(Snapshot())
    {
      if admin.Some? { return Err(AlreadyInitialized); }
      if adm !in auth { return Trap; }
      admin := Some(adm);
      op := Some(combine);
      checks := Some([]);
      if maybeBreaker.Some? {
        breaker := maybeBreaker;
      }
      return Ok(());
    }

    method AddCheck(auth: set<Address>, adm: Address, check: CheckKind) returns (r: Outcome<(), Error>)
      modifies this`checks
      ensures Meets(r, Run(old(Snapshot()), Tx(auth, Call.AddCheck(adm, check))))
      ensures !r.Ok? ==> Snapshot() == old(Snapshot())
    {
      if paused { return Err(ContractPaused); }
      var _ :- RequireAdmin(Snapshot(), auth, adm);
      if checks.None? { return Err(NotInitialized); }
      if |checks.value| >= MAX_CHECKS { return Err(MaxDepthExceeded); }
      checks := Some(checks.value + [check]);
      return Ok(());
    }

    method RemoveCheck(auth: set<Address>, adm: Address, index: u32) returns (r: Outcome<(), Error>)
      modifies this`checks
      ensures Meets(r, Run(old(Snapshot()), Tx(auth, Call.RemoveCheck(adm, index))))
      ensures !r.Ok? ==> Snapshot() == old(Snapshot())
    {
      if paused { return Err(ContractPaused); }
      var _ :- RequireAdmin(Snapshot(), auth, adm);
      if checks.None? { return Err(NotInitialized); }
      if index >= |checks.value| { return Err(IndexOutOfBounds); }
      checks := Some(checks.value[..index] + checks.value[index + 1..]);
      return Ok(());
    }

    method SwapChecks(auth: set<Address>, adm: Address, i: u32, j: u32) returns (r: Outcome<(), Error>)
      modifies this`checks
      ensures Meets(r, Run(old(Snapshot()), Tx(auth, Call.SwapChecks(adm, i, j))))
      ensures !r.Ok? ==> Snapshot() == old(Snapshot())
    {
      var _ :- RequireAdmin(Snapshot(), auth, adm);
      if i == j { return Ok(()); }
      if checks.None? { return Err(NotInitialized); }
      var list := checks.value;
      if i >= |list| || j >= |list| { return Err(IndexOutOfBounds); }
      var checkI, checkJ := list[i], list[j];
      list := list[i := checkJ];
      list := list[j := checkI];
      checks := Some(list);
      return Ok(());
    }

    /** `evaluate_inner`: every evaluation that returns publishes exactly one result. */
    method RunEvaluateInner(w: World, combine: CombineOp, list: seq<CheckKind>, from: Address, to: Address)
      returns (r: Outcome<Verdict, Error>)
      modifies this`events
      ensures r == EvaluateInner(w, breaker, combine, list, from, to)
      ensures events == old(events) + if r.Ok? then [PolicyResult(r.value.passed, from, to)] else []
    {
      if breaker.Some? {
        var frozen :- Ask(w.frozen(breaker.value));
        if frozen {
          events := events + [PolicyResult(false, from, to)];
          return Ok(Verdict(false, None));
        }
      }
      var verdict: Verdict;
      match combine {
        case All =>
          verdict := Verdict(true, None);
          var i := 0;
          while i < |list|
            invariant 0 <= i <= |list| && verdict == Verdict(true, None)
            invariant events == old(events)
            invariant Scan(w, list, from, to, false, 0) == Scan(w, list, from, to, false, i)
          {
            var passed :- RunCheck(w, list[i], from);
            if passed {
              passed :- RunCheck(w, list[i], to);
            }
            if !passed {
              verdict := Verdict(false, Some(CheckFailure(i, KindSymbol(list[i]))));
              break;
            }
            i := i + 1;
          }
        case Any =>
          if |list| == 0 {
            verdict := Verdict(false, None);
          } else {
            var anyPass := false;
            var i := 0;
            while i < |list|
              invariant 0 <= i <= |list| && !anyPass
              invariant events == old(events)
              invariant Scan(w, list, from, to, true, 0) == Scan(w, list, from, to, true, i)
            {
              var passed :- RunCheck(w, list[i], from);
              if passed {
                passed :- RunCheck(w, list[i], to);
              }
              if passed {
                anyPass := true;
                break;
              }
              i := i + 1;
            }
            verdict := if anyPass then Verdict(true, None) else Verdict(false, Some(CheckFailure(MAX_U32, "AllFailed")));
          }
      }
      events := events + [PolicyResult(verdict.passed, from, to)];
      return Ok(verdict);
    }

    method RunEvaluateVerbose(w: World, from: Address, to: Address) returns (r: Outcome<Verdict, Error>)
      modifies this`events
      ensures r == EvaluateVerbose(Snapshot(), w, from, to)
      ensures events == old(events) + if r.Ok? then [PolicyResult(r.value.passed, from, to)] else []
    {
      if checks.None? || op.None? { return Err(NotInitialized); }
      r := RunEvaluateInner(w, op.value, checks.value, from, to);
    }

    /** `evaluate` drops the failure detail. */
    method RunEvaluate(w: World, from: Address, to: Address) returns (r: Outcome<bool, Error>)
      modifies this`events
      ensures r.Ok? <==> EvaluateVerbose(Snapshot(), w, from, to).Ok?
      ensures r.Ok? ==> r.value == EvaluateVerbose(Snapshot(), w, from, to).value.passed
      ensures r.Err? <==> checks.None? || op.None?
      ensures r.Err? ==> r.error == NotInitialized
      ensures events == old(events) + if r.Ok? then [PolicyResult(r.value, from, to)] else []
    {
      var verdict :- RunEvaluateVerbose(w, from, to);
      return Ok(verdict.passed);
    }

    /** `batch_evaluate`, with the host undoing the results already published when a later pair traps. */
    method BatchEvaluate(w: World, pairs: seq<AddressPair>) returns (r: Outcome<seq<bool>, Error>)
      modifies this`events
      ensures r.Err? <==> checks.None? || op.None?
      ensures r.Err? ==> r.error == NotInitialized
      ensures !r.Err? ==> (r.Ok? <==> forall p :: p in pairs ==> EvaluateVerbose(Snapshot(), w, p.from, p.to).Ok?)
      ensures r.Ok? ==> IsVerdicts(Snapshot(), w, pairs, r.value)
      ensures events == old(events) + if r.Ok? then Published(pairs, r.value) else []
    {
      if checks.None? || op.None? { return Err(NotInitialized); }
      var published := events;
      var results := [];
      for i := 0 to |pairs|
        invariant |results| == i && IsVerdicts(Snapshot(), w, pairs[..i], results)
        invariant events == published + Published(pairs[..i], results)
      {
        var verdict := RunEvaluateInner(w, op.value, checks.value, pairs[i].from, pairs[i].to);
        if !verdict.Ok? {
          events := published;
          assert pairs[i] in pairs;
          return Trap;
        }
        results := results + [verdict.value.passed];
        assert pairs[..i + 1] == pairs[..i] + [pairs[i]];
        assert Published(pairs[..i + 1], results) ==
          Published(pairs[..i], results[..i]) + [PolicyResult(verdict.value.passed, pairs[i].from, pairs[i].to)];
      }
      assert pairs[..|pairs|] == pairs;
      return Ok(results);
    }
  }
}
