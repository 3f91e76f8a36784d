/** The fixed AND fan-out over a denylist gate, a jurisdiction flag and a circuit breaker, in its three forms. */
module ComplianceAggregator {
  import opened Host
  import opened Oracles

  const MAX_BATCH_SIZE := 45

  datatype Error = NoChecksRegistered | EmptyAddressList | BatchTooLarge

  datatype CheckKind = Denylist | Jurisdiction | CircuitBreaker

  datatype CheckResult = CheckResult(check: CheckKind, passed: bool)

  datatype AddressCheckResult = AddressCheckResult(address: Address, allPassed: bool, checks: seq<CheckResult>)

  datatype Config = Config(gate: Option<Address>, flag: Option<Address>, breaker: Option<Address>)

  // ---- Specification ---------------------------------------------------------------------------------------

  /** The outcome of an optional plain call, as the list of its result. */
  function Listed(kind: CheckKind, reply: Option<Reply>, negate: bool): Outcome<seq<CheckResult>, Error> {
    if reply.None? then Ok([])
    else
      var answer :- Ask<Error>(reply.value);
      Ok([CheckResult(kind, answer != negate)])
  }

  function BreakerReply(w: World, c: Config): Option<Reply> {
    if c.breaker.None? then None else Some(w.frozen(c.breaker.value))
  }

  function GateReply(w: World, c: Config, address: Address): Option<Reply> {
    if c.gate.None? then None else Some(w.check(c.gate.value, address))
  }

  function FlagResults(w: World, c: Config, address: Address, codes: seq<string>): seq<CheckResult> {
    if c.flag.None? then [] else [CheckResult(Jurisdiction, TryAsk(w.permitted(c.flag.value, address, codes)))]
  }

  predicate AllPassed(results: seq<CheckResult>) {
    forall r :: r in results ==> r.passed
  }

  /** All results for one address: only the breaker's while it is frozen, otherwise breaker, gate and flag. */
  function Results(w: World, c: Config, address: Address, codes: seq<string>): Outcome<seq<CheckResult>, Error> {
    var breaker :- Listed(CircuitBreaker, BreakerReply(w, c), true);
    if !AllPassed(breaker) then Ok(breaker)
    else
      var gate :- Listed(Denylist, GateReply(w, c, address), false);
      Ok(breaker + gate + FlagResults(w, c, address, codes))
  }

  function CheckOne(w: World, c: Config, address: Address, codes: seq<string>): Outcome<AddressCheckResult, Error> {
    var results :- Results(w, c, address, codes);
    if results == [] then Err(NoChecksRegistered)
    else Ok(AddressCheckResult(address, AllPassed(results), results))
  }

  /** `check_address` on every address in order; the first failure is the failure of the whole. */
  function CheckEach(w: World, c: Config, addresses: seq<Address>, codes: seq<string>)
    : Outcome<seq<AddressCheckResult>, Error>
  {
    if addresses == [] then Ok([])
    else
      var before :- CheckEach(w, c, addresses[..|addresses| - 1], codes);
      var last :- CheckOne(w, c, addresses[|addresses| - 1], codes);
      Ok(before + [last])
  }

  /** One address under `batch_check`, which asks the flag only if the gate passed, and never the breaker. */
  function BatchOne(w: World, c: Config, address: Address, codes: seq<string>): Outcome<bool, Error> {
    var gate :- if c.gate.None? then Ok(true) else Ask<Error>(w.check(c.gate.value, address));
    Ok(gate && (c.flag.Some? ==> TryAsk(w.permitted(c.flag.value, address, codes))))
  }

  function BatchEach(w: World, c: Config, addresses: seq<Address>, codes: seq<string>): Outcome<seq<bool>, Error> {
    if addresses == [] then Ok([])
    else
      var before :- BatchEach(w, c, addresses[..|addresses| - 1], codes);
      var last :- BatchOne(w, c, addresses[|addresses| - 1], codes);
      Ok(before + [last])
  }

  lemma AllPassedSnoc(results: seq<CheckResult>, r: CheckResult)
    ensures AllPassed(results + [r]) <==> AllPassed(results) && r.passed
  {
    assert r in results + [r];
    assert forall q :: q in results + [r] <==> q in results || q == r;
  }

  lemma {:induction false} FailurePropagates(w: World, c: Config, addresses: seq<Address>, codes: seq<string>, i: nat)
    requires i < |addresses|
    requires CheckEach(w, c, addresses[..i], codes).Ok? && !CheckOne(w, c, addresses[i], codes).Ok?
    ensures CheckEach(w, c, addresses, codes) == CheckOne(w, c, addresses[i], codes).PropagateFailure()
  {
    hide CheckOne;
    var rest := addresses[..|addresses| - 1];
    if i < |rest| {
      assert rest[..i] == addresses[..i];
      FailurePropagates(w, c, rest, codes, i);
    }
  }

  lemma CheckEachSnoc(w: World, c: Config, addresses: seq<Address>, codes: seq<string>, i: nat)
    requires i < |addresses|
    requires CheckEach(w, c, addresses[..i], codes).Ok? && CheckOne(w, c, addresses[i], codes).Ok?
    ensures CheckEach(w, c, addresses[..i + 1], codes) ==
      Ok(CheckEach(w, c, addresses[..i], codes).value + [CheckOne(w, c, addresses[i], codes).value])
  {
    assert addresses[..i + 1][..i] == addresses[..i];
  }

  /** `check_address`, once the breaker's results are known and something is registered. */
  lemma CheckOneAfterBreaker(w: World, c: Config, address: Address, codes: seq<string>, b: seq<CheckResult>)
    requires Listed(CircuitBreaker, BreakerReply(w, c), true) == Ok(b)
    requires c.breaker.Some? || c.gate.Some? || c.flag.Some?
    ensures CheckOne(w, c, address, codes) ==
      if !AllPassed(b) then Ok(AddressCheckResult(address, false, b))
      else
        match Listed(Denylist, GateReply(w, c, address), false)
        case Ok(g) =>
          var list := b + g + FlagResults(w, c, address, codes);
          Ok(AddressCheckResult(address, AllPassed(list), list))
        case Err(e) => Err(e)
        case Trap => Trap
  {
  }

  lemma {:induction false} BatchFailurePropagates(w: World, c: Config, addresses: seq<Address>, codes: seq<string>, i: nat)
    requires i < |addresses|
    requires BatchEach(w, c, addresses[..i], codes).Ok? && BatchOne(w, c, addresses[i], codes) == Trap
    ensures BatchEach(w, c, addresses, codes) == Trap
  {
    hide BatchOne;
    var rest := addresses[..|addresses| - 1];
    if i < |rest| {
      assert rest[..i] == addresses[..i];
      BatchFailurePropagates(w, c, rest, codes, i);
    }
  }

  // ---- The contract ----------------------------------------------------------------------------------------

  class Contract {
    var gate: Option<Address>
    var flag: Option<Address>
    var breaker: Option<Address>

    constructor (c: Config)
      ensures Configuration() == c
    {
      gate, flag, breaker := c.gate, c.flag, c.breaker;
    }

    function Configuration(): Config
      reads this
    {
      Config(gate, flag, breaker)
    }

    method CircuitBreakerResult(w: World) returns (r: Outcome<Option<CheckResult>, Error>)
      ensures var spec := Listed(CircuitBreaker, BreakerReply(w, Configuration()), true);
        match r
        case Ok(None) => spec == Ok([])
        case Ok(Some(result)) => spec == Ok([result])
        case _ => r == Trap && spec == Trap
    {
      if breaker.None? { return Ok(None); }
      var frozen :- Ask(w.frozen(breaker.value));
      return Ok(Some(CheckResult(CircuitBreaker, !frozen)));
    }

    /** The gate and flag checks that follow passing breaker results; `check_address` and the loop of `check_all`
        spell them out alike. */
    method GateAndFlag(w: World, address: Address, codes: seq<string>, breakerResults: seq<CheckResult>)
      returns (r: Outcome<(bool, seq<CheckResult>), Error>)
      requires AllPassed(breakerResults)
      ensures match Listed(Denylist, GateReply(w, Configuration(), address), false)
        case Ok(g) =>
          var list := breakerResults + g + FlagResults(w, Configuration(), address, codes);
          r == Ok((AllPassed(list), list))
        case _ => r == Trap
    {
      var results := breakerResults;
      var allPassed := true;
      if gate.Some? {
        var passed :- Ask(w.check(gate.value, address));
        allPassed := allPassed && passed;
        AllPassedSnoc(results, CheckResult(Denylist, passed));
        results := results + [CheckResult(Denylist, passed)];
      } else {
        assert results + [] == results;
      }
      if flag.Some? {
        var passed := TryAsk(w.permitted(flag.value, address, codes));
        allPassed := allPassed && passed;
        AllPassedSnoc(results, CheckResult(Jurisdiction, passed));
        results := results + [CheckResult(Jurisdiction, passed)];
      } else {
        assert results + [] == results;
      }
      return Ok((allPassed, results));
    }

    method CheckAddress(w: World, address: Address, codes: seq<string>) returns (r: Outcome<(bool, seq<CheckResult>), Error>)
      ensures match CheckOne(w, Configuration(), address, codes)
        case Ok(one) => r == Ok((one.allPassed, one.checks))
        case Err(e) => r == Err(e)
        case Trap => r == Trap
    {
      var results: seq<CheckResult> := [];
      var breakerResult :- CircuitBreakerResult(w);
      if breakerResult.Some? {
        results := [breakerResult.value];
        if !breakerResult.value.passed {
          return Ok((false, results));
        }
      }
      var answer :- GateAndFlag(w, address, codes, results);
      if |answer.1| == 0 { return Err(NoChecksRegistered); }
      return Ok(answer);
    }

    /** `check_all` resolves the breaker once, and is `check_address` on every address. */
    method CheckAll(w: World, addresses: seq<Address>, codes: seq<string>) returns (r: Outcome<seq<AddressCheckResult>, Error>)
      ensures r == if addresses == [] then Err(EmptyAddressList) else CheckEach(w, Configuration(), addresses, codes)
    {
      if |addresses| == 0 { return Err(EmptyAddressList); }
      ghost var c := Configuration();
      if !CheckOne(w, c, addresses[0], codes).Ok? {
        FailurePropagates(w, c, addresses, codes, 0);
      }
      var breakerResult :- CircuitBreakerResult(w);
      if breakerResult.None? && gate.None? && flag.None? { return Err(NoChecksRegistered); }
      var batch := [];
      for i := 0 to |addresses|
        invariant CheckEach(w, c, addresses[..i], codes) == Ok(batch)
      {
        hide CheckOne, CheckEach;
        var results := if breakerResult.Some? then [breakerResult.value] else [];
        var allPassed := breakerResult.Some? ==> breakerResult.value.passed;
        CheckOneAfterBreaker(w, c, addresses[i], codes, results);
        if allPassed {
          var answer := GateAndFlag(w, addresses[i], codes, results);
          if !answer.Ok? {
            FailurePropagates(w, c, addresses, codes, i);
            return Trap;
          }
          allPassed, results := answer.value.0, answer.value.1;
        }
        CheckEachSnoc(w, c, addresses, codes, i);
        batch := batch + [AddressCheckResult(addresses[i], allPassed, results)];
      }
      assert addresses[..|addresses|] == addresses;
      return Ok(batch);
    }

    method BatchCheck(w: World, addresses: seq<Address>, codes: seq<string>) returns (r: Outcome<seq<bool>, Error>)
      ensures r ==
        if addresses == [] then Err(EmptyAddressList)
        else if |addresses| > 45 then Err(BatchTooLarge)
        else if gate.None? && flag.None? then Err(NoChecksRegistered)
        else BatchEach(w, Configuration(), addresses, codes)
    {
      if |addresses| == 0 { return Err(EmptyAddressList); }
      if |addresses| > MAX_BATCH_SIZE { return Err(BatchTooLarge); }
      if gate.None? && flag.None? { return Err(NoChecksRegistered); }
      ghost var c := Configuration();
      var results := [];
      for i := 0 to |addresses|
        invariant BatchEach(w, c, addresses[..i], codes) == Ok(results)
      {
        var allPassed := true;
        if gate.Some? {
          var reply := Ask<Error>(w.check(gate.value, addresses[i]));
          if !reply.Ok? {
            BatchFailurePropagates(w, c, addresses, codes, i);
            return Trap;
          }
          allPassed := allPassed && reply.value;
        }
        if flag.Some? {
          allPassed := allPassed && TryAsk(w.permitted(flag.value, addresses[i], codes));
        }
        results := results + [allPassed];
        assert addresses[..i + 1][..i] == addresses[..i];
      }
      assert addresses[..|addresses|] == addresses;
      return Ok(results);
    }
  }

  // ---- The three forms agree -------------------------------------------------------------------------------

  /** `check_all` returns exactly when `check_address` returns for every address, with the same results in order. */
  lemma {:induction false} CheckAllIsPointwise(w: World, c: Config, addresses: seq<Address>, codes: seq<string>)
    ensures var all := CheckEach(w, c, addresses, codes);
      && (all.Ok? <==> forall a :: a in addresses ==> CheckOne(w, c, a, codes).Ok?)
      && (all.Ok? ==>
            && |all.value| == |addresses|
            && forall k :: 0 <= k < |addresses| ==> CheckOne(w, c, addresses[k], codes) == Ok(all.value[k]))
  {
    if addresses != [] {
      hide CheckOne;
      var rest, last := addresses[..|addresses| - 1], addresses[|addresses| - 1];
      CheckAllIsPointwise(w, c, rest, codes);
      assert addresses == rest + [last];
    }
  }

  /** The verdict of one address and its breakdown: every registered check is listed once, in the order breaker,
      gate, flag; a frozen breaker is listed alone; the verdict is the conjunction of what is listed. */
  lemma BreakdownIsComplete(w: World, c: Config, address: Address, codes: seq<string>)
    requires CheckOne(w, c, address, codes).Ok?
    ensures var one := CheckOne(w, c, address, codes).value;
      var frozen := c.breaker.Some? && w.frozen(c.breaker.value).Yes?;
      && one.address == address
      && (one.allPassed <==>
            && !frozen
            && (c.gate.Some? ==> w.check(c.gate.value, address).Yes?)
            && (c.flag.Some? ==> w.permitted(c.flag.value, address, codes).Yes?))
      && (frozen ==> one.checks == [CheckResult(CircuitBreaker, false)])
      && (!frozen ==> (
            var fromBreaker := if c.breaker.Some? then [CheckResult(CircuitBreaker, true)] else [];
            var fromGate := if c.gate.Some? then [CheckResult(Denylist, w.check(c.gate.value, address).Yes?)] else [];
            var fromFlag :=
              if c.flag.Some? then [CheckResult(Jurisdiction, w.permitted(c.flag.value, address, codes).Yes?)] else [];
            one.checks == fromBreaker + fromGate + fromFlag))
  {
  }

  lemma BatchOneIsVerdict(w: World, c: Config, address: Address, codes: seq<string>)
    requires c.gate.Some? || c.flag.Some?
    requires c.breaker.Some? ==> w.frozen(c.breaker.value).No?
    ensures BatchOne(w, c, address, codes).Ok? <==> CheckOne(w, c, address, codes).Ok?
    ensures CheckOne(w, c, address, codes).Ok? ==>
      BatchOne(w, c, address, codes) == Ok(CheckOne(w, c, address, codes).value.allPassed)
    ensures !BatchOne(w, c, address, codes).Ok? ==> BatchOne(w, c, address, codes).Trap? && CheckOne(w, c, address, codes).Trap?
  {
    if CheckOne(w, c, address, codes).Ok? {
      BreakdownIsComplete(w, c, address, codes);
    }
  }

  /** `check_address` errs exactly when nothing is registered, and traps exactly when the breaker does not answer or,
      with the breaker absent or unfrozen, the gate does not. */
  lemma AddressFailures(w: World, c: Config, address: Address, codes: seq<string>)
    ensures var r := CheckOne(w, c, address, codes);
      && (r.Err? <==> c.breaker.None? && c.gate.None? && c.flag.None?)
      && (r.Err? ==> r.error == NoChecksRegistered)
      && (r.Trap? <==>
            || (c.breaker.Some? && !Answers(w.frozen(c.breaker.value)))
            || ((c.breaker.Some? ==> w.frozen(c.breaker.value) == No) && !GateAnswers(w, c, address)))
  {
    if c.breaker.Some? {
      var passed := w.frozen(c.breaker.value).No?;
      AllPassedSnoc([], CheckResult(CircuitBreaker, passed));
    }
  }

  /** On a non-empty list `check_all` errs exactly when nothing is registered, and otherwise only traps. */
  lemma {:induction false} ListFailures(w: World, c: Config, addresses: seq<Address>, codes: seq<string>)
    requires addresses != []
    ensures CheckEach(w, c, addresses, codes).Err? <==> c.breaker.None? && c.gate.None? && c.flag.None?
    ensures CheckEach(w, c, addresses, codes).Err? ==> CheckEach(w, c, addresses, codes).error == NoChecksRegistered
  {
    hide CheckOne;
    var rest, last := addresses[..|addresses| - 1], addresses[|addresses| - 1];
    AddressFailures(w, c, last, codes);
    if rest != [] {
      ListFailures(w, c, rest, codes);
    }
  }

  function Verdicts(results: seq<AddressCheckResult>): seq<bool> {
    seq(|results|, k requires 0 <= k < |results| => results[k].allPassed)
  }

  /** With the breaker absent or unfrozen and a gate or flag registered, `batch_check` is the verdict projection
      of `check_all`: it returns when that does, and traps when that does. */
  lemma {:induction false} BatchIsProjection(w: World, c: Config, addresses: seq<Address>, codes: seq<string>)
    requires c.gate.Some? || c.flag.Some?
    requires c.breaker.Some? ==> w.frozen(c.breaker.value).No?
    ensures var all, batch := CheckEach(w, c, addresses, codes), BatchEach(w, c, addresses, codes);
      if all.Ok? then batch == Ok(Verdicts(all.value)) else all.Trap? && batch.Trap?
  {
    if addresses != [] {
      var rest, last := addresses[..|addresses| - 1], addresses[|addresses| - 1];
      BatchIsProjection(w, c, rest, codes);
      BatchOneIsVerdict(w, c, last, codes);
      hide CheckOne, BatchOne;
      if CheckEach(w, c, addresses, codes).Ok? {
        var before, one := CheckEach(w, c, rest, codes).value, CheckOne(w, c, last, codes).value;
        assert Verdicts(before + [one]) == Verdicts(before) + [one.allPassed];
      }
    } else {
      assert Verdicts([]) == [];
    }
  }

  // ---- When batch_check and check_all agree ----------------------------------------------------------------

  predicate Answers(reply: Reply) {
    reply.Yes? || reply.No?
  }

  predicate GateAnswers(w: World, c: Config, a: Address) {
    c.gate.Some? ==> Answers(w.check(c.gate.value, a))
  }

  /** The gate or the flag rejects `a`: the gate says no, or it is absent or says yes and the flag does not permit. */
  predicate Denied(w: World, c: Config, codes: seq<string>, a: Address) {
    || (c.gate.Some? && w.check(c.gate.value, a).No?)
    || ((c.gate.Some? ==> w.check(c.gate.value, a).Yes?) && c.flag.Some? && !w.permitted(c.flag.value, a, codes).Yes?)
  }

  /** Both return and `batch` lists the verdicts of `all`, or both trap. */
  predicate Agree(all: Outcome<seq<AddressCheckResult>, Error>, batch: Outcome<seq<bool>, Error>) {
    (all.Ok? && batch == Ok(Verdicts(all.value))) || (all.Trap? && batch.Trap?)
  }

  /** `batch_check` returns exactly when the gate answers for every address, and lists who is not denied. */
  lemma {:induction false} BatchIsPointwise(w: World, c: Config, addresses: seq<Address>, codes: seq<string>)
    ensures var batch := BatchEach(w, c, addresses, codes);
      if forall a :: a in addresses ==> GateAnswers(w, c, a) then
        && batch.Ok? && |batch.value| == |addresses|
        && forall k :: 0 <= k < |addresses| ==> (batch.value[k] <==> !Denied(w, c, codes, addresses[k]))
      else batch.Trap?
  {
    if addresses != [] {
      var rest, last := addresses[..|addresses| - 1], addresses[|addresses| - 1];
      BatchIsPointwise(w, c, rest, codes);
      assert addresses == rest + [last];
      assert if GateAnswers(w, c, last) then BatchOne(w, c, last, codes) == Ok(!Denied(w, c, codes, last))
        else BatchOne(w, c, last, codes).Trap?;
      hide BatchOne, GateAnswers, Denied;
    }
  }

  /** A frozen breaker makes `check_all` deny every address on the breaker alone. */
  lemma {:induction false} FrozenDeniesAll(w: World, c: Config, addresses: seq<Address>, codes: seq<string>)
    requires c.breaker.Some? && w.frozen(c.breaker.value).Yes?
    ensures var all := CheckEach(w, c, addresses, codes);
      && all.Ok? && |all.value| == |addresses|
      && forall k :: 0 <= k < |addresses| ==>
           all.value[k] == AddressCheckResult(addresses[k], false, [CheckResult(CircuitBreaker, false)])
  {
    if addresses != [] {
      var rest, last := addresses[..|addresses| - 1], addresses[|addresses| - 1];
      FrozenDeniesAll(w, c, rest, codes);
      CheckOneAfterBreaker(w, c, last, codes, [CheckResult(CircuitBreaker, false)]);
      assert CheckResult(CircuitBreaker, false) in [CheckResult(CircuitBreaker, false)];
      hide CheckOne;
    }
  }

  /** A breaker that does not answer makes `check_all` trap. */
  lemma UnansweredBreakerTraps(w: World, c: Config, addresses: seq<Address>, codes: seq<string>)
    requires c.breaker.Some? && !Answers(w.frozen(c.breaker.value)) && addresses != []
    ensures CheckEach(w, c, addresses, codes).Trap?
  {
    assert addresses[..0] == [];
    FailurePropagates(w, c, addresses, codes, 0);
  }

  /** On a non-empty list and with a gate or flag registered, `batch_check` agrees with `check_all`, traps included,
      exactly when the breaker is absent or unfrozen, or it is frozen and the gate or flag rejects every address, or
      it does not answer and neither does the gate for some address. */
  lemma BatchAgreesExactlyWhen(w: World, c: Config, addresses: seq<Address>, codes: seq<string>)
    requires addresses != [] && (c.gate.Some? || c.flag.Some?)
    ensures Agree(CheckEach(w, c, addresses, codes), BatchEach(w, c, addresses, codes)) <==>
      if c.breaker.None? || w.frozen(c.breaker.value).No? then true
      else if w.frozen(c.breaker.value).Yes? then forall a :: a in addresses ==> Denied(w, c, codes, a)
      else exists a :: a in addresses && !GateAnswers(w, c, a)
  {
    BatchIsPointwise(w, c, addresses, codes);
    if c.breaker.None? || w.frozen(c.breaker.value).No? {
      BatchIsProjection(w, c, addresses, codes);
    } else if w.frozen(c.breaker.value).Yes? {
      FrozenDeniesAll(w, c, addresses, codes);
      FrozenAgreement(w, c, addresses, codes);
    } else {
      UnansweredBreakerTraps(w, c, addresses, codes);
    }
    hide CheckEach, BatchEach, GateAnswers, Denied;
  }

  lemma FrozenAgreement(w: World, c: Config, addresses: seq<Address>, codes: seq<string>)
    requires c.breaker.Some? && w.frozen(c.breaker.value).Yes?
    ensures Agree(CheckEach(w, c, addresses, codes), BatchEach(w, c, addresses, codes)) <==>
      forall a :: a in addresses ==> Denied(w, c, codes, a)
  {
    BatchIsPointwise(w, c, addresses, codes);
    FrozenDeniesAll(w, c, addresses, codes);
    assert forall a :: Denied(w, c, codes, a) ==> GateAnswers(w, c, a);
    hide CheckEach, BatchEach, GateAnswers, Denied;
    var all, batch := CheckEach(w, c, addresses, codes), BatchEach(w, c, addresses, codes);
    if batch.Ok? {
      if forall a :: a in addresses ==> Denied(w, c, codes, a) {
        assert batch.value == Verdicts(all.value);
      } else {
        var k :| 0 <= k < |addresses| && !Denied(w, c, codes, addresses[k]);
        assert batch.value[k] != Verdicts(all.value)[k];
      }
    }
  }
}
