/** The two contracts that compute the same AND policy: the aggregator's `check_all` and the policy engine. */
module Siblings {
  import opened Host
  import opened Oracles
  import A = ComplianceAggregator
  import P = PolicyEngine
  import PolicyMeaning

  /** The All policy with a denylist check on the aggregator's gate and a jurisdiction check on its flag, as far
      as they are registered. */
  function SamePolicy(c: A.Config, codes: seq<string>): seq<P.CheckKind> {
    (if c.gate.Some? then [P.Denylist(c.gate.value)] else [])
    + (if c.flag.Some? then [P.Jurisdiction(c.flag.value, codes)] else [])
  }

  /** Whenever `check_all([from, to])` returns, the policy engine returns too, and passes the transfer exactly when
      the aggregator passes both parties. */
  lemma SiblingsAgree(w: World, c: A.Config, codes: seq<string>, from: Address, to: Address)
    requires A.CheckEach(w, c, [from, to], codes).Ok?
    ensures var both := A.CheckEach(w, c, [from, to], codes).value;
      && |both| == 2
      && P.EvaluateInner(w, c.breaker, P.All, SamePolicy(c, codes), from, to).Ok?
      && (P.EvaluateInner(w, c.breaker, P.All, SamePolicy(c, codes), from, to).value.passed <==>
            both[0].allPassed && both[1].allPassed)
  {
    A.CheckAllIsPointwise(w, c, [from, to], codes);
    assert from in [from, to] && to in [from, to];
    PairDecided(w, c, codes, from, to);
    hide A.CheckEach, A.CheckOne, P.EvaluateInner;
  }

  /** `check_address` on both parties against the engine. */
  lemma PairDecided(w: World, c: A.Config, codes: seq<string>, from: Address, to: Address)
    requires A.CheckOne(w, c, from, codes).Ok? && A.CheckOne(w, c, to, codes).Ok?
    ensures P.EvaluateInner(w, c.breaker, P.All, SamePolicy(c, codes), from, to).Ok?
    ensures P.EvaluateInner(w, c.breaker, P.All, SamePolicy(c, codes), from, to).value.passed <==>
      A.CheckOne(w, c, from, codes).value.allPassed && A.CheckOne(w, c, to, codes).value.allPassed
  {
    var checks := SamePolicy(c, codes);
    AnswersForOne(w, c, from, codes);
    AnswersForOne(w, c, to, codes);
    VerdictForOne(w, c, from, codes);
    VerdictForOne(w, c, to, codes);
    PolicyOfBoth(w, c, codes, from, to);
    if PolicyMeaning.Unfrozen(w, c.breaker) {
      AnswersTrapNothing(w, c, codes, from, to);
    }
    PolicyMeaning.ReturnsWheneverNaiveDoes(w, c.breaker, P.All, checks, from, to);
    PolicyMeaning.VerdictIsPolicy(w, c.breaker, P.All, checks, from, to);
    hide A.CheckOne, P.EvaluateInner, SamePolicy, PolicyMeaning.Policy;
  }

  /** The aggregator's verdict on one party, in the terms of the engine's checks. */
  lemma VerdictForOne(w: World, c: A.Config, a: Address, codes: seq<string>)
    requires A.CheckOne(w, c, a, codes).Ok?
    ensures A.CheckOne(w, c, a, codes).value.allPassed <==>
      && PolicyMeaning.Unfrozen(w, c.breaker)
      && (c.gate.Some? ==> P.RunCheck(w, P.Denylist(c.gate.value), a) == Ok(true))
      && (c.flag.Some? ==> P.RunCheck(w, P.Jurisdiction(c.flag.value, codes), a) == Ok(true))
  {
    A.BreakdownIsComplete(w, c, a, codes);
    AnswersForOne(w, c, a, codes);
    hide A.CheckOne;
  }

  lemma AnswersTrapNothing(w: World, c: A.Config, codes: seq<string>, from: Address, to: Address)
    requires A.GateAnswers(w, c, from) && A.GateAnswers(w, c, to)
    ensures PolicyMeaning.NothingTraps(w, SamePolicy(c, codes), from, to)
  {
  }

  /** `check_address` returns exactly when the breaker answers, something is registered, and the gate answers unless
      the breaker is frozen. */
  lemma AnswersForOne(w: World, c: A.Config, a: Address, codes: seq<string>)
    ensures A.CheckOne(w, c, a, codes).Ok? <==>
      || PolicyMeaning.Frozen(w, c.breaker)
      || (PolicyMeaning.Unfrozen(w, c.breaker) && A.GateAnswers(w, c, a)
          && (c.breaker.Some? || c.gate.Some? || c.flag.Some?))
  {
    if c.breaker.Some? && A.Answers(w.frozen(c.breaker.value)) {
      A.CheckOneAfterBreaker(w, c, a, codes, [A.CheckResult(A.CircuitBreaker, w.frozen(c.breaker.value).No?)]);
      A.AllPassedSnoc([], A.CheckResult(A.CircuitBreaker, w.frozen(c.breaker.value).No?));
    }
  }

  lemma PolicyOfBoth(w: World, c: A.Config, codes: seq<string>, from: Address, to: Address)
    ensures PolicyMeaning.Policy(w, P.All, SamePolicy(c, codes), from, to) <==>
      && (c.gate.Some? ==> PolicyMeaning.Passes(w, P.Denylist(c.gate.value), from, to))
      && (c.flag.Some? ==> PolicyMeaning.Passes(w, P.Jurisdiction(c.flag.value, codes), from, to))
  {
    hide PolicyMeaning.Passes;
  }

  /** The engine asks the gate, if there is one, about the sender before anything else. */
  lemma EngineAsksSenderFirst(w: World, c: A.Config, codes: seq<string>, from: Address, to: Address)
    requires PolicyMeaning.Unfrozen(w, c.breaker)
    requires P.EvaluateInner(w, c.breaker, P.All, SamePolicy(c, codes), from, to).Ok?
    ensures A.GateAnswers(w, c, from)
  {
    if c.gate.Some? {
      var checks := SamePolicy(c, codes);
      assert checks[0] == P.Denylist(c.gate.value);
      assert P.Scan(w, checks, from, to, false, 0).Ok?;
    }
  }

  /** The converse: when the engine returns, the aggregator returns exactly if the breaker is frozen or the gate, if
      there is one, answers for the recipient. The engine alone returns when the sender's failure spares it a gate
      call for the recipient that would trap. */
  lemma CheckAllReturnsExactlyWhen(w: World, c: A.Config, codes: seq<string>, from: Address, to: Address)
    requires c.breaker.Some? || c.gate.Some? || c.flag.Some?
    requires P.EvaluateInner(w, c.breaker, P.All, SamePolicy(c, codes), from, to).Ok?
    ensures A.CheckEach(w, c, [from, to], codes).Ok? <==>
      PolicyMeaning.Frozen(w, c.breaker) || A.GateAnswers(w, c, to)
  {
    A.CheckAllIsPointwise(w, c, [from, to], codes);
    assert forall a :: a in [from, to] <==> a == from || a == to;
    AnswersForOne(w, c, from, codes);
    AnswersForOne(w, c, to, codes);
    if !PolicyMeaning.Frozen(w, c.breaker) {
      PolicyMeaning.ReturnsExactlyWhen(w, c.breaker, P.All, SamePolicy(c, codes), from, to);
      EngineAsksSenderFirst(w, c, codes, from, to);
    }
    hide A.CheckEach, A.CheckOne, A.GateAnswers, P.EvaluateInner;
  }

  const SENDER := Address(0)
  const RECIPIENT := Address(1)

  /** The gate denies the sender and does not answer for anyone else. */
  const HALF_ANSWERING_WORLD :=
    World((_, a) => if a == SENDER then No else CalleeTrap, (_, _, _) => Yes, (_, _) => Yes, _ => No)

  const GATE_ONLY := A.Config(Some(Address(2)), None, None)

  /** An input on which the engine denies the transfer and the aggregator traps. */
  lemma EngineMayReturnAlone()
    ensures P.EvaluateInner(HALF_ANSWERING_WORLD, None, P.All, SamePolicy(GATE_ONLY, []), SENDER, RECIPIENT)
      == Ok(P.Verdict(false, Some(P.CheckFailure(0, "Denylist"))))
    ensures A.CheckEach(HALF_ANSWERING_WORLD, GATE_ONLY, [SENDER, RECIPIENT], []).Trap?
  {
    var w, checks := HALF_ANSWERING_WORLD, SamePolicy(GATE_ONLY, []);
    assert checks == [P.Denylist(Address(2))];
    assert P.Scan(w, checks, SENDER, RECIPIENT, false, 0) == Ok(Some(0));
    assert A.CheckOne(w, GATE_ONLY, RECIPIENT, []).Trap?;
    A.CheckAllIsPointwise(w, GATE_ONLY, [SENDER], []);
    assert [SENDER, RECIPIENT][..1] == [SENDER];
    A.FailurePropagates(w, GATE_ONLY, [SENDER, RECIPIENT], [], 1);
  }
}
