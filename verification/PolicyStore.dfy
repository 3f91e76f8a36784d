/** The stored policy over whole runs, and what the entry points make of it. */
module PolicyStore {
  import opened Host
  import opened Oracles
  import opened PolicyEngine
  import opened PolicyMeaning
  import Runs

  // ---- The entry points evaluate the stored policy ---------------------------------------------------------

  /** An evaluation is refused exactly when there is no list or no operator. Otherwise the stored breaker, operator and
      list alone decide whether it returns, and with which verdict and detail. */
  lemma EvaluationMeansStoredPolicy(s: Storage, w: World, from: Address, to: Address)
    ensures EvaluateVerbose(s, w, from, to).Err? <==> s.checks.None? || s.op.None?
    ensures EvaluateVerbose(s, w, from, to).Err? ==> EvaluateVerbose(s, w, from, to).error == NotInitialized
    ensures s.checks.Some? && s.op.Some? ==>
      var r, op, checks := EvaluateVerbose(s, w, from, to), s.op.value, s.checks.value;
      && (r.Ok? <==>
            Frozen(w, s.breaker) || (Unfrozen(w, s.breaker) && exists n: nat :: SettledAt(w, op, checks, from, to, n)))
      && (r.Ok? ==>
            && (r.value.passed <==> Unfrozen(w, s.breaker) && Policy(w, op, checks, from, to))
            && (r.value.failure.None? <==> r.value.passed || Frozen(w, s.breaker) || (op.Any? && checks == []))
            && (r.value.failure.Some? && op.All? ==>
                  && r.value.failure.value.checkIndex < |checks|
                  && SettledAt(w, All, checks, from, to, r.value.failure.value.checkIndex))
            && (r.value.failure.Some? && op.Any? ==> r.value.failure.value == CheckFailure(0xFFFF_FFFF, "AllFailed")))
  {
    hide Policy, Passes, Fails, EvaluateInner;
    if s.checks.Some? && s.op.Some? {
      ReturnsExactlyWhen(w, s.breaker, s.op.value, s.checks.value, from, to);
      if EvaluateInner(w, s.breaker, s.op.value, s.checks.value, from, to).Ok? {
        VerdictIsPolicy(w, s.breaker, s.op.value, s.checks.value, from, to);
        FailureDetail(w, s.breaker, s.op.value, s.checks.value, from, to);
      }
    }
  }

  // ---- What is stored, read off the run --------------------------------------------------------------------

  ghost predicate SetsUp(s: Storage, tx: Tx) {
    tx.call.Initialize? && Run(s, tx).Ok?
  }

  ghost predicate SetsBreaker(s: Storage, tx: Tx, b: Address) {
    && Run(s, tx).Ok?
    && ((tx.call.Initialize? && tx.call.maybeBreaker == Some(b)) || (tx.call.SetCircuitBreaker? && tx.call.breaker == b))
  }

  ghost predicate MovesBreaker(s: Storage, tx: Tx) {
    exists b :: SetsBreaker(s, tx, b)
  }

  /** One call against what is set up once: only the set-up writes admin and operator, and it is accepted exactly
      while there is no admin. */
  lemma SetUpStep(s: Storage, tx: Tx)
    ensures SetsUp(s, tx) <==> tx.call.Initialize? && s.admin.None? && tx.call.admin in tx.auth
    ensures Step(s, tx).admin == if SetsUp(s, tx) then Some(tx.call.admin) else s.admin
    ensures Step(s, tx).op == if SetsUp(s, tx) then Some(tx.call.op) else s.op
  {
  }

  lemma BreakerStep(s: Storage, tx: Tx, b: Address)
    ensures Step(s, tx).breaker == Some(b) <==>
      SetsBreaker(s, tx, b) || (s.breaker == Some(b) && !MovesBreaker(s, tx))
  {
    if tx.call.Initialize? && tx.call.maybeBreaker.Some? && Run(s, tx).Ok? {
      assert SetsBreaker(s, tx, tx.call.maybeBreaker.value);
    }
    if tx.call.SetCircuitBreaker? && Run(s, tx).Ok? {
      assert SetsBreaker(s, tx, tx.call.breaker);
    }
  }

  ghost predicate SetUpAt(txs: seq<Tx>, i: nat) {
    i < |txs| && txs[i].call.Initialize? && SetsUp(After(FRESH, txs, i), txs[i])
  }

  lemma {:induction false} SetUpStays(txs: seq<Tx>, i: nat, n: nat)
    requires i < n <= |txs| && SetUpAt(txs, i)
    ensures var s := After(FRESH, txs, n); s.admin == Some(txs[i].call.admin) && s.op == Some(txs[i].call.op)
    decreases n
  {
    hide Run, SetsUp, Step, Runs.After;
    SetUpStep(After(FRESH, txs, n - 1), txs[n - 1]);
    Runs.AfterNext(Step, FRESH, txs, n - 1);
    if i < n - 1 {
      SetUpStays(txs, i, n - 1);
    }
  }

  lemma {:induction false} NothingBeforeSetUp(txs: seq<Tx>, n: nat)
    requires n <= |txs| && forall i: nat :: i < n ==> !SetUpAt(txs, i)
    ensures After(FRESH, txs, n).admin.None? && After(FRESH, txs, n).op.None?
  {
    if n > 0 {
      hide Run, SetsUp, Step;
      NothingBeforeSetUp(txs, n - 1);
      assert !SetUpAt(txs, n - 1);
      SetUpStep(After(FRESH, txs, n - 1), txs[n - 1]);
    }
  }

  /** Admin and operator are those of the one accepted set-up, which the admin authorised, and there are none before
      it. */
  lemma OneSetUpDecides(txs: seq<Tx>, n: nat)
    requires n <= |txs|
    ensures var s := After(FRESH, txs, n);
      && (forall i: nat :: i < n && SetUpAt(txs, i) ==>
            s.admin == Some(txs[i].call.admin) && s.op == Some(txs[i].call.op) && txs[i].call.admin in txs[i].auth)
      && ((forall i: nat :: i < n ==> !SetUpAt(txs, i)) ==> s.admin.None? && s.op.None?)
    ensures forall i: nat, j: nat :: i < n && j < n && SetUpAt(txs, i) && SetUpAt(txs, j) ==> i == j
  {
    hide After, SetsUp;
    forall i: nat | i < n && SetUpAt(txs, i)
      ensures var s := After(FRESH, txs, n); s.admin == Some(txs[i].call.admin) && s.op == Some(txs[i].call.op)
      ensures txs[i].call.admin in txs[i].auth
      ensures forall j: nat :: i < j < n ==> !SetUpAt(txs, j)
    {
      SetUpStays(txs, i, n);
      SetUpStep(After(FRESH, txs, i), txs[i]);
      forall j: nat | i < j < n
        ensures !SetUpAt(txs, j)
      {
        SetUpStays(txs, i, j);
        SetUpStep(After(FRESH, txs, j), txs[j]);
      }
    }
    if forall i: nat :: i < n ==> !SetUpAt(txs, i) {
      NothingBeforeSetUp(txs, n);
    }
  }

  /** The breaker is the one last set. */
  lemma BreakerHistory(txs: seq<Tx>, n: nat, b: Address)
    requires n <= |txs|
    ensures After(FRESH, txs, n).breaker == Some(b) <==>
      Runs.Since(Step, FRESH, txs, n, (s, tx) => SetsBreaker(s, tx, b), (s, tx) => MovesBreaker(s, tx))
  {
    forall m: nat | m < n
      ensures var s := After(FRESH, txs, m);
        Step(s, txs[m]).breaker == Some(b) <==>
          SetsBreaker(s, txs[m], b) || (s.breaker == Some(b) && !MovesBreaker(s, txs[m]))
    {
      BreakerStep(After(FRESH, txs, m), txs[m], b);
    }
    hide SetsBreaker, MovesBreaker, Step;
    Runs.HoldsSince(Step, FRESH, txs, n,
                    (s: Storage) => s.breaker == Some(b), (s, tx) => SetsBreaker(s, tx, b), (s, tx) => MovesBreaker(s, tx));
  }

  // ---- Edits of the list -----------------------------------------------------------------------------------

  /** `after` is `before` without position `index`. */
  ghost predicate DropsAt(before: seq<CheckKind>, after: seq<CheckKind>, index: nat) {
    && index < |before| == |after| + 1
    && (forall k :: 0 <= k < index ==> after[k] == before[k])
    && (forall k :: index <= k < |after| ==> after[k] == before[k + 1])
  }

  /** `after` is `before` with the checks at `i` and `j` exchanged. */
  ghost predicate Exchanges(before: seq<CheckKind>, after: seq<CheckKind>, i: nat, j: nat) {
    && i < |before| == |after| && j < |before|
    && after[i] == before[j] && after[j] == before[i]
    && (forall k :: 0 <= k < |before| && k != i && k != j ==> after[k] == before[k])
  }

  /** What each administrative call but the set-up answers in a reachable state, and all that it changes: every one
      needs the authorisation of the admin of the set-up; an addition also room below sixteen checks, a removal an
      index in the list, an exchange two, unless they are equal. */
  lemma EditsAnswer(txs: seq<Tx>, n: nat)
    requires n < |txs| && !txs[n].call.Initialize?
    ensures var s, tx := After(FRESH, txs, n), txs[n];
      var r := Run(s, tx);
      if tx.call.admin !in tx.auth then r == Trap
      else if s.admin.None? then r == Err(NotInitialized)
      else if s.admin.value != tx.call.admin then r == Err(NotAuthorized)
      else
        && s.checks.Some?
        && (r.Ok? ==> r.value == s.(checks := r.value.checks, breaker := r.value.breaker) && r.value.checks.Some?)
        && var before := s.checks.value;
        match tx.call
        case SetCircuitBreaker(_, b) => r == Ok(s.(breaker := Some(b)))
        case AddCheck(_, c) =>
          if |before| == 16 then r == Err(MaxDepthExceeded)
          else r.Ok? && r.value.breaker == s.breaker && r.value.checks == Some(before + [c])
        case RemoveCheck(_, index) =>
          if index >= |before| then r == Err(IndexOutOfBounds)
          else r.Ok? && r.value.breaker == s.breaker && DropsAt(before, r.value.checks.value, index)
        case SwapChecks(_, i, j) =>
          if i == j then r == Ok(s)
          else if i >= |before| || j >= |before| then r == Err(IndexOutOfBounds)
          else r.Ok? && r.value.breaker == s.breaker && Exchanges(before, r.value.checks.value, i, j)
        case ClearChecks(_) => r == Ok(s.(checks := Some([])))
        case _ => true
  {
    ReachableListBounded(txs, n);
    hide After;
  }

  /** The set-up starts from an empty list. */
  lemma SetUpAnswers(s: Storage, tx: Tx)
    requires tx.call.Initialize?
    ensures Run(s, tx) == Err(AlreadyInitialized) <==> s.admin.Some?
    ensures Run(s, tx) == Trap <==> s.admin.None? && tx.call.admin !in tx.auth
    ensures Run(s, tx).Ok? <==> s.admin.None? && tx.call.admin in tx.auth
    ensures Run(s, tx).Ok? ==> Run(s, tx).value.checks == Some([])
  {
  }
}
