/** The evaluation against the declarative policy, and what the verdict does not depend on. */
module PolicyMeaning {
  import opened Host
  import opened Oracles
  import opened PolicyEngine

  /** What the contract behind a check must reply for a party to pass: a denylist gate and an allowlist say yes, a
      jurisdiction flag permits, a circuit breaker is not frozen. */
  ghost predicate Clears(w: World, check: CheckKind, a: Address) {
    match check
    case Denylist(gate) => w.check(gate, a) == Yes
    case Jurisdiction(flag, codes) => w.permitted(flag, a, codes) == Yes
    case Allowlist(list) => w.allowed(list, a) == Yes
    case CircuitBreaker(breaker) => w.frozen(breaker) == No
  }

  /** What it must reply for a party to fail; the flag rejects also by an error or a trap. */
  ghost predicate Rejects(w: World, check: CheckKind, a: Address) {
    match check
    case Denylist(gate) => w.check(gate, a) == No
    case Jurisdiction(flag, codes) => w.permitted(flag, a, codes) != Yes
    case Allowlist(list) => w.allowed(list, a) == No
    case CircuitBreaker(breaker) => w.frozen(breaker) == Yes
  }

  /** One check answers as the contract behind it replies, and otherwise traps. */
  lemma RunCheckMeaning(w: World, check: CheckKind, a: Address)
    ensures RunCheck(w, check, a) == Ok(true) <==> Clears(w, check, a)
    ensures RunCheck(w, check, a) == Ok(false) <==> Rejects(w, check, a)
    ensures RunCheck(w, check, a) == Trap <==> !Clears(w, check, a) && !Rejects(w, check, a)
  {
  }

  /** The declarative reading of one check: both parties pass it. */
  ghost predicate Passes(w: World, check: CheckKind, from: Address, to: Address) {
    Clears(w, check, from) && Clears(w, check, to)
  }

  /** One check fails, and is found to fail in the order the parties are asked. */
  ghost predicate Fails(w: World, check: CheckKind, from: Address, to: Address) {
    Rejects(w, check, from) || (Clears(w, check, from) && Rejects(w, check, to))
  }

  ghost predicate Unfrozen(w: World, breaker: Option<Address>) {
    breaker.Some? ==> w.frozen(breaker.value).No?
  }

  ghost predicate Frozen(w: World, breaker: Option<Address>) {
    breaker.Some? && w.frozen(breaker.value).Yes?
  }

  ghost predicate Policy(w: World, op: CombineOp, checks: seq<CheckKind>, from: Address, to: Address) {
    match op
    case All => forall c :: c in checks ==> Passes(w, c, from, to)
    case Any => exists c :: c in checks && Passes(w, c, from, to)
  }

  /** Evaluating everything, for both parties, traps nowhere. */
  ghost predicate NothingTraps(w: World, checks: seq<CheckKind>, from: Address, to: Address) {
    forall c :: c in checks ==> forall a :: a == from || a == to ==> Clears(w, c, a) || Rejects(w, c, a)
  }

  lemma RunBothMeaning(w: World, check: CheckKind, from: Address, to: Address)
    ensures RunBoth(w, check, from, to) == Ok(true) <==> Passes(w, check, from, to)
    ensures RunBoth(w, check, from, to) == Ok(false) <==> Fails(w, check, from, to)
  {
    RunCheckMeaning(w, check, from);
    RunCheckMeaning(w, check, to);
    hide RunCheck, Clears, Rejects;
  }

  /** `k` is the first position at or after `i` where the scan stops, everything before it having been decided. */
  ghost predicate StopsAt(w: World, checks: seq<CheckKind>, from: Address, to: Address, stop: bool, i: nat, k: nat) {
    && i <= k < |checks|
    && RunBoth(w, checks[k], from, to) == Ok(stop)
    && forall j :: i <= j < k ==> RunBoth(w, checks[j], from, to) == Ok(!stop)
  }

  ghost predicate RunsThrough(w: World, checks: seq<CheckKind>, from: Address, to: Address, stop: bool, i: nat) {
    forall j :: i <= j < |checks| ==> RunBoth(w, checks[j], from, to) == Ok(!stop)
  }

  lemma {:induction false} ScanMeaning(w: World, checks: seq<CheckKind>, from: Address, to: Address, stop: bool, i: nat)
    requires i <= |checks|
    ensures forall k: nat :: Scan(w, checks, from, to, stop, i) == Ok(Some(k)) <==> StopsAt(w, checks, from, to, stop, i, k)
    ensures Scan(w, checks, from, to, stop, i) == Ok(None) <==> RunsThrough(w, checks, from, to, stop, i)
    decreases |checks| - i
  {
    if i < |checks| {
      hide RunBoth;
      ScanMeaning(w, checks, from, to, stop, i + 1);
    }
  }

  /** Whenever an evaluation returns, its verdict is the declarative one, whatever traps short-circuiting skipped. */
  lemma VerdictIsPolicy(w: World, breaker: Option<Address>, op: CombineOp,
                        checks: seq<CheckKind>, from: Address, to: Address)
    requires EvaluateInner(w, breaker, op, checks, from, to).Ok?
    ensures EvaluateInner(w, breaker, op, checks, from, to).value.passed <==>
      Unfrozen(w, breaker) && Policy(w, op, checks, from, to)
  {
    ScanMeaning(w, checks, from, to, op.Any?, 0);
    forall c ensures RunBoth(w, c, from, to) == Ok(true) <==> Passes(w, c, from, to) {
      RunBothMeaning(w, c, from, to);
    }
  }

  /** The first `n` checks are passed under All, failed under Any, and check `n`, if there is one, settles it. */
  ghost predicate SettledAt(w: World, op: CombineOp, checks: seq<CheckKind>, from: Address, to: Address, n: nat) {
    && n <= |checks|
    && (forall j :: 0 <= j < n ==> if op.All? then Passes(w, checks[j], from, to) else Fails(w, checks[j], from, to))
    && (n < |checks| ==> if op.All? then Fails(w, checks[n], from, to) else Passes(w, checks[n], from, to))
  }

  /** An evaluation returns exactly when the breaker answers and, if it is not frozen, every check is decided up
      to the one that settles the policy. */
  lemma ReturnsExactlyWhen(w: World, breaker: Option<Address>, op: CombineOp,
                           checks: seq<CheckKind>, from: Address, to: Address)
    ensures EvaluateInner(w, breaker, op, checks, from, to).Ok? <==>
      Frozen(w, breaker) || (Unfrozen(w, breaker) && exists n: nat :: SettledAt(w, op, checks, from, to, n))
  {
    ScanMeaning(w, checks, from, to, op.Any?, 0);
    forall c
      ensures RunBoth(w, c, from, to) == Ok(true) <==> Passes(w, c, from, to)
      ensures RunBoth(w, c, from, to) == Ok(false) <==> Fails(w, c, from, to)
    {
      RunBothMeaning(w, c, from, to);
    }
    hide RunBoth, Passes, Fails;
    var scan := Scan(w, checks, from, to, op.Any?, 0);
    if scan.Ok? {
      assert SettledAt(w, op, checks, from, to, if scan.value.None? then |checks| else scan.value.value);
    }
    if n: nat :| SettledAt(w, op, checks, from, to, n) {
      if n < |checks| {
        assert StopsAt(w, checks, from, to, op.Any?, 0, n);
      } else {
        assert RunsThrough(w, checks, from, to, op.Any?, 0);
      }
    }
  }

  /** Short-circuiting only ever avoids traps: whenever asking every check about both parties would trap nowhere,
      the evaluation returns. */
  lemma ReturnsWheneverNaiveDoes(w: World, breaker: Option<Address>, op: CombineOp,
                                 checks: seq<CheckKind>, from: Address, to: Address)
    requires Frozen(w, breaker) || (Unfrozen(w, breaker) && NothingTraps(w, checks, from, to))
    ensures EvaluateInner(w, breaker, op, checks, from, to).Ok?
  {
    if Unfrozen(w, breaker) {
      ScanDecides(w, checks, from, to, op.Any?, 0);
    }
  }

  lemma {:induction false} ScanDecides(w: World, checks: seq<CheckKind>, from: Address, to: Address, stop: bool, i: nat)
    requires i <= |checks| && NothingTraps(w, checks, from, to)
    ensures Scan(w, checks, from, to, stop, i).Ok?
    decreases |checks| - i
  {
    if i < |checks| {
      assert checks[i] in checks;
      RunCheckMeaning(w, checks[i], from);
      RunCheckMeaning(w, checks[i], to);
      hide RunCheck, Clears, Rejects;
      ScanDecides(w, checks, from, to, stop, i + 1);
    }
  }

  /** The failure detail: absent exactly on a pass, a freeze or an empty Any list; under All the least failing
      check with its kind; under Any the marker that singles out none. */
  lemma FailureDetail(w: World, breaker: Option<Address>, op: CombineOp,
                      checks: seq<CheckKind>, from: Address, to: Address)
    requires EvaluateInner(w, breaker, op, checks, from, to).Ok?
    ensures var v := EvaluateInner(w, breaker, op, checks, from, to).value;
      && (v.failure.None? <==> v.passed || Frozen(w, breaker) || (op.Any? && checks == []))
      && (v.failure.Some? && op.All? ==>
            && v.failure.value.checkIndex < |checks|
            && Fails(w, checks[v.failure.value.checkIndex], from, to)
            && (forall j :: 0 <= j < v.failure.value.checkIndex ==> Passes(w, checks[j], from, to))
            && v.failure.value.kind ==
                 match checks[v.failure.value.checkIndex]
                 case Denylist(_) => "Denylist"
                 case Jurisdiction(_, _) => "Jurisdiction"
                 case Allowlist(_) => "Allowlist"
                 case CircuitBreaker(_) => "CircuitBreaker")
      && (v.failure.Some? && op.Any? ==>
            && v.failure.value == CheckFailure(MAX_U32, "AllFailed")
            && forall c :: c in checks ==> Fails(w, c, from, to))
  {
    ScanMeaning(w, checks, from, to, op.Any?, 0);
    forall c
      ensures RunBoth(w, c, from, to) == Ok(true) <==> Passes(w, c, from, to)
      ensures RunBoth(w, c, from, to) == Ok(false) <==> Fails(w, c, from, to)
    {
      RunBothMeaning(w, c, from, to);
    }
  }

  // ---- Order and direction ---------------------------------------------------------------------------------

  /** Neither the order of the checks nor the direction of the transfer changes a verdict: two evaluations that
      both return agree, even if some checks trap. */
  lemma OrderAndDirectionDoNotMatter(w: World, breaker: Option<Address>, op: CombineOp,
                                     checks: seq<CheckKind>, permuted: seq<CheckKind>, a: Address, b: Address)
    requires multiset(checks) == multiset(permuted)
    ensures var r := EvaluateInner(w, breaker, op, checks, a, b);
      && (var q := EvaluateInner(w, breaker, op, permuted, a, b); r.Ok? && q.Ok? ==> r.value.passed == q.value.passed)
      && (var q := EvaluateInner(w, breaker, op, permuted, b, a); r.Ok? && q.Ok? ==> r.value.passed == q.value.passed)
  {
    forall c ensures c in checks <==> c in permuted {
      assert c in checks <==> c in multiset(checks);
      assert c in permuted <==> c in multiset(permuted);
    }
    assert Policy(w, op, checks, a, b) <==> Policy(w, op, permuted, a, b);
    assert Policy(w, op, permuted, a, b) <==> Policy(w, op, permuted, b, a) by {
      forall c ensures Passes(w, c, a, b) <==> Passes(w, c, b, a) {}
    }
    if EvaluateInner(w, breaker, op, checks, a, b).Ok? { VerdictIsPolicy(w, breaker, op, checks, a, b); }
    if EvaluateInner(w, breaker, op, permuted, a, b).Ok? { VerdictIsPolicy(w, breaker, op, permuted, a, b); }
    if EvaluateInner(w, breaker, op, permuted, b, a).Ok? { VerdictIsPolicy(w, breaker, op, permuted, b, a); }
  }

  /** When nothing traps, swapping the parties leaves the whole result, failure detail included, unchanged. */
  lemma {:induction false} ScanIsSymmetric(w: World, checks: seq<CheckKind>, a: Address, b: Address, stop: bool, i: nat)
    requires i <= |checks| && NothingTraps(w, checks, a, b)
    ensures Scan(w, checks, a, b, stop, i) == Scan(w, checks, b, a, stop, i)
    decreases |checks| - i
  {
    if i < |checks| {
      assert checks[i] in checks;
      RunCheckMeaning(w, checks[i], a);
      RunCheckMeaning(w, checks[i], b);
      hide RunCheck, Clears, Rejects;
      ScanIsSymmetric(w, checks, a, b, stop, i + 1);
    }
  }

  lemma DetailIsSymmetric(w: World, breaker: Option<Address>, op: CombineOp, checks: seq<CheckKind>, a: Address, b: Address)
    requires NothingTraps(w, checks, a, b)
    ensures EvaluateInner(w, breaker, op, checks, a, b) == EvaluateInner(w, breaker, op, checks, b, a)
  {
    ScanIsSymmetric(w, checks, a, b, op.Any?, 0);
  }

  // ---- Over runs of the administration ---------------------------------------------------------------------

  lemma SwapPermutes<T>(xs: seq<T>, i: nat, j: nat)
    requires i < |xs| && j < |xs|
    ensures multiset(Swap(xs, i, j)) == multiset(xs)
    ensures Swap(Swap(xs, i, j), i, j) == xs
  {
  }

  lemma {:induction false} SwapRunPermutes(s: Storage, txs: seq<Tx>, n: nat)
    requires n <= |txs| && s.checks.Some?
    requires forall i :: 0 <= i < |txs| ==> txs[i].call.SwapChecks?
    ensures var t := After(s, txs, n);
      t.checks.Some? && multiset(t.checks.value) == multiset(s.checks.value) && t == s.(checks := t.checks)
  {
    if n > 0 {
      SwapRunPermutes(s, txs, n - 1);
      SwapStep(After(s, txs, n - 1), txs[n - 1]);
      hide Step;
    }
  }

  lemma SwapEffect(s: Storage, tx: Tx)
    requires s.checks.Some? && tx.call.SwapChecks?
    ensures var SwapChecks(_, i, j) := tx.call;
      || Step(s, tx) == s
      || (i < |s.checks.value| && j < |s.checks.value| && Step(s, tx) == s.(checks := Some(Swap(s.checks.value, i, j))))
  {
    hide Swap;
  }

  lemma SwapStep(s: Storage, tx: Tx)
    requires s.checks.Some? && tx.call.SwapChecks?
    ensures var t := Step(s, tx);
      t.checks.Some? && multiset(t.checks.value) == multiset(s.checks.value) && t == s.(checks := t.checks)
  {
    SwapEffect(s, tx);
    if Step(s, tx) != s {
      SwapPermutes(s.checks.value, tx.call.i, tx.call.j);
    }
    hide Step, Swap;
  }

  /** After any run of swaps, successful or refused, an evaluation cannot return a different verdict. */
  lemma SwapRunKeepsVerdict(s: Storage, txs: seq<Tx>, n: nat, w: World, from: Address, to: Address)
    requires n <= |txs|
    requires forall i :: 0 <= i < |txs| ==> txs[i].call.SwapChecks?
    requires EvaluateVerbose(s, w, from, to).Ok? && EvaluateVerbose(After(s, txs, n), w, from, to).Ok?
    ensures EvaluateVerbose(s, w, from, to).value.passed == EvaluateVerbose(After(s, txs, n), w, from, to).value.passed
  {
    SwapRunPermutes(s, txs, n);
    OrderAndDirectionDoNotMatter(w, s.breaker, s.op.value, s.checks.value, After(s, txs, n).checks.value, from, to);
  }

  /** Removing the check just added restores the policy. */
  lemma RemoveUndoesAdd(s: Storage, auth: set<Address>, admin: Address, check: CheckKind)
    requires Run(s, Tx(auth, AddCheck(admin, check))).Ok?
    ensures Step(Step(s, Tx(auth, AddCheck(admin, check))), Tx(auth, RemoveCheck(admin, |s.checks.value|))) == s
  {
    var checks := s.checks.value;
    assert (checks + [check])[..|checks|] + (checks + [check])[|checks| + 1..] == checks;
  }

  /** In every reachable state admin, operator and list are set up together, the list is within its bound, and the
      pause flag, which no entry point sets, is clear. */
  lemma {:induction false} ReachableListBounded(txs: seq<Tx>, n: nat)
    requires n <= |txs|
    ensures var s := After(FRESH, txs, n);
      && (s.admin.Some? <==> s.checks.Some?) && (s.admin.Some? <==> s.op.Some?)
      && (s.checks.Some? ==> |s.checks.value| <= MAX_CHECKS)
      && !s.paused
  {
    if n > 0 {
      ReachableListBounded(txs, n - 1);
    }
  }
}
