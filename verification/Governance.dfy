/** What every run of the denylist gate keeps, and what signers can always achieve. */
module Governance {
  import opened Host
  import opened Lists
  import opened DenylistGate
  import Runs

  // ---- Invariant -------------------------------------------------------------------------------------------

  ghost predicate Inv(s: Storage) {
    && (s.signerSet.None? ==> s.approvals == map[])
    && (s.signerSet.Some? ==> WellFormedSet(s.signerSet.value))
    && (forall a :: a in s.approvals ==> Distinct(s.approvals[a]))
    && (s.signerSet.Some? ==> forall x ::
          && (Add(x) in s.approvals ==> x !in s.signerSet.value.signers)
          && (Remove(x) in s.approvals ==> x in s.signerSet.value.signers))
  }

  lemma ApplyKeepsWellFormed(action: SignerAction, group: SignerSet)
    requires WellFormedSet(group) && Refusal(action, group).None?
    requires action.SetThreshold? ==> 1 <= action.n <= |group.signers|
    ensures WellFormedSet(Applied(action, group))
    ensures forall y :: y in Applied(action, group).signers <==>
      (y in group.signers && action != Remove(y)) || action == Add(y)
  {
    if action.Remove? {
      WithoutDistinct(group.signers, action.who);
      WithoutMembers(group.signers, action.who);
    }
  }

  lemma StepKeepsInv(s: Storage, tx: Tx)
    requires Inv(s)
    ensures Inv(Step(s, tx))
  {
    if Run(s, tx).Ok? && tx.call.Signer? {
      SignerStepKeepsInv(s, tx);
    }
  }

  lemma SignerStepKeepsInv(s: Storage, tx: Tx)
    requires Inv(s) && tx.call.Signer? && Run(s, tx).Ok?
    ensures Inv(Step(s, tx))
  {
    var group := s.signerSet.value;
    var approvals := WithApproval(Approvals(s, tx.call.action), tx.call.caller);
    if CountIn(approvals, group.signers) >= group.threshold {
      ApplyKeepsWellFormed(tx.call.action, group);
    }
  }

  /** In every run the signer set is duplicate-free, non-empty and at least as large as its threshold, and an
      addition is pending only for an outsider, a removal only for a member. */
  lemma {:induction false} ReachableInv(code: WasmHash, txs: seq<Tx>, n: nat)
    requires n <= |txs|
    ensures Inv(After(Fresh(code), txs, n))
  {
    if n > 0 {
      ReachableInv(code, txs, n - 1);
      StepKeepsInv(After(Fresh(code), txs, n - 1), txs[n - 1]);
    }
  }

  lemma NeverBothPending(code: WasmHash, txs: seq<Tx>, n: nat, x: Address)
    requires n <= |txs|
    ensures var s := After(Fresh(code), txs, n); !(Add(x) in s.approvals && Remove(x) in s.approvals)
  {
    ReachableInv(code, txs, n);
  }

  // ---- Approval history ------------------------------------------------------------------------------------

  /** `tx`, run from `before`, is a successful call of `c` for `a`. */
  ghost predicate Accepts(before: Storage, tx: Tx, a: SignerAction, c: Address) {
    tx.call == Signer(c, a) && Run(before, tx).Ok?
  }

  /** The event of `a` taking effect. */
  predicate Announces(e: Event, a: SignerAction) {
    match a
    case Add(x) => e == SignerAdded(x)
    case Remove(x) => e == SignerRemoved(x)
    case SetThreshold(n) => e.ThresholdChanged? && e.newThreshold == n
  }

  /** `tx`, run from `before`, publishes the event of `a` taking effect. */
  ghost predicate Effects(before: Storage, tx: Tx, a: SignerAction) {
    Run(before, tx).Ok? && Announced(Run(before, tx).value.events, a)
  }

  /** Calls other than signer calls publish none of these events and keep the approvals; only the one-time
      installation touches the signer set. */
  lemma OtherCallsAreQuiet(s: Storage, tx: Tx)
    requires !tx.call.Signer?
    ensures Run(s, tx).Ok? ==> Run(s, tx).value.events == []
    ensures Step(s, tx).approvals == s.approvals
    ensures Step(s, tx).signerSet == s.signerSet || (s.signerSet.None? && tx.call.InitializeMultisig?)
  {
  }

  /** A successful signer call either only records the approval or makes the action take effect. */
  lemma SignerCallOutcome(s: Storage, tx: Tx)
    requires tx.call.Signer? && Run(s, tx).Ok?
    ensures var Signer(c, a) := tx.call;
      && c in tx.auth && s.signerSet.Some? && Refusal(a, s.signerSet.value).None?
      && c in s.signerSet.value.signers
    ensures var a, group := tx.call.action, s.signerSet.value;
      var approvals := WithApproval(Approvals(s, a), tx.call.caller);
      if CountIn(approvals, group.signers) < group.threshold then
        Run(s, tx).value == Post(s.(approvals := s.approvals[a := approvals]), [SignerApproved(tx.call.caller)])
      else
        && (a.SetThreshold? ==> 1 <= a.n <= |group.signers|)
        && Run(s, tx).value ==
             Post(s.(approvals := s.approvals - {a}, signerSet := Some(Applied(a, group))),
                  [SignerApproved(tx.call.caller), Announcement(a, group)])
  {
    hide CountIn, Applied, Announcement;
  }

  ghost predicate Announced(events: seq<Event>, a: SignerAction) {
    exists e :: e in events && Announces(e, a)
  }

  lemma AnnouncedIn(events: seq<Event>, c: Address, b: SignerAction, group: SignerSet, a: SignerAction)
    ensures events == [] || events == [SignerApproved(c)] ==> !Announced(events, a)
    ensures events == [SignerApproved(c), Announcement(b, group)] ==> (Announced(events, a) <==> a == b)
  {
    if events == [SignerApproved(c), Announcement(b, group)] {
      assert Announces(events[1], b);
    }
  }

  lemma EffectsIff(before: Storage, tx: Tx, a: SignerAction)
    ensures Effects(before, tx, a) <==>
      tx.call.Signer? && tx.call.action == a && Run(before, tx).Ok? && |Run(before, tx).value.events| == 2
  {
    if Run(before, tx).Ok? {
      var events := Run(before, tx).value.events;
      if tx.call.Signer? {
        SignerCallOutcome(before, tx);
        AnnouncedIn(events, tx.call.caller, tx.call.action, before.signerSet.value, a);
      } else {
        OtherCallsAreQuiet(before, tx);
        AnnouncedIn(events, Address(0), a, SignerSet([], 0), a);
      }
    }
    hide Run, CountIn, Applied, Announced, Announcement, Refusal, WithApproval, Approvals;
  }

  /** An action takes effect only in a call for that very action; its approvals are then cleared. */
  lemma StepWithEffect(before: Storage, tx: Tx, a: SignerAction)
    requires Effects(before, tx, a)
    ensures tx.call.Signer? && Accepts(before, tx, a, tx.call.caller)
    ensures before.signerSet.Some? && Refusal(a, before.signerSet.value).None?
    ensures var group := before.signerSet.value;
      && CountIn(WithApproval(Approvals(before, a), tx.call.caller), group.signers) >= group.threshold
      && (a.SetThreshold? ==> 1 <= a.n <= |group.signers|)
      && Step(before, tx).signerSet == Some(Applied(a, group))
    ensures Approvals(Step(before, tx), a) == []
  {
    hide Run, CountIn, Applied, Effects, Announcement, Refusal;
    EffectsIff(before, tx, a);
    SignerCallOutcome(before, tx);
  }

  /** Otherwise its approvals grow by the caller of a successful call for it, and by nothing else. */
  lemma StepWithoutEffect(before: Storage, tx: Tx, a: SignerAction)
    requires !Effects(before, tx, a)
    ensures Approvals(Step(before, tx), a) ==
      if tx.call.Signer? && Accepts(before, tx, a, tx.call.caller) then WithApproval(Approvals(before, a), tx.call.caller)
      else Approvals(before, a)
  {
    hide Run, CountIn, Applied, Effects, Announcement, Refusal;
    EffectsIff(before, tx, a);
    if tx.call.Signer? {
      if Run(before, tx).Ok? {
        SignerCallOutcome(before, tx);
      }
    } else {
      OtherCallsAreQuiet(before, tx);
    }
  }

  ghost predicate CalledFor(s: Storage, txs: seq<Tx>, i: nat, a: SignerAction, c: Address) {
    i < |txs| && Accepts(After(s, txs, i), txs[i], a, c)
  }

  ghost predicate TookEffect(s: Storage, txs: seq<Tx>, i: nat, a: SignerAction) {
    i < |txs| && Effects(After(s, txs, i), txs[i], a)
  }

  /** `c` called for `a` at `i`, and `a` has not taken effect from then on up to `n`. */
  ghost predicate Standing(s: Storage, txs: seq<Tx>, n: nat, i: nat, a: SignerAction, c: Address) {
    i < n && CalledFor(s, txs, i, a, c) && forall j: nat :: i <= j < n ==> !TookEffect(s, txs, j, a)
  }

  lemma StandingStep(s: Storage, txs: seq<Tx>, m: nat, n: nat, a: SignerAction, c: Address)
    requires m < |txs| && n == m + 1
    ensures (exists i :: Standing(s, txs, n, i, a, c)) <==>
      && !TookEffect(s, txs, m, a)
      && ((exists i :: Standing(s, txs, m, i, a, c)) || CalledFor(s, txs, m, a, c))
  {
    hide CalledFor, TookEffect;
    if i :| Standing(s, txs, n, i, a, c) {
      assert i == m || Standing(s, txs, m, i, a, c);
    }
    if !TookEffect(s, txs, m, a) {
      if i :| Standing(s, txs, m, i, a, c) {
        assert Standing(s, txs, n, i, a, c);
      }
      if CalledFor(s, txs, m, a, c) {
        assert Standing(s, txs, n, m, a, c);
      }
    }
  }

  /** The stored approvals of `a` are, without repeats, exactly the callers whose calls for `a` succeeded since
      `a` last took effect. */
  lemma {:induction false} ApprovalHistory(code: WasmHash, txs: seq<Tx>, n: nat, a: SignerAction)
    requires n <= |txs|
    ensures Distinct(Approvals(After(Fresh(code), txs, n), a))
    ensures forall c :: c in Approvals(After(Fresh(code), txs, n), a) <==>
      exists i :: Standing(Fresh(code), txs, n, i, a, c)
  {
    hide Run, Step, Effects, Accepts, Inv;
    var s := Fresh(code);
    ReachableInv(code, txs, n);
    if n > 0 {
      var m := n - 1;
      ApprovalHistory(code, txs, m, a);
      forall c
        ensures c in Approvals(After(s, txs, n), a) <==> exists i :: Standing(s, txs, n, i, a, c)
      {
        StandingStep(s, txs, m, n, a, c);
        ApprovalStep(After(s, txs, m), txs[m], a, c);
      }
    }
  }

  lemma ApprovalStep(before: Storage, tx: Tx, a: SignerAction, c: Address)
    ensures c in Approvals(Step(before, tx), a) <==>
      !Effects(before, tx, a) && (c in Approvals(before, a) || Accepts(before, tx, a, c))
  {
    if Effects(before, tx, a) {
      StepWithEffect(before, tx, a);
    } else {
      StepWithoutEffect(before, tx, a);
    }
  }

  /** `q` are current signers, enough of them, each with an authorised call for `a` up to `i` still standing at `i`. */
  ghost predicate Quorum(s: Storage, txs: seq<Tx>, i: nat, a: SignerAction, q: set<Address>) {
    && i < |txs|
    && var before := After(s, txs, i);
    && before.signerSet.Some?
    && q <= Members(before.signerSet.value.signers)
    && |q| >= before.signerSet.value.threshold
    && forall c :: c in q ==>
         exists k: nat :: (k == i || Standing(s, txs, i, k, a, c)) && CalledFor(s, txs, k, a, c) && c in txs[k].auth
  }

  lemma AcceptedIsAuthorised(before: Storage, tx: Tx, a: SignerAction, c: Address)
    requires Accepts(before, tx, a, c)
    ensures c in tx.auth
  {
  }

  lemma QuorumOfStep(before: Storage, tx: Tx, a: SignerAction) returns (q: set<Address>)
    requires Inv(before) && Effects(before, tx, a)
    ensures before.signerSet.Some? && ValidFor(a, before.signerSet.value)
    ensures Step(before, tx).signerSet == Some(Applied(a, before.signerSet.value))
    ensures q <= Members(before.signerSet.value.signers) && |q| >= before.signerSet.value.threshold
    ensures forall c :: c in q ==> c in Approvals(before, a) || Accepts(before, tx, a, c)
  {
    hide Run, Step, Effects, CountIn, Applied;
    StepWithEffect(before, tx, a);
    var approvals := WithApproval(Approvals(before, a), tx.call.caller);
    CountInIsCard(approvals, before.signerSet.value.signers);
    q := Members(approvals) * Members(before.signerSet.value.signers);
  }

  /** Every change that took effect had a quorum of the signer set it was applied to, was valid for that set,
      and changed exactly what it announced. */
  lemma EveryChangeHadQuorum(code: WasmHash, txs: seq<Tx>, i: nat, a: SignerAction)
    requires i < |txs| && TookEffect(Fresh(code), txs, i, a)
    ensures exists q :: Quorum(Fresh(code), txs, i, a, q)
    ensures var before, after := After(Fresh(code), txs, i), After(Fresh(code), txs, i + 1);
      ValidFor(a, before.signerSet.value) && after.signerSet == Some(Applied(a, before.signerSet.value))
  {
    hide Run, Step, Accepts, Effects, Inv, Approvals;
    var s := Fresh(code);
    ReachableInv(code, txs, i);
    ApprovalHistory(code, txs, i, a);
    var q := QuorumOfStep(After(s, txs, i), txs[i], a);
    forall c | c in q
      ensures exists k: nat :: (k == i || Standing(s, txs, i, k, a, c)) && CalledFor(s, txs, k, a, c) && c in txs[k].auth
    {
      if c in Approvals(After(s, txs, i), a) {
        var k: nat :| Standing(s, txs, i, k, a, c);
        AcceptedIsAuthorised(After(s, txs, k), txs[k], a, c);
        assert CalledFor(s, txs, k, a, c) && c in txs[k].auth;
      } else {
        AcceptedIsAuthorised(After(s, txs, i), txs[i], a, c);
        assert CalledFor(s, txs, i, a, c) && c in txs[i].auth;
      }
    }
    assert Quorum(s, txs, i, a, q);
  }

  /** After the one-time installation, the signer set moves only when some action takes effect. */
  lemma SignerSetMovesOnlyByActions(s: Storage, txs: seq<Tx>, i: nat)
    requires i < |txs| && After(s, txs, i + 1).signerSet != After(s, txs, i).signerSet
    ensures
      || (After(s, txs, i).signerSet.None? && txs[i].call.InitializeMultisig?)
      || exists a :: TookEffect(s, txs, i, a)
  {
    var before := After(s, txs, i);
    if txs[i].call.Signer? {
      EffectsIff(before, txs[i], txs[i].call.action);
      SignerCallOutcome(before, txs[i]);
      hide Run, CountIn, Applied;
      assert TookEffect(s, txs, i, txs[i].call.action);
    } else {
      OtherCallsAreQuiet(before, txs[i]);
    }
    hide Run;
  }

  // ---- Progress --------------------------------------------------------------------------------------------

  predicate ValidFor(a: SignerAction, group: SignerSet) {
    match a
    case Add(x) => x !in group.signers
    case Remove(x) => x in group.signers && group.threshold < |group.signers|
    case SetThreshold(n) => 1 <= n <= |group.signers|
  }

  /** The calls of `txs`, one per entry of `callers`, are authorised calls for `a`. */
  ghost predicate CallsBy(txs: seq<Tx>, callers: seq<Address>, a: SignerAction) {
    && |txs| == |callers|
    && forall i :: 0 <= i < |txs| ==> txs[i].call == Signer(callers[i], a) && callers[i] in txs[i].auth
  }

  /** As long as `a` has not taken effect, every call so far is recorded and the set is unchanged. */
  lemma {:induction false} CallsAccumulate(s: Storage, txs: seq<Tx>, callers: seq<Address>, a: SignerAction, n: nat)
    requires Inv(s) && s.signerSet.Some? && ValidFor(a, s.signerSet.value)
    requires CallsBy(txs, callers, a) && n <= |txs|
    requires forall c :: c in callers ==> c in s.signerSet.value.signers
    requires forall j: nat :: j < n ==> !TookEffect(s, txs, j, a)
    ensures var now := After(s, txs, n);
      && Inv(now) && now.signerSet == s.signerSet
      && (forall i :: 0 <= i < n ==> callers[i] in Approvals(now, a))
      && (n > 0 ==> CountIn(Approvals(now, a), s.signerSet.value.signers) < s.signerSet.value.threshold)
  {
    hide Run, Step, Effects, Inv, ValidFor, Approvals, CountIn;
    if n > 0 {
      var m := n - 1;
      CallsAccumulate(s, txs, callers, a, m);
      assert callers[m] in callers;
      assert !TookEffect(s, txs, m, a);
      CallRecorded(After(s, txs, m), txs[m], callers[m], a);
    }
  }

  /** A call for a valid action that does not take effect is recorded, and moves nothing else that counts. */
  lemma CallRecorded(s: Storage, tx: Tx, caller: Address, a: SignerAction)
    requires Inv(s) && s.signerSet.Some? && ValidFor(a, s.signerSet.value)
    requires tx.call == Signer(caller, a) && caller in tx.auth && caller in s.signerSet.value.signers
    requires !Effects(s, tx, a)
    ensures var now := Step(s, tx);
      && Inv(now) && now.signerSet == s.signerSet
      && Approvals(now, a) == WithApproval(Approvals(s, a), caller)
      && CountIn(Approvals(now, a), s.signerSet.value.signers) < s.signerSet.value.threshold
  {
    StepKeepsInv(s, tx);
    EffectsIff(s, tx, a);
    ValidCallAccepted(s, tx, caller, a);
    SignerCallOutcome(s, tx);
    hide Run, CountIn, Applied, Effects;
  }

  lemma ValidCallAccepted(s: Storage, tx: Tx, caller: Address, a: SignerAction)
    requires Inv(s) && s.signerSet.Some? && ValidFor(a, s.signerSet.value)
    requires tx.call == Signer(caller, a) && caller in tx.auth && caller in s.signerSet.value.signers
    ensures Run(s, tx).Ok?
  {
    hide CountIn;
  }

  /** Bounded progress: whatever approvals are stored, `threshold` distinct current signers calling for a valid
      action with nothing in between make it take effect at or before the last of their calls. */
  lemma BoundedProgress(s: Storage, txs: seq<Tx>, callers: seq<Address>, a: SignerAction) returns (k: nat)
    requires Inv(s) && s.signerSet.Some? && ValidFor(a, s.signerSet.value)
    requires CallsBy(txs, callers, a) && Distinct(callers) && |callers| == s.signerSet.value.threshold
    requires forall c :: c in callers ==> c in s.signerSet.value.signers
    ensures k < |txs| && TookEffect(s, txs, k, a) && forall j: nat :: j < k ==> !TookEffect(s, txs, j, a)
    ensures After(s, txs, k).signerSet == s.signerSet
    ensures After(s, txs, k + 1).signerSet == Some(Applied(a, s.signerSet.value))
  {
    hide Run, Step, Effects, Applied;
    if forall j: nat :: j < |txs| ==> !TookEffect(s, txs, j, a) {
      CallsAccumulate(s, txs, callers, a, |txs|);
      var approvals := Approvals(After(s, txs, |txs|), a);
      assert forall c :: c in callers ==> c in approvals;
      CountInAtLeast(approvals, s.signerSet.value.signers, callers);
      assert false;
    } else {
      k :| k < |txs| && TookEffect(s, txs, k, a);
      k := FirstEffect(s, txs, a, k);
      CallsAccumulate(s, txs, callers, a, k);
      StepWithEffect(After(s, txs, k), txs[k], a);
    }
  }

  lemma FirstEffect(s: Storage, txs: seq<Tx>, a: SignerAction, k: nat) returns (first: nat)
    requires k < |txs| && TookEffect(s, txs, k, a)
    ensures first <= k && TookEffect(s, txs, first, a)
    ensures forall j: nat :: j < first ==> !TookEffect(s, txs, j, a)
  {
    if j: nat :| j < k && TookEffect(s, txs, j, a) {
      first := FirstEffect(s, txs, a, j);
    } else {
      first := k;
    }
  }

  // ---- No dead end -----------------------------------------------------------------------------------------

  /** An accepted call made in `ledger`, by a signer of the set it finds, on that signer's authority alone. */
  ghost predicate SignerStep(s: Storage, tx: Tx, ledger: u32) {
    && tx.ledger == ledger && tx.call.Signer? && s.signerSet.Some?
    && tx.call.caller in s.signerSet.value.signers && tx.auth == {tx.call.caller}
    && Run(s, tx).Ok?
  }

  ghost function BySigner(ledger: u32): (Storage, Tx) -> bool {
    (s, tx) => SignerStep(s, tx, ledger)
  }

  /** The calls up to the first effect form a run of current signers. */
  lemma CallsFormRun(s: Storage, txs: seq<Tx>, callers: seq<Address>, a: SignerAction, k: nat, ledger: u32)
    requires Inv(s) && s.signerSet.Some? && ValidFor(a, s.signerSet.value)
    requires CallsBy(txs, callers, a) && k < |txs|
    requires forall i :: 0 <= i < |txs| ==> txs[i] == Tx(ledger, {callers[i]}, Signer(callers[i], a))
    requires forall c :: c in callers ==> c in s.signerSet.value.signers
    requires forall j: nat :: j < k ==> !TookEffect(s, txs, j, a)
    ensures Runs.Permitted(Step, BySigner(ledger), s, txs[..k + 1])
    ensures After(s, txs[..k + 1], k + 1) == After(s, txs, k + 1)
    ensures Inv(After(s, txs, k + 1))
  {
    hide Run, Runs.After, Effects, ValidFor, Step, Approvals, CountIn, Inv, TookEffect;
    var run, rest := txs[..k + 1], txs[k + 1..];
    assert run + rest == txs;
    forall i | 0 <= i < |run|
      ensures SignerStep(After(s, run, i), run[i], ledger)
    {
      Runs.AfterAppend(Step, s, run, rest, i);
      CallsAccumulate(s, txs, callers, a, i);
      assert callers[i] in callers;
      ValidCallAccepted(After(s, txs, i), txs[i], callers[i], a);
    }
    Runs.AfterAppend(Step, s, run, rest, k + 1);
    CallsAccumulate(s, txs, callers, a, k);
    StepKeepsInv(After(s, txs, k), txs[k]);
    assert After(s, txs, k + 1) == Step(After(s, txs, k), txs[k]) by { AfterNext(s, txs, k); }
  }

  lemma AfterNext(s: Storage, txs: seq<Tx>, k: nat)
    requires k < |txs|
    ensures After(s, txs, k + 1) == Step(After(s, txs, k), txs[k])
  {
  }

  /** Signers can make any single valid action take effect, leaving the set exactly as the action says. */
  lemma Drive(s: Storage, a: SignerAction, ledger: u32) returns (s': Storage)
    requires Inv(s) && s.signerSet.Some? && ValidFor(a, s.signerSet.value)
    ensures Runs.Leads(Step, BySigner(ledger), s, s') && Inv(s') && s'.signerSet == Some(Applied(a, s.signerSet.value))
  {
    hide Run, Runs.After, Effects, Applied, ValidFor, Step, Runs.Permitted, TookEffect;
    var callers := s.signerSet.value.signers[..s.signerSet.value.threshold];
    var txs := seq(|callers|, i requires 0 <= i < |callers| => Tx(ledger, {callers[i]}, Signer(callers[i], a)));
    var k := BoundedProgress(s, txs, callers, a);
    CallsFormRun(s, txs, callers, a, k, ledger);
    s' := After(s, txs, k + 1);
  }

  ghost predicate Governed(s: Storage, signers: set<Address>, threshold: u32) {
    && s.signerSet.Some?
    && Distinct(s.signerSet.value.signers) && Members(s.signerSet.value.signers) == signers
    && s.signerSet.value.threshold == threshold
  }

  /** With threshold 1, signers can add every address of `xs`. */
  lemma {:induction false} AddAll(s: Storage, xs: set<Address>, ledger: u32) returns (s': Storage)
    requires Inv(s) && s.signerSet.Some? && s.signerSet.value.threshold == 1
    ensures Runs.Leads(Step, BySigner(ledger), s, s') && Inv(s')
    ensures Governed(s', Members(s.signerSet.value.signers) + xs, 1)
    decreases |xs|
  {
    hide Run, Runs.Leads;
    Runs.LeadsReflexive(Step, BySigner(ledger), s);
    var members := Members(s.signerSet.value.signers);
    if xs <= members {
      s' := s;
      assert members + xs == members;
    } else {
      var x :| x in xs && x !in members;
      var mid := Drive(s, Add(x), ledger);
      s' := AddAll(mid, xs - {x}, ledger);
      Runs.LeadsTransitive(Step, BySigner(ledger), s, mid, s');
      assert Members(mid.signerSet.value.signers) + (xs - {x}) == members + xs;
    }
  }

  /** With threshold 1, signers can remove every member outside the non-empty set `keep`. */
  lemma {:induction false} RemoveAllBut(s: Storage, keep: set<Address>, ledger: u32) returns (s': Storage)
    requires Inv(s) && s.signerSet.Some? && s.signerSet.value.threshold == 1
    requires keep != {} && keep <= Members(s.signerSet.value.signers)
    ensures Runs.Leads(Step, BySigner(ledger), s, s') && Inv(s') && Governed(s', keep, 1)
    decreases |s.signerSet.value.signers|
  {
    hide Run, Runs.Leads;
    Runs.LeadsReflexive(Step, BySigner(ledger), s);
    var signers := s.signerSet.value.signers;
    if Members(signers) == keep {
      s' := s;
    } else {
      var x :| x in Members(signers) && x !in keep;
      var k :| k in keep;
      assert k in signers && k != x;
      DistinctCard(signers);
      CardMonotone({x, k}, Members(signers));
      var mid := Drive(s, Remove(x), ledger);
      WithoutMembers(signers, x);
      WithoutDistinct(signers, x);
      s' := RemoveAllBut(mid, keep, ledger);
      Runs.LeadsTransitive(Step, BySigner(ledger), s, mid, s');
    }
  }

  /** Lower the threshold, add, remove, raise: from any state with a signer set, whatever is pending, signers
      can reach exactly the given set and threshold. */
  lemma SignersCanReach(s: Storage, signers: set<Address>, threshold: u32, ledger: u32) returns (s': Storage)
    requires Inv(s) && s.signerSet.Some?
    requires 1 <= threshold <= |signers|
    ensures Runs.Leads(Step, BySigner(ledger), s, s') && Governed(s', signers, threshold)
  {
    hide Run, Runs.Leads;
    var lowered := Drive(s, SetThreshold(1), ledger);
    var grown := AddAll(lowered, signers, ledger);
    var shrunk := RemoveAllBut(grown, signers, ledger);
    DistinctCard(shrunk.signerSet.value.signers);
    s' := Drive(shrunk, SetThreshold(threshold), ledger);
    Runs.LeadsTransitive(Step, BySigner(ledger), s, lowered, grown);
    Runs.LeadsTransitive(Step, BySigner(ledger), s, grown, shrunk);
    Runs.LeadsTransitive(Step, BySigner(ledger), s, shrunk, s');
  }

  /** `s` is the storage of a deployed contract at some point of some run. */
  ghost predicate Reachable(s: Storage) {
    exists code, txs: seq<Tx>, n: nat :: n <= |txs| && s == After(Fresh(code), txs, n)
  }

  /** Some run of calls, each by a signer of the set it finds, ends with exactly these signers and threshold. */
  ghost predicate CanBecome(s: Storage, signers: set<Address>, threshold: u32, ledger: u32) {
    exists s' :: Runs.Leads(Step, BySigner(ledger), s, s') && Governed(s', signers, threshold)
  }

  /** Governance has no dead end: from every reachable state with a signer set, whatever approvals are pending and
      in whatever ledger, signers alone can reach every non-empty target set and every threshold it allows. */
  lemma GovernanceHasNoDeadEnd(s: Storage, signers: set<Address>, threshold: u32, ledger: u32)
    requires Reachable(s) && s.signerSet.Some?
    requires 1 <= threshold <= |signers|
    ensures CanBecome(s, signers, threshold, ledger)
  {
    hide Run, Step, Runs.Leads;
    var code, txs: seq<Tx>, n: nat :| n <= |txs| && s == After(Fresh(code), txs, n);
    ReachableInv(code, txs, n);
    var s' := SignersCanReach(s, signers, threshold, ledger);
  }
}
