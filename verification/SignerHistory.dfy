/** The signer set of the denylist gate, read off the run: who is in it, at what threshold, and what each call about it
    answers. */
module SignerHistory {
  import opened Host
  import opened Lists
  import opened DenylistGate
  import opened Governance
  import Runs

  // ---- What an action does to the set ----------------------------------------------------------------------

  /** `after` is `before` moved by `a`: an addition appends the new signer and a removal takes out that signer alone,
      the others keeping their order and the threshold its value; a new threshold leaves the signers as they were. */
  ghost predicate MovedBy(a: SignerAction, before: SignerSet, after: SignerSet) {
    match a
    case Add(x) =>
      x !in before.signers && after.signers == before.signers + [x] && after.threshold == before.threshold
    case Remove(x) =>
      TakesOut(before.signers, after.signers, x) && after.threshold == before.threshold
    case SetThreshold(n) => after.signers == before.signers && after.threshold == n
  }

  lemma EffectMovesTheSet(s: Storage, tx: Tx, a: SignerAction)
    requires Inv(s) && Effects(s, tx, a)
    ensures s.signerSet.Some? && Step(s, tx).signerSet.Some?
    ensures MovedBy(a, s.signerSet.value, Step(s, tx).signerSet.value)
  {
    hide Effects, Run, Step;
    StepWithEffect(s, tx, a);
    if a.Remove? {
      WithoutTakesOut(s.signerSet.value.signers, a.who);
    }
  }

  /** Every change that takes effect does exactly this, and nothing else. */
  lemma ActionMovesTheSet(code: WasmHash, txs: seq<Tx>, i: nat, a: SignerAction)
    requires TookEffect(Fresh(code), txs, i, a)
    ensures var s, t := After(Fresh(code), txs, i), After(Fresh(code), txs, i + 1);
      && s.signerSet.Some? && t.signerSet.Some? && MovedBy(a, s.signerSet.value, t.signerSet.value)
      && (forall b :: b != a ==> Approvals(t, b) == Approvals(s, b))
      && t.admin == s.admin && t.pendingAdmin == s.pendingAdmin && t.pendingUpgrade == s.pendingUpgrade && t.code == s.code
  {
    hide Effects, Run, MovedBy;
    ReachableInv(code, txs, i);
    EffectMovesTheSet(After(Fresh(code), txs, i), txs[i], a);
    SignerCallTouches(After(Fresh(code), txs, i), txs[i], a);
  }

  lemma SignerCallTouches(s: Storage, tx: Tx, a: SignerAction)
    requires Effects(s, tx, a)
    ensures var t := Step(s, tx);
      && (forall b :: b != a ==> Approvals(t, b) == Approvals(s, b))
      && t.admin == s.admin && t.pendingAdmin == s.pendingAdmin && t.pendingUpgrade == s.pendingUpgrade && t.code == s.code
  {
    hide Effects, Run, CountIn, Applied, Refusal, Announcement;
    EffectsIff(s, tx, a);
    SignerCallOutcome(s, tx);
  }

  /** What an accepted signer's call publishes: its approval, and with it, when the action takes effect, the new or lost
      signer, or the old threshold and the new. */
  lemma SignerCallPublishes(code: WasmHash, txs: seq<Tx>, n: nat, c: Address, a: SignerAction)
    requires n < |txs| && txs[n].call == Signer(c, a) && Run(After(Fresh(code), txs, n), txs[n]).Ok?
    ensures var s, events := After(Fresh(code), txs, n), Run(After(Fresh(code), txs, n), txs[n]).value.events;
      if !TookEffect(Fresh(code), txs, n, a) then events == [SignerApproved(c)]
      else
        && s.signerSet.Some?
        && events == [SignerApproved(c),
                      match a
                      case Add(x) => SignerAdded(x)
                      case Remove(x) => SignerRemoved(x)
                      case SetThreshold(t) => ThresholdChanged(s.signerSet.value.threshold, t)]
  {
    var s := After(Fresh(code), txs, n);
    EffectsIff(s, txs[n], a);
    SignerCallOutcome(s, txs[n]);
    hide Run, Effects, CountIn, Applied, Refusal;
  }

  // ---- Membership and threshold over runs ------------------------------------------------------------------

  ghost predicate IsSigner(s: Storage, x: Address) {
    s.signerSet.Some? && x in s.signerSet.value.signers
  }

  ghost predicate HasThreshold(s: Storage, t: u32) {
    s.signerSet.Some? && s.signerSet.value.threshold == t
  }

  ghost predicate Installs(s: Storage, tx: Tx) {
    tx.call.InitializeMultisig? && Run(s, tx).Ok?
  }

  ghost predicate Joins(s: Storage, tx: Tx, x: Address) {
    Effects(s, tx, Add(x)) || (Installs(s, tx) && x in tx.call.signers)
  }

  ghost predicate Leaves(s: Storage, tx: Tx, x: Address) {
    Effects(s, tx, Remove(x))
  }

  ghost predicate SetsThreshold(s: Storage, tx: Tx, t: u32) {
    Effects(s, tx, SetThreshold(t)) || (Installs(s, tx) && tx.call.threshold == t)
  }

  ghost predicate MovesThreshold(s: Storage, tx: Tx) {
    exists t: u32 :: SetsThreshold(s, tx, t)
  }

  lemma InstallStep(s: Storage, tx: Tx)
    requires Installs(s, tx)
    ensures s.signerSet.None?
    ensures Step(s, tx).signerSet == Some(SignerSet(tx.call.signers, tx.call.threshold))
    ensures forall a :: !Effects(s, tx, a)
  {
  }

  lemma OtherwiseUnmoved(s: Storage, tx: Tx)
    requires !Installs(s, tx) && forall a :: !Effects(s, tx, a)
    ensures Step(s, tx).signerSet == s.signerSet
  {
    if tx.call.Signer? && Run(s, tx).Ok? {
      EffectsIff(s, tx, tx.call.action);
      SignerCallOutcome(s, tx);
      hide CountIn, Applied, Refusal, Announcement, Effects;
    } else {
      OtherCallsMoveNothing(s, tx);
      hide Run, Step, Effects;
    }
  }

  lemma OtherCallsMoveNothing(s: Storage, tx: Tx)
    requires !Installs(s, tx) && (!tx.call.Signer? || !Run(s, tx).Ok?)
    ensures Step(s, tx).signerSet == s.signerSet
  {
  }

  lemma EffectIsUnique(s: Storage, tx: Tx, a: SignerAction, b: SignerAction)
    requires Effects(s, tx, a) && Effects(s, tx, b)
    ensures a == b && !Installs(s, tx)
  {
    EffectsIff(s, tx, a);
    EffectsIff(s, tx, b);
  }

  lemma MembershipStep(s: Storage, tx: Tx, x: Address)
    requires Inv(s)
    ensures IsSigner(Step(s, tx), x) <==> Joins(s, tx, x) || (IsSigner(s, x) && !Leaves(s, tx, x))
  {
    hide Step, Effects, Run;
    if Installs(s, tx) {
      InstallStep(s, tx);
    } else if a :| Effects(s, tx, a) {
      EffectMovesTheSet(s, tx, a);
      if Effects(s, tx, Add(x)) { EffectIsUnique(s, tx, a, Add(x)); }
      if Effects(s, tx, Remove(x)) { EffectIsUnique(s, tx, a, Remove(x)); }
    } else {
      OtherwiseUnmoved(s, tx);
    }
  }

  lemma ThresholdStep(s: Storage, tx: Tx, t: u32)
    requires Inv(s)
    ensures HasThreshold(Step(s, tx), t) <==> SetsThreshold(s, tx, t) || (HasThreshold(s, t) && !MovesThreshold(s, tx))
  {
    hide Step, Effects, Run;
    if Installs(s, tx) {
      InstallStep(s, tx);
      assert SetsThreshold(s, tx, tx.call.threshold);
    } else if a :| Effects(s, tx, a) {
      EffectMovesTheSet(s, tx, a);
      forall u: u32 | Effects(s, tx, SetThreshold(u))
        ensures a == SetThreshold(u)
      {
        EffectIsUnique(s, tx, a, SetThreshold(u));
      }
      assert a.SetThreshold? ==> SetsThreshold(s, tx, a.n);
    } else {
      OtherwiseUnmoved(s, tx);
    }
  }

  /** An address is a signer exactly when it was installed or added and has not been removed since. */
  lemma MembershipHistory(code: WasmHash, txs: seq<Tx>, n: nat, x: Address)
    requires n <= |txs|
    ensures IsSigner(After(Fresh(code), txs, n), x) <==>
      Runs.Since(Step, Fresh(code), txs, n, (s, tx) => Joins(s, tx, x), (s, tx) => Leaves(s, tx, x))
  {
    forall m: nat | m < n
      ensures var s := After(Fresh(code), txs, m);
        IsSigner(Step(s, txs[m]), x) <==> Joins(s, txs[m], x) || (IsSigner(s, x) && !Leaves(s, txs[m], x))
    {
      ReachableInv(code, txs, m);
      MembershipStep(After(Fresh(code), txs, m), txs[m], x);
    }
    hide IsSigner, Joins, Leaves, Step;
    Runs.HoldsSince(Step, Fresh(code), txs, n, s => IsSigner(s, x), (s, tx) => Joins(s, tx, x), (s, tx) => Leaves(s, tx, x));
  }

  /** The threshold is the one last installed or set. */
  lemma ThresholdHistory(code: WasmHash, txs: seq<Tx>, n: nat, t: u32)
    requires n <= |txs|
    ensures HasThreshold(After(Fresh(code), txs, n), t) <==>
      Runs.Since(Step, Fresh(code), txs, n, (s, tx) => SetsThreshold(s, tx, t), (s, tx) => MovesThreshold(s, tx))
  {
    forall m: nat | m < n
      ensures var s := After(Fresh(code), txs, m);
        HasThreshold(Step(s, txs[m]), t) <==> SetsThreshold(s, txs[m], t) || (HasThreshold(s, t) && !MovesThreshold(s, txs[m]))
    {
      ReachableInv(code, txs, m);
      ThresholdStep(After(Fresh(code), txs, m), txs[m], t);
    }
    hide HasThreshold, SetsThreshold, MovesThreshold, Step;
    Runs.HoldsSince(Step, Fresh(code), txs, n,
                    s => HasThreshold(s, t), (s, tx) => SetsThreshold(s, tx, t), (s, tx) => MovesThreshold(s, tx));
  }

  // ---- What the calls answer -------------------------------------------------------------------------------

  /** The answer to an authorised member's call, given whether it completes a quorum. */
  ghost predicate AnswersMember(r: Result, a: SignerAction, group: SignerSet, quorum: bool) {
    match a
    case Add(x) => if x in group.signers then r == Err(SignerAlreadyExists) else r.Ok?
    case Remove(x) =>
      if x !in group.signers then r == Err(SignerNotInSet)
      else if |group.signers| == 1 then r == Err(InvalidSignerSet)
      else if |group.signers| == group.threshold then r == Err(InvalidThreshold)
      else r.Ok?
    case SetThreshold(n) => if quorum && (n == 0 || n > |group.signers|) then r == Err(InvalidThreshold) else r.Ok?
  }

  /** Every answer to a signer's call, in terms of the run. With `callers` the caller and all whose calls for the same
      action still stand, an accepted call takes effect exactly when threshold of them are in the set; a threshold out
      of range is refused only then. */
  lemma SignerCallAnswers(code: WasmHash, txs: seq<Tx>, n: nat, c: Address, a: SignerAction) returns (callers: set<Address>)
    requires n < |txs| && txs[n].call == Signer(c, a)
    ensures forall b :: b in callers <==> b == c || exists i :: Standing(Fresh(code), txs, n, i, a, b)
    ensures var s := After(Fresh(code), txs, n);
      var r := Run(s, txs[n]);
      if c !in txs[n].auth then r == Trap
      else if s.signerSet.None? then r == Err(MultisigNotEnabled)
      else if c !in s.signerSet.value.signers then r == Err(NotAuthorized)
      else
        var group := s.signerSet.value;
        var quorum := |callers * Members(group.signers)| >= group.threshold;
        && AnswersMember(r, a, group, quorum)
        && (TookEffect(Fresh(code), txs, n, a) <==> r.Ok? && quorum)
  {
    hide Run, Step, Effects, Standing, AnswersMember;
    ApprovalHistory(code, txs, n, a);
    ReachableInv(code, txs, n);
    var s := After(Fresh(code), txs, n);
    var collected := Approvals(s, a);
    callers := Members(collected) + {c};
    assert Members(WithApproval(collected, c)) == callers;
    if s.signerSet.Some? {
      CountInIsCard(WithApproval(collected, c), s.signerSet.value.signers);
    }
    AnswersToSigner(s, txs[n], c, a);
    EffectsIff(s, txs[n], a);
  }

  lemma AnswersToSigner(s: Storage, tx: Tx, c: Address, a: SignerAction)
    requires Inv(s) && tx.call == Signer(c, a)
    ensures var r := Run(s, tx);
      if c !in tx.auth then r == Trap
      else if s.signerSet.None? then r == Err(MultisigNotEnabled)
      else if c !in s.signerSet.value.signers then r == Err(NotAuthorized)
      else
        var group := s.signerSet.value;
        var quorum := CountIn(WithApproval(Approvals(s, a), c), group.signers) >= group.threshold;
        AnswersMember(r, a, group, quorum) && (r.Ok? ==> (|r.value.events| == 2 <==> quorum))
  {
    hide CountIn, Applied, Announcement, Approvals, WithApproval;
  }

  /** The one-time installation: every answer once the admin's guard is passed, and what it installs. */
  lemma InstallationAnswers(s: Storage, tx: Tx)
    requires tx.call.InitializeMultisig? && tx.call.admin in tx.auth && s.admin == Some(tx.call.admin)
    ensures var r, signers, t := Run(s, tx), tx.call.signers, tx.call.threshold;
      && (r == Err(AlreadyInitialized) <==> s.signerSet.Some?)
      && (r == Err(InvalidThreshold) <==> s.signerSet.None? && signers != [] && !(1 <= t <= |signers|))
      && (r == Err(InvalidSignerSet) <==>
            s.signerSet.None? && (signers == [] || (1 <= t <= |signers| && !Distinct(signers))))
      && (r.Ok? <==> s.signerSet.None? && 1 <= t <= |signers| && Distinct(signers))
      && (r.Ok? ==> r.value == Post(s.(signerSet := Some(SignerSet(signers, t))), []))
  {
  }
}
