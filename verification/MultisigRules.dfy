/** The standalone multisig over whole runs: who its signers are, what pausing stops, and what its calls answer. */
module MultisigRules {
  import opened Host
  import opened Lists
  import opened MultisigAdmin
  import opened MultisigRuns
  import Runs

  // ---- What the calls answer -------------------------------------------------------------------------------

  /** The signatures attached for the account are a quorum of its signers. */
  ghost predicate SignedByQuorum(s: Storage, tx: Tx) {
    tx.signatures.Some? && IsQuorum(s, tx.auth, tx.signatures.value)
  }

  lemma RequireSelfMeaning(s: Storage, tx: Tx)
    ensures RequireSelf(s, tx.auth, tx.signatures) == if SignedByQuorum(s, tx) then Ok(()) else Trap
  {
    hide CheckAuth, IsQuorum;
    if tx.signatures.Some? {
      CheckAuthAcceptsExactlyQuorums(s, tx.auth, tx.signatures.value);
    }
  }

  /** Every answer of `__check_auth`: a repeat is reported before anything is asked, a signature that does not authorise
      traps, and too few members are refused. */
  lemma CheckAuthAnswers(s: Storage, auth: set<Address>, signatures: seq<Address>)
    requires s.signers.Some? <==> s.threshold.Some?
    ensures var r := CheckAuth(s, auth, signatures);
      if s.signers.None? then r == Err(NotInitialized)
      else if !Distinct(signatures) then r == Err(DuplicateSignature)
      else if exists a :: a in signatures && a !in auth then r == Trap
      else if |Members(signatures) * Members(s.signers.value)| < s.threshold.value then r == Err(ThresholdNotMet)
      else r == Ok(())
  {
    if Distinct(signatures) && s.signers.Some? {
      CountInIsCard(signatures, s.signers.value);
    }
    assert (Members(signatures) <= auth) <==> forall a :: a in signatures ==> a in auth;
  }

  /** In every reachable state the calls that change signers or threshold are refused while paused, and otherwise trap
      unless a quorum signed them. A signed one is refused exactly for a signer already there, a signer missing, or a
      threshold that would leave 1 to the number of signers; an accepted one does what it says and nothing else. */
  lemma ConfigurationAnswers(txs: seq<Tx>, n: nat)
    requires n < |txs| && (txs[n].call.AddSigner? || txs[n].call.RemoveSigner? || txs[n].call.UpdateThreshold?)
    ensures var s, tx := After(FRESH, txs, n), txs[n];
      var r := Run(s, tx);
      if s.paused then r == Err(ContractPaused)
      else if !SignedByQuorum(s, tx) then r == Trap
      else
        && s.signers.Some? && s.threshold.Some?
        && (r.Ok? ==> r.value.value == Unit && r.value.storage.signers.Some?)
        && match tx.call
           case AddSigner(x) =>
             if x in s.signers.value then r == Err(AlreadySigner)
             else r.Ok? && r.value.storage == s.(signers := Some(s.signers.value + [x]))
           case RemoveSigner(x) =>
             if x !in s.signers.value then r == Err(SignerNotFound)
             else if |s.signers.value| == s.threshold.value then r == Err(InvalidThreshold)
             else
               && r.Ok? && r.value.storage == s.(signers := r.value.storage.signers)
               && TakesOut(s.signers.value, r.value.storage.signers.value, x)
           case UpdateThreshold(t) =>
             if t == 0 || t > |s.signers.value| then r == Err(InvalidThreshold)
             else r.Ok? && r.value.storage == s.(threshold := Some(t))
           case _ => true
  {
    ReachableInv(txs, n);
    var s, tx := After(FRESH, txs, n), txs[n];
    RequireSelfMeaning(s, tx);
    if tx.call.RemoveSigner? && s.signers.Some? && tx.call.signer in s.signers.value {
      RemoveFirstMembers(s.signers.value, tx.call.signer);
      RemoveFirstTakesOut(s.signers.value, tx.call.signer);
    }
    hide After, RequireSelf, CheckAuth, RemoveFirst, TakesOut, Distinct, Members;
  }

  /** Pausing, resuming and upgrading ignore the pause; before the set-up an upgrade is refused and the others trap. */
  lemma AccountAnswers(s: Storage, tx: Tx)
    requires tx.call.Pause? || tx.call.Unpause? || tx.call.Upgrade?
    ensures var r := Run(s, tx);
      if tx.call.Upgrade? && s.threshold.None? then r == Err(NotInitialized)
      else if !SignedByQuorum(s, tx) then r == Trap
      else
        r == Ok(Post(match tx.call
                     case Pause => s.(paused := true)
                     case Unpause => s.(paused := false)
                     case Upgrade(code) => s.(installed := Some(code))
                     case _ => s, Unit))
  {
    RequireSelfMeaning(s, tx);
    hide RequireSelf, SignedByQuorum;
  }

  lemma SetUpAnswers(s: Storage, tx: Tx)
    requires tx.call.Initialize?
    ensures var r, signers, t := Run(s, tx), tx.call.signers, tx.call.threshold;
      && (r == Err(AlreadyInitialized) <==> s.threshold.Some?)
      && (r == Err(DuplicateSigner) <==> s.threshold.None? && !Distinct(signers))
      && (r == Err(InvalidThreshold) <==> s.threshold.None? && Distinct(signers) && !(1 <= t <= |signers|))
      && (r.Ok? <==> s.threshold.None? && Distinct(signers) && 1 <= t <= |signers|)
      && (r.Ok? ==> r.value == Post(s.(signers := Some(signers), threshold := Some(t)), Unit))
  {
  }

  /** The life of a proposal in terms of the run: creation is refused while paused, for an expiry that has come, and
      before the set-up; approval while paused, and unless the approver authorises it, the proposal was created and not
      executed, its expiry is ahead, and the approver is a signer who has not approved it. Execution is not stopped by
      a pause, and needs no authorisation but the approvals. */
  lemma ProposalAnswers(txs: seq<Tx>, n: nat)
    requires n < |txs| && (txs[n].call.Propose? || txs[n].call.Approve? || txs[n].call.Execute?)
    ensures var s, tx := After(FRESH, txs, n), txs[n];
      var r := Run(s, tx);
      match tx.call
      case Propose(payload, expiry) =>
        if s.paused then r == Err(ContractPaused)
        else if expiry <= tx.ledger then r == Err(ExpiredProposal)
        else if s.signers.None? then r == Err(NotInitialized)
        else if NextId(s) == MAX_U64 then r == Trap
        else r.Ok? && r.value.value == ProposalId(NextId(s)) && !EverCreated(txs, n, NextId(s))
      case Approve(id, c) =>
        if s.paused then r == Err(ContractPaused)
        else if c !in tx.auth then r == Trap
        else if !EverCreated(txs, n, id) || EverExecuted(txs, n, id) then r == Err(ProposalNotFound)
        else
          && id in s.proposals && s.signers.Some? && CreatedAs(txs, n, id, s.proposals[id])
          && if tx.ledger >= s.proposals[id].expiry then r == Err(ExpiredProposal)
             else if c !in s.signers.value then r == Err(NotASigner)
             else if EverApproved(txs, n, id, c) then r == Err(AlreadyApproved)
             else r.Ok? && r.value.value.Ready?
      case Execute(id) =>
        if !EverCreated(txs, n, id) || EverExecuted(txs, n, id) then r == Err(ProposalNotFound)
        else
          && id in s.proposals && s.signers.Some? && s.threshold.Some?
          && CreatedAs(txs, n, id, s.proposals[id])
          && if tx.ledger >= s.proposals[id].expiry then r == Err(ExpiredProposal)
             else if |Members(s.proposals[id].approvals) * Members(s.signers.value)| < s.threshold.value then
               r == Err(ThresholdNotMet)
             else r.Ok? && r.value.value == Unit
      case _ => true
  {
    var s, tx := After(FRESH, txs, n), txs[n];
    ReachableInv(txs, n);
    if tx.call.Propose? {
      ProposalHistory(txs, n, NextId(s));
    } else {
      ProposalHistory(txs, n, tx.call.id);
      if tx.call.Execute? && tx.call.id in s.proposals {
        CountInIsCard(s.proposals[tx.call.id].approvals, s.signers.value);
      }
    }
    hide After, EverCreated, EverExecuted, EverApproved, CreatedAs, CountIn, Distinct;
  }

  /** How many of the first `n` calls created a proposal. */
  ghost function Creations(txs: seq<Tx>, n: nat): nat
    requires n <= |txs|
  {
    if n == 0 then 0
    else Creations(txs, n - 1) + if CreatesSome(txs, n - 1) then 1 else 0
  }

  ghost predicate CreatesSome(txs: seq<Tx>, i: nat) {
    exists id :: Created(txs, i, id)
  }

  /** Proposals are numbered from 0 without gaps. */
  lemma {:induction false} ProposalsAreNumbered(txs: seq<Tx>, n: nat)
    requires n <= |txs|
    ensures NextId(After(FRESH, txs, n)) == Creations(txs, n)
    ensures forall i: nat, id :: i < n && Created(txs, i, id) ==> id == Creations(txs, i)
  {
    if n > 0 {
      var m := n - 1;
      var s := After(FRESH, txs, m);
      ProposalsAreNumbered(txs, m);
      NumberStep(s, txs[m]);
      Runs.AfterNext(Step, FRESH, txs, m);
      hide Run, Step, NextId, Creates, Runs.After;
      assert forall id :: Created(txs, m, id) <==> Creates(s, txs[m], id);
    }
  }

  lemma NumberStep(s: Storage, tx: Tx)
    ensures forall id :: Creates(s, tx, id) ==> id == NextId(s)
    ensures NextId(Step(s, tx)) == NextId(s) + if exists id :: Creates(s, tx, id) then 1 else 0
  {
    if tx.call.Propose? {
      assert Run(s, tx).Ok? ==> Creates(s, tx, NextId(s));
    } else if tx.call.Approve? || tx.call.Execute? {
      hide CountIn, CheckAuth, RequireSelf;
    } else {
      OtherCallsKeepProposals(s, tx);
      hide Run, Step;
    }
  }

  // ---- Signers, threshold and pause over runs --------------------------------------------------------------

  ghost predicate IsSigner(s: Storage, x: Address) {
    s.signers.Some? && x in s.signers.value
  }

  ghost predicate Joins(s: Storage, tx: Tx, x: Address) {
    Run(s, tx).Ok? && (tx.call == AddSigner(x) || (tx.call.Initialize? && x in tx.call.signers))
  }

  ghost predicate Leaves(s: Storage, tx: Tx, x: Address) {
    Run(s, tx).Ok? && tx.call == RemoveSigner(x)
  }

  ghost predicate MovesThreshold(s: Storage, tx: Tx) {
    Run(s, tx).Ok? && (tx.call.Initialize? || tx.call.UpdateThreshold?)
  }

  ghost predicate SetsThreshold(s: Storage, tx: Tx, t: u32) {
    MovesThreshold(s, tx) && tx.call.threshold == t
  }

  ghost predicate Pauses(s: Storage, tx: Tx) {
    Run(s, tx).Ok? && tx.call.Pause?
  }

  ghost predicate Resumes(s: Storage, tx: Tx) {
    Run(s, tx).Ok? && tx.call.Unpause?
  }

  /** What a call may touch: each key moves only in the accepted calls that are about it. */
  lemma ConfigurationMovesIn(s: Storage, tx: Tx)
    ensures var t := Step(s, tx);
      if !Run(s, tx).Ok? then t == s
      else
        && (t.signers == match tx.call
              case Initialize(signers, _) => Some(signers)
              case AddSigner(x) => if s.signers.None? then None else Some(s.signers.value + [x])
              case RemoveSigner(x) => if s.signers.None? then None else Some(RemoveFirst(s.signers.value, x))
              case _ => s.signers)
        && (tx.call.RemoveSigner? ==> s.signers.Some? && tx.call.signer in s.signers.value)
        && (tx.call.AddSigner? ==> s.signers.Some?)
        && (tx.call.Initialize? ==> s.threshold.None?)
        && t.threshold == (if MovesThreshold(s, tx) then Some(tx.call.threshold) else s.threshold)
        && t.paused == (if tx.call.Pause? then true else if tx.call.Unpause? then false else s.paused)
  {
    hide RequireSelf, CheckAuth, RemoveFirst, CountIn;
  }

  lemma MembershipStep(s: Storage, tx: Tx, x: Address)
    requires Inv(s)
    ensures IsSigner(Step(s, tx), x) <==> Joins(s, tx, x) || (IsSigner(s, x) && !Leaves(s, tx, x))
  {
    hide Run, Step, RemoveFirst;
    ConfigurationMovesIn(s, tx);
    if Run(s, tx).Ok? && tx.call.RemoveSigner? {
      RemoveFirstMembers(s.signers.value, tx.call.signer);
    }
  }

  /** An address is a signer exactly when it was in the set-up or was added, and has not been removed since. */
  lemma MembershipHistory(txs: seq<Tx>, n: nat, x: Address)
    requires n <= |txs|
    ensures IsSigner(After(FRESH, txs, n), x) <==>
      Runs.Since(Step, FRESH, txs, n, (s, tx) => Joins(s, tx, x), (s, tx) => Leaves(s, tx, x))
  {
    forall m: nat | m < n
      ensures var s := After(FRESH, txs, m);
        IsSigner(Step(s, txs[m]), x) <==> Joins(s, txs[m], x) || (IsSigner(s, x) && !Leaves(s, txs[m], x))
    {
      ReachableInv(txs, m);
      MembershipStep(After(FRESH, txs, m), txs[m], x);
    }
    hide IsSigner, Joins, Leaves, Step;
    Runs.HoldsSince(Step, FRESH, txs, n, s => IsSigner(s, x), (s, tx) => Joins(s, tx, x), (s, tx) => Leaves(s, tx, x));
  }

  /** The threshold is the one last set up or updated. */
  lemma ThresholdHistory(txs: seq<Tx>, n: nat, t: u32)
    requires n <= |txs|
    ensures After(FRESH, txs, n).threshold == Some(t) <==>
      Runs.Since(Step, FRESH, txs, n, (s, tx) => SetsThreshold(s, tx, t), (s, tx) => MovesThreshold(s, tx))
  {
    forall m: nat | m < n
      ensures var s := After(FRESH, txs, m);
        Step(s, txs[m]).threshold == Some(t) <==>
          SetsThreshold(s, txs[m], t) || (s.threshold == Some(t) && !MovesThreshold(s, txs[m]))
    {
      ConfigurationMovesIn(After(FRESH, txs, m), txs[m]);
      hide Step, Run;
    }
    hide SetsThreshold, MovesThreshold, Step;
    Runs.HoldsSince(Step, FRESH, txs, n, (s: Storage) => s.threshold == Some(t),
                    (s, tx) => SetsThreshold(s, tx, t), (s, tx) => MovesThreshold(s, tx));
  }

  /** The account is paused exactly when it was paused and has not been resumed since. */
  lemma PauseHistory(txs: seq<Tx>, n: nat)
    requires n <= |txs|
    ensures After(FRESH, txs, n).paused <==>
      Runs.Since(Step, FRESH, txs, n, (s, tx) => Pauses(s, tx), (s, tx) => Resumes(s, tx))
  {
    forall m: nat | m < n
      ensures var s := After(FRESH, txs, m);
        Step(s, txs[m]).paused <==> Pauses(s, txs[m]) || (s.paused && !Resumes(s, txs[m]))
    {
      ConfigurationMovesIn(After(FRESH, txs, m), txs[m]);
      hide Step, Run;
    }
    hide Pauses, Resumes, Step;
    Runs.HoldsSince(Step, FRESH, txs, n, (s: Storage) => s.paused, (s, tx) => Pauses(s, tx), (s, tx) => Resumes(s, tx));
  }

  lemma PausedStep(s: Storage, tx: Tx)
    requires s.paused && !Resumes(s, tx)
    requires s.signers.Some? ==> s.threshold.Some?
    ensures var t := Step(s, tx);
      && t.paused
      && (s.signers.Some? ==> t.signers == s.signers && t.threshold == s.threshold)
      && (forall id :: !Creates(s, tx, id))
      && (forall id, c :: !Approves(s, tx, id, c))
      && (forall id :: id in t.proposals ==> id in s.proposals && t.proposals[id] == s.proposals[id])
  {
    hide RequireSelf, CheckAuth, CountIn;
  }

  /** A pause holds until the account resumes: from a paused state that has been set up, as long as no call resumes it,
      signers and threshold stay, no proposal is created or approved, and a live one can only be executed. */
  lemma {:induction false} PauseFreezes(txs: seq<Tx>, i: nat, n: nat)
    requires i <= n <= |txs| && After(FRESH, txs, i).paused
    requires forall k: nat :: i <= k < n ==> !Resumes(After(FRESH, txs, k), txs[k])
    ensures var s, t := After(FRESH, txs, i), After(FRESH, txs, n);
      && t.paused && s.signers.Some? && t.signers == s.signers && t.threshold == s.threshold
      && (forall id :: id in t.proposals ==> id in s.proposals && t.proposals[id] == s.proposals[id])
    ensures forall k: nat, id :: i <= k < n ==> !Created(txs, k, id)
    ensures forall k: nat, id, c :: i <= k < n ==> !Approved(txs, k, id, c)
    decreases n
  {
    hide Run, Step, Creates, Approves, Runs.After;
    ReachableInv(txs, i);
    PausedIsSetUp(txs, i);
    if i < n {
      var m := n - 1;
      PauseFreezes(txs, i, m);
      ReachableInv(txs, m);
      PausedStep(After(FRESH, txs, m), txs[m]);
      Runs.AfterNext(Step, FRESH, txs, m);
    }
  }

  /** Only a quorum can pause, so a paused account has been set up. */
  lemma {:induction false} PausedIsSetUp(txs: seq<Tx>, n: nat)
    requires n <= |txs|
    ensures After(FRESH, txs, n).paused ==> After(FRESH, txs, n).signers.Some?
  {
    if n > 0 {
      PausedIsSetUp(txs, n - 1);
      PausedNeedsSetUp(After(FRESH, txs, n - 1), txs[n - 1]);
      hide Step;
    }
  }

  lemma PausedNeedsSetUp(s: Storage, tx: Tx)
    requires s.paused ==> s.signers.Some?
    ensures Step(s, tx).paused ==> Step(s, tx).signers.Some?
  {
    hide CountIn, RemoveFirst, Distinct;
  }
}
