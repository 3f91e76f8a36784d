/** Quorum authorisation and the life of proposals, over every run of the standalone multisig. */
module MultisigRuns {
  import opened Host
  import opened Lists
  import opened MultisigAdmin

  // ---- The account -----------------------------------------------------------------------------------------

  ghost predicate Configured(s: Storage) {
    && s.signers.Some? && s.threshold.Some?
    && Distinct(s.signers.value) && 1 <= s.threshold.value <= |s.signers.value|
  }

  ghost predicate Inv(s: Storage) {
    && (s.signers.None? <==> s.threshold.None?)
    && (s.signers.Some? ==> Configured(s))
    && (forall id: u64 :: id in s.proposals ==>
          s.signers.Some? && id < NextId(s) && Distinct(s.proposals[id].approvals))
  }

  /** `signatures` are distinct, all authorise, and at least the threshold of them are signers. */
  ghost predicate IsQuorum(s: Storage, auth: set<Address>, signatures: seq<Address>) {
    && s.signers.Some? && s.threshold.Some?
    && Distinct(signatures)
    && (forall a :: a in signatures ==> a in auth)
    && |Members(signatures) * Members(s.signers.value)| >= s.threshold.value
  }

  lemma CheckAuthAcceptsExactlyQuorums(s: Storage, auth: set<Address>, signatures: seq<Address>)
    ensures CheckAuth(s, auth, signatures).Ok? <==> IsQuorum(s, auth, signatures)
  {
    if Distinct(signatures) && s.signers.Some? {
      CountInIsCard(signatures, s.signers.value);
    }
    assert (Members(signatures) <= auth) <==> forall a :: a in signatures ==> a in auth;
  }

  lemma ConfigurationStaysSound(s: Storage, tx: Tx)
    requires Inv(s)
    ensures var t := Step(s, tx);
      (t.signers.None? <==> t.threshold.None?) && (t.signers.Some? ==> Configured(t)) && (s.signers.Some? ==> t.signers.Some?)
  {
    if tx.call.RemoveSigner? && s.signers.Some? && tx.call.signer in s.signers.value {
      RemoveFirstMembers(s.signers.value, tx.call.signer);
    }
    hide CheckAuth, CountIn, RemoveFirst;
  }

  lemma ProposalsStaySound(s: Storage, tx: Tx, id: u64)
    requires Inv(s) && id in Step(s, tx).proposals
    ensures id < NextId(Step(s, tx)) && Distinct(Step(s, tx).proposals[id].approvals)
    ensures s.signers.Some?
  {
    hide Run, Step;
    if tx.call.Approve? {
      ApprovalKeepsProposals(s, tx);
    } else if tx.call.Propose? {
      CreationKeepsProposals(s, tx);
    } else {
      OtherCallsOnlyDrop(s, tx);
    }
  }

  lemma ApprovalKeepsProposals(s: Storage, tx: Tx)
    requires Inv(s) && tx.call.Approve?
    ensures var t := Step(s, tx);
      && t.proposals.Keys == s.proposals.Keys && t.nextProposalId == s.nextProposalId
      && forall id :: id in t.proposals ==> Distinct(t.proposals[id].approvals)
  {
  }

  lemma CreationKeepsProposals(s: Storage, tx: Tx)
    requires tx.call.Propose?
    ensures var t := Step(s, tx);
      || t == s
      || (s.signers.Some? && NextId(t) == NextId(s) + 1
          && exists p: Proposal :: p.approvals == [] && t.proposals == s.proposals[NextId(s) := p])
  {
    if Step(s, tx) != s {
      assert Step(s, tx).proposals == s.proposals[NextId(s) := Proposal(tx.call.payload, tx.call.expiry, [])];
    }
  }

  lemma OtherCallsOnlyDrop(s: Storage, tx: Tx)
    requires !tx.call.Propose? && !tx.call.Approve?
    ensures var t := Step(s, tx);
      && t.nextProposalId == s.nextProposalId
      && forall id :: id in t.proposals ==> id in s.proposals && t.proposals[id] == s.proposals[id]
  {
    hide CheckAuth, CountIn, RemoveFirst, RequireSelf, RequireUnpaused, Distinct;
  }

  lemma StepKeepsInv(s: Storage, tx: Tx)
    requires Inv(s)
    ensures Inv(Step(s, tx))
  {
    ConfigurationStaysSound(s, tx);
    forall id: u64 | id in Step(s, tx).proposals
      ensures s.signers.Some? && id < NextId(Step(s, tx)) && Distinct(Step(s, tx).proposals[id].approvals)
    {
      ProposalsStaySound(s, tx, id);
    }
    hide Step, Distinct;
  }

  lemma {:induction false} ReachableInv(txs: seq<Tx>, n: nat)
    requires n <= |txs|
    ensures Inv(After(FRESH, txs, n))
  {
    if n > 0 {
      ReachableInv(txs, n - 1);
      StepKeepsInv(After(FRESH, txs, n - 1), txs[n - 1]);
    }
  }

  /** No lockout: once initialised, in every reachable state the full signer list authorises the account. */
  lemma FullListAlwaysPasses(txs: seq<Tx>, n: nat, auth: set<Address>)
    requires n <= |txs| && After(FRESH, txs, n).signers.Some?
    requires Members(After(FRESH, txs, n).signers.value) <= auth
    ensures CheckAuth(After(FRESH, txs, n), auth, After(FRESH, txs, n).signers.value) == Ok(())
  {
    ReachableInv(txs, n);
    CountInAll(After(FRESH, txs, n).signers.value, After(FRESH, txs, n).signers.value);
  }

  predicate ConfigurationMoves(s: Storage, t: Storage) {
    s.signers != t.signers || s.threshold != t.threshold || s.paused != t.paused || s.installed != t.installed
  }

  /** Every step that changes signers, threshold, the pause flag or the code is the one-time set-up, which finds
      nothing configured, or carries a quorum of the configuration it changes. */
  lemma ConfigurationMovesByQuorum(txs: seq<Tx>, n: nat)
    requires n < |txs|
    requires ConfigurationMoves(After(FRESH, txs, n), After(FRESH, txs, n + 1))
    ensures
      if txs[n].call.Initialize? then After(FRESH, txs, n).signers.None? && After(FRESH, txs, n).threshold.None?
      else txs[n].signatures.Some? && IsQuorum(After(FRESH, txs, n), txs[n].auth, txs[n].signatures.value)
  {
    ReachableInv(txs, n);
    ConfigurationStep(After(FRESH, txs, n), txs[n]);
    if txs[n].signatures.Some? {
      CheckAuthAcceptsExactlyQuorums(After(FRESH, txs, n), txs[n].auth, txs[n].signatures.value);
    }
  }

  lemma ConfigurationStep(s: Storage, tx: Tx)
    requires Inv(s)
    requires ConfigurationMoves(s, Step(s, tx))
    ensures
      if tx.call.Initialize? then s.signers.None? && s.threshold.None?
      else tx.signatures.Some? && CheckAuth(s, tx.auth, tx.signatures.value).Ok?
  {
    hide CountIn, RemoveFirst;
  }

  // ---- Proposals -------------------------------------------------------------------------------------------

  ghost predicate Creates(s: Storage, tx: Tx, id: u64) {
    tx.call.Propose? && Run(s, tx).Ok? && Run(s, tx).value.value == ProposalId(id)
  }

  ghost predicate Approves(s: Storage, tx: Tx, id: u64, c: Address) {
    tx.call == Approve(id, c) && Run(s, tx).Ok?
  }

  ghost predicate Executes(s: Storage, tx: Tx, id: u64) {
    tx.call == Execute(id) && Run(s, tx).Ok?
  }

  ghost predicate Created(txs: seq<Tx>, i: nat, id: u64) {
    i < |txs| && Creates(After(FRESH, txs, i), txs[i], id)
  }

  ghost predicate Approved(txs: seq<Tx>, i: nat, id: u64, c: Address) {
    i < |txs| && Approves(After(FRESH, txs, i), txs[i], id, c)
  }

  ghost predicate Executed(txs: seq<Tx>, i: nat, id: u64) {
    i < |txs| && Executes(After(FRESH, txs, i), txs[i], id)
  }

  lemma ProposalStep(s: Storage, tx: Tx, id: u64)
    requires Inv(s)
    ensures var t := Step(s, tx);
      && NextId(s) <= NextId(t)
      && (Creates(s, tx, id) ==> id == NextId(s) && NextId(t) == id + 1 && !Executes(s, tx, id))
      && (id < NextId(t) <==> id < NextId(s) || Creates(s, tx, id))
      && (id in t.proposals <==> (id in s.proposals && !Executes(s, tx, id)) || Creates(s, tx, id))
      && (Creates(s, tx, id) ==> t.proposals[id] == Proposal(tx.call.payload, tx.call.expiry, []))
      && (id in t.proposals && !Creates(s, tx, id) ==>
            && t.proposals[id].payload == s.proposals[id].payload && t.proposals[id].expiry == s.proposals[id].expiry
            && forall c :: c in t.proposals[id].approvals <==> c in s.proposals[id].approvals || Approves(s, tx, id, c))
      && (Executes(s, tx, id) ==> id in s.proposals)
      && (forall c :: Approves(s, tx, id, c) ==> id in s.proposals)
  {
    if tx.call.Propose? || tx.call.Approve? || tx.call.Execute? {
      hide CheckAuth, CountIn, RequireSelf, Distinct, Setup, SetPaused, InstallCode, GovernSigners;
    } else {
      OtherCallsKeepProposals(s, tx);
      hide Run, Step;
    }
  }

  lemma OtherCallsKeepProposals(s: Storage, tx: Tx)
    requires !tx.call.Propose? && !tx.call.Approve? && !tx.call.Execute?
    ensures Step(s, tx).proposals == s.proposals && NextId(Step(s, tx)) == NextId(s)
  {
    hide CheckAuth, CountIn, RemoveFirst, RequireSelf, RequireUnpaused, Distinct;
  }

  lemma ApprovesNeeds(s: Storage, tx: Tx, id: u64, c: Address)
    requires Approves(s, tx, id, c)
    ensures id in s.proposals && c in tx.auth && s.signers.Some? && c in s.signers.value
  {
  }

  ghost predicate EverCreated(txs: seq<Tx>, n: nat, id: u64) {
    exists i: nat :: i < n && Created(txs, i, id)
  }

  ghost predicate EverApproved(txs: seq<Tx>, n: nat, id: u64, c: Address) {
    exists i: nat :: i < n && Approved(txs, i, id, c)
  }

  ghost predicate EverExecuted(txs: seq<Tx>, n: nat, id: u64) {
    exists i: nat :: i < n && Executed(txs, i, id)
  }

  lemma EverStep(txs: seq<Tx>, m: nat, n: nat, id: u64)
    requires m < |txs| && n == m + 1
    ensures EverCreated(txs, n, id) <==> EverCreated(txs, m, id) || Creates(After(FRESH, txs, m), txs[m], id)
    ensures EverExecuted(txs, n, id) <==> EverExecuted(txs, m, id) || Executes(After(FRESH, txs, m), txs[m], id)
    ensures forall c ::
      EverApproved(txs, n, id, c) <==> EverApproved(txs, m, id, c) || Approves(After(FRESH, txs, m), txs[m], id, c)
  {
    hide Creates, Approves, Executes, After;
    assert Created(txs, m, id) <==> Creates(After(FRESH, txs, m), txs[m], id);
    assert Executed(txs, m, id) <==> Executes(After(FRESH, txs, m), txs[m], id);
    forall c
      ensures EverApproved(txs, n, id, c) <==> EverApproved(txs, m, id, c) || Approves(After(FRESH, txs, m), txs[m], id, c)
    {
      assert Approved(txs, m, id, c) <==> Approves(After(FRESH, txs, m), txs[m], id, c);
    }
  }

  /** `p` is the proposal that the call creating `id` described. */
  ghost predicate CreatedAs(txs: seq<Tx>, n: nat, id: u64, p: Proposal) {
    exists i: nat :: i < n && Created(txs, i, id)
      && p.payload == txs[i].call.payload && p.expiry == txs[i].call.expiry
  }

  /** The stored proposals, read off the run: `id` is live exactly when some call created it and none executed
      it; it carries the payload and expiry of that call, and as approvals exactly the callers of successful
      approvals of `id`. Identifiers below the counter are exactly those ever handed out. */
  lemma {:induction false} ProposalHistory(txs: seq<Tx>, n: nat, id: u64)
    requires n <= |txs|
    ensures var s := After(FRESH, txs, n);
      && (id < NextId(s) <==> EverCreated(txs, n, id))
      && (id in s.proposals <==> EverCreated(txs, n, id) && !EverExecuted(txs, n, id))
      && (id in s.proposals ==>
            && CreatedAs(txs, n, id, s.proposals[id])
            && forall c :: c in s.proposals[id].approvals <==> EverApproved(txs, n, id, c))
      && (!EverCreated(txs, n, id) ==> !EverExecuted(txs, n, id) && forall c :: !EverApproved(txs, n, id, c))
  {
    if n > 0 {
      hide Run, Step, Creates, Approves, Executes, EverCreated, EverApproved, EverExecuted, CreatedAs, Inv;
      var m := n - 1;
      ProposalHistory(txs, m, id);
      ReachableInv(txs, m);
      ProposalStep(After(FRESH, txs, m), txs[m], id);
      EverStep(txs, m, n, id);
      CreatedAsStep(txs, m, n, id);
    }
  }

  lemma CreatedAsStep(txs: seq<Tx>, m: nat, n: nat, id: u64)
    requires m < |txs| && n == m + 1
    ensures forall p :: CreatedAs(txs, m, id, p) ==> CreatedAs(txs, n, id, p)
    ensures Creates(After(FRESH, txs, m), txs[m], id) ==>
      CreatedAs(txs, n, id, Proposal(txs[m].call.payload, txs[m].call.expiry, []))
  {
    hide Run, After;
    if Creates(After(FRESH, txs, m), txs[m], id) {
      assert Created(txs, m, id);
    }
  }

  /** Identifiers are handed out in strictly increasing order, so none is ever reused. */
  lemma IdentifiersNeverReused(txs: seq<Tx>, i: nat, j: nat, first: u64, second: u64)
    requires i < j && Created(txs, i, first) && Created(txs, j, second)
    ensures first < second
  {
    ProposalHistory(txs, j, first);
    ReachableInv(txs, j);
    ProposalStep(After(FRESH, txs, j), txs[j], second);
    assert EverCreated(txs, j, first);
  }

  lemma ExecutesAtMostOnce(txs: seq<Tx>, i: nat, j: nat, id: u64)
    requires Executed(txs, i, id) && Executed(txs, j, id)
    ensures i == j
  {
    if i != j {
      var early, late := if i < j then i else j, if i < j then j else i;
      ProposalHistory(txs, late, id);
      ReachableInv(txs, late);
      ProposalStep(After(FRESH, txs, late), txs[late], id);
      assert EverExecuted(txs, late, id);
      assert false;
    }
  }

  ghost predicate ApprovedAsSigner(txs: seq<Tx>, k: nat, id: u64, c: Address) {
    && Approved(txs, k, id, c) && c in txs[k].auth
    && After(FRESH, txs, k).signers.Some? && c in After(FRESH, txs, k).signers.value
  }

  /** `q` are signers at `n`, enough of them, each having authorised an approval of `id` while a signer, before `n`. */
  ghost predicate ApprovalQuorum(txs: seq<Tx>, n: nat, id: u64, q: set<Address>) {
    && n < |txs|
    && var s := After(FRESH, txs, n);
    && s.signers.Some? && s.threshold.Some?
    && q <= Members(s.signers.value) && |q| >= s.threshold.value
    && forall c :: c in q ==> exists k: nat :: k < n && ApprovedAsSigner(txs, k, id, c)
  }

  /** A proposal executes only strictly before the expiry it was created with, and only on the approvals of a
      quorum of the signers of that moment. */
  lemma ExecutionIsJustified(txs: seq<Tx>, n: nat, id: u64)
    requires Executed(txs, n, id)
    ensures exists i: nat :: i < n && Created(txs, i, id) && txs[n].ledger < txs[i].call.expiry
    ensures exists q :: ApprovalQuorum(txs, n, id, q)
  {
    hide Creates, Approves;
    ReachableInv(txs, n);
    ProposalHistory(txs, n, id);
    var s := After(FRESH, txs, n);
    var approvals := s.proposals[id].approvals;
    assert CreatedAs(txs, n, id, s.proposals[id]);
    CountInIsCard(approvals, s.signers.value);
    var q := Members(approvals) * Members(s.signers.value);
    forall c | c in q
      ensures exists k: nat :: k < n && ApprovedAsSigner(txs, k, id, c)
    {
      assert EverApproved(txs, n, id, c);
      var k: nat :| k < n && Approved(txs, k, id, c);
      ApprovesNeeds(After(FRESH, txs, k), txs[k], id, c);
      assert ApprovedAsSigner(txs, k, id, c);
    }
    assert ApprovalQuorum(txs, n, id, q);
  }

  /** Whether executing `id` in `ledger` would succeed now. */
  ghost predicate Executable(s: Storage, ledger: u32, id: u64) {
    ExecuteProposal(s, ledger, id).Ok?
  }

  lemma ApprovalStep(s: Storage, tx: Tx, id: u64, c: Address)
    requires Approves(s, tx, id, c)
    ensures var t := Step(s, tx);
      && id in t.proposals && t.signers.Some? && t.threshold.Some?
      && Run(s, tx).value.value == Ready(|t.proposals[id].approvals| >= t.threshold.value)
      && (Executable(t, tx.ledger, id) <==> CountIn(t.proposals[id].approvals, t.signers.value) >= t.threshold.value)
  {
    hide CountIn;
  }

  /** The answer of a successful `approve` against executability in the same ledger. With `approvers` the addresses
      that ever approved `id`, the answer is that there are enough of them, and the proposal is executable when
      enough of them are still signers; so an executable proposal is always announced, and every announcement is
      right while no approver has left. */
  lemma ApproveAnnouncesExecutability(txs: seq<Tx>, n: nat, id: u64, c: Address) returns (approvers: set<Address>)
    requires Approved(txs, n, id, c)
    ensures forall a :: a in approvers <==> EverApproved(txs, n + 1, id, a)
    ensures var s, answer := After(FRESH, txs, n + 1), Run(After(FRESH, txs, n), txs[n]).value.value;
      && s.signers.Some? && s.threshold.Some?
      && answer == Ready(|approvers| >= s.threshold.value)
      && (Executable(s, txs[n].ledger, id) <==> |approvers * Members(s.signers.value)| >= s.threshold.value)
      && (Executable(s, txs[n].ledger, id) ==> answer.ready)
      && ((answer.ready <==> Executable(s, txs[n].ledger, id)) <==>
            |approvers| < s.threshold.value || |approvers * Members(s.signers.value)| >= s.threshold.value)
      && (approvers <= Members(s.signers.value) ==> (answer.ready <==> Executable(s, txs[n].ledger, id)))
  {
    hide Run, Creates, Approves, Executes, CountIn;
    ReachableInv(txs, n + 1);
    ProposalHistory(txs, n + 1, id);
    ApprovalStep(After(FRESH, txs, n), txs[n], id, c);
    var s := After(FRESH, txs, n + 1);
    var approvals := s.proposals[id].approvals;
    approvers := Members(approvals);
    DistinctCard(approvals);
    CountInIsCard(approvals, s.signers.value);
    if approvers <= Members(s.signers.value) {
      assert approvers * Members(s.signers.value) == approvers;
    }
  }

  const A := Address(0)
  const B := Address(1)
  const C := Address(2)

  /** A run in which `A` approves, is removed, and `B` approves. */
  const STALE_RUN := [
    Tx(1, {}, None, Initialize([A, B, C], 2)),
    Tx(1, {}, None, Propose([], 9)),
    Tx(1, {A}, None, Approve(0, A)),
    Tx(1, {B, C}, Some([B, C]), RemoveSigner(A)),
    Tx(1, {B}, None, Approve(0, B))]

  /** The storage with the given signers once proposal 0 has the given approvals. */
  function StaleState(signers: seq<Address>, approvals: seq<Address>): Storage {
    Storage(Some(signers), Some(2), map[0 := Proposal([], 9, approvals)], Some(1), false, None)
  }

  lemma StaleSetUp()
    ensures Step(Step(FRESH, STALE_RUN[0]), STALE_RUN[1]) == StaleState([A, B, C], [])
  {
    assert Step(FRESH, STALE_RUN[0]) == Storage(Some([A, B, C]), Some(2), map[], None, false, None);
  }

  lemma StaleApproval()
    ensures Step(StaleState([A, B, C], []), STALE_RUN[2]) == StaleState([A, B, C], [A])
  {
    assert [] + [A] == [A];
    assert StaleState([A, B, C], []).proposals[0 := Proposal([], 9, [A])] == map[0 := Proposal([], 9, [A])];
  }

  lemma StaleRemoval()
    ensures Step(StaleState([A, B, C], [A]), STALE_RUN[3]) == StaleState([B, C], [A])
  {
    CountInAll([B, C], [A, B, C]);
    assert RemoveFirst([A, B, C], A) == [B, C];
    hide CountIn, RemoveFirst;
  }

  lemma StaleAnnouncement()
    ensures Run(StaleState([B, C], [A]), STALE_RUN[4]) == Ok(Post(StaleState([B, C], [A, B]), Ready(true)))
  {
    assert [A] + [B] == [A, B];
    assert StaleState([B, C], [A]).proposals[0 := Proposal([], 9, [A, B])] == map[0 := Proposal([], 9, [A, B])];
  }

  /** The announcement can be wrong: with threshold 2, `approve` answers true on the approvals of a departed
      signer and of a current one, and execution in the same ledger is refused. */
  lemma AnnouncementCanBeStale()
    ensures Approved(STALE_RUN, 4, 0, B)
    ensures Run(After(FRESH, STALE_RUN, 4), STALE_RUN[4]).value.value == Ready(true)
    ensures ExecuteProposal(After(FRESH, STALE_RUN, 5), 1, 0) == Err(ThresholdNotMet)
  {
    StaleAnnouncement();
    assert After(FRESH, STALE_RUN, 4) == StaleState([B, C], [A]) && After(FRESH, STALE_RUN, 5) == StaleState([B, C], [A, B]) by {
      StaleRunStates();
    }
    assert [A, B][..1] == [A] && [A][..0] == [];
    assert CountIn([A], [B, C]) == 0;
  }

  lemma StaleRunStates()
    ensures After(FRESH, STALE_RUN, 4) == StaleState([B, C], [A])
    ensures After(FRESH, STALE_RUN, 5) == StaleState([B, C], [A, B])
  {
    StaleSetUp();
    StaleApproval();
    StaleRemoval();
    StaleAnnouncement();
    hide Run;
    assert After(FRESH, STALE_RUN, 0) == FRESH;
    assert After(FRESH, STALE_RUN, 1) == Step(FRESH, STALE_RUN[0]);
    assert After(FRESH, STALE_RUN, 2) == StaleState([A, B, C], []);
    assert After(FRESH, STALE_RUN, 3) == StaleState([A, B, C], [A]);
    assert After(FRESH, STALE_RUN, 4) == StaleState([B, C], [A]);
  }
}
