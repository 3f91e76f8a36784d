# Verified model of the compliance primitives

A Dafny model of the Soroban contracts `denylist-gate`, `multisig-admin`, `policy-engine`, `compliance-aggregator`,
`jurisdiction-flag`, `audit-log`, the denylist-gated token example and the delegated message of `allowlist-token`,
with proofs about runs of their calls. `dafny verify dfyconfig.toml` checks the whole project.

Each contract is a class whose fields are its storage keys. Its methods write storage in the program's order; `Invoke`
is the host's transaction, which undoes the writes of a call that returns an error or traps. Every method is proved
against a specification function on values (`Run`, `Step`), and the properties below are proved about that function over
all sequences of transactions (`After`). Several read a part of the state off the run: `Runs.Since` says that some step
brought it about and no later one ended it.

Conventions:

- `x.require_auth()` is membership of `x` in the transaction's set of authorising addresses, and a trap otherwise. For
  `multisig-admin`'s own address it is its `__check_auth` on the signatures attached to the transaction.
- Ledger numbers and thresholds are 32-bit, proposal identifiers, log indices, nonces and expiries 64-bit, and token
  amounts 128-bit signed; arithmetic that leaves its range traps, except where the program saturates.
- Answers of other contracts (`check`, `is_permitted_jurisdiction`, `is_allowed`, `is_frozen`) are an oracle, fixed for
  one transaction, that may answer yes or no, return an error, or trap. A plain client call turns the last two into a trap.
- `extend_ttl` renews an entry when its remaining life is strictly below the threshold, as the repository's comments put
  it. What the host does when the remaining life equals the threshold is an assumption here.
- `hide` statements only shorten the prover's view of a definition; they assume nothing.

| file | content |
|---|---|
| `Host.dfy`, `Lists.dfy`, `Oracles.dfy`, `Runs.dfy` | addresses, machine integers, call outcomes; vectors as sets; answers of other contracts; runs of a step function |
| `DenylistGate.dfy`, `Governance.dfy`, `SignerHistory.dfy` | the gate's administration; M-of-N governance over runs; the signer set read off the run |
| `AdminHandover.dfy`, `UpgradeTimelock.dfy` | the gate's admin and its delayed upgrade over runs |
| `MultisigAdmin.dfy`, `MultisigRuns.dfy`, `MultisigRules.dfy`, `MultisigReach.dfy` | the standalone multisig; quorums and the life of proposals over runs; signers, pause and answers; reaching any configuration |
| `PolicyEngine.dfy`, `PolicyMeaning.dfy`, `PolicyStore.dfy` | the short-circuiting evaluation; its declarative meaning; the stored policy over runs |
| `ComplianceAggregator.dfy`, `Siblings.dfy` | the three aggregator forms; agreement with the policy engine |
| `JurisdictionFlag.dfy`, `JurisdictionModel.dfy`, `JurisdictionRules.dfy` | the three storage keys; refinement of one map; roles, answers and each address over runs |
| `DelegatedMessage.dfy` | printing and parsing the delegated message |
| `GatedToken.dfy`, `TokenLedger.dfy`, `TokenAuthority.dfy` | the gated token; supply and allowances over runs; on whose authority they move |
| `AuditLog.dfy`, `AuditTrail.dfy`, `InstanceTtl.dfy` | the append-only log and paging; who stands behind each entry; the time-to-live rule |

Where the code disagrees with its documentation, or with what a reader would expect, the model follows the code:

- `approve` of `multisig-admin` is documented to answer whether the proposal "has enough approvals to execute"; it counts
  departed signers, which `execute` does not (`AnnouncementCanBeStale`).
- The comment that a write every ~83 days keeps the aggregator alive, and the one that a write every month keeps
  `multisig-admin` alive, do not follow from the extension rule (`DocumentedGapsAreNotGuaranteed`).
- `batch_check` is documented as evaluating the configured policy; it never consults the circuit breaker, so it agrees
  with `check_all` only under an exact condition on the replies (`BatchAgreesExactlyWhen`).
- A token transfer to oneself raises the sum of balances (`SelfTransferBreaksConservation`), and a negative amount, which
  no entry point refuses, lowers the recipient's balance (`FallsAreEntitledExactlyUnless`), creates supply when burned
  (`SupplyGrowsExactlyWhen`) and raises the drawing spender's own allowance (`AllowanceWithinApprovalExactlyWhen`).
- `policy-engine` guards three edits by a pause flag that no entry point sets; the flag is modelled, and false in every
  reachable state (`ReachableListBounded`).

## Model

| member | source | states |
|---|---|---|
| `DenylistGate.Contract.Invoke` | contracts/policy-engine/src/lib.rs:59-63 | The transaction around the administration, governance and upgrade calls: the call does what its entry point specifies, and one that returns an error or traps leaves storage and events as they were. |
| `DenylistGate.Contract.HandOverAdmin` | contracts/denylist-gate/src/lib.rs:291-440 | Initialisation, proposal, acceptance, cancellation and immediate transfer of the admin role, with each refusal. |
| `DenylistGate.Contract.InitializeMultisig` | contracts/denylist-gate/src/lib.rs:647-681 | Installs a signer set once; refuses an empty list, a threshold outside 1..length and any duplicate, in that order. |
| `DenylistGate.Contract.AddSigner` | contracts/denylist-gate/src/lib.rs:686-692 | Refuses outsiders as callers and members as targets, otherwise records an approval of the addition. |
| `DenylistGate.Contract.RemoveSigner` | contracts/denylist-gate/src/lib.rs:698-714 | Refuses non-members, the last signer and sets already at their threshold, otherwise records an approval of the removal. |
| `DenylistGate.Contract.ChangeThreshold` | contracts/denylist-gate/src/lib.rs:721-724 | Records an approval of the new threshold, which is validated only when it would take effect. |
| `DenylistGate.Contract.RecordApproval` | contracts/denylist-gate/src/lib.rs:760-822 | Adds the caller once, counts approvers still in the set, and either stores the approvals or clears them and applies the action, with the events of both cases. |
| `DenylistGate.CountValid` | contracts/denylist-gate/src/lib.rs:777-783 | The loop counts exactly the approvals held by current signers. |
| `DenylistGate.Remaining` | contracts/denylist-gate/src/lib.rs:797-803 | The loop keeps every signer but the removed one, in order. |
| `Governance.ReachableInv` | contracts/denylist-gate/src/lib.rs:647-724 | In every run the signer set is duplicate-free with 1 <= threshold <= size, an addition is pending only for an outsider and a removal only for a member. |
| `Governance.NeverBothPending` | contracts/denylist-gate/src/lib.rs:686-714 | Addition and removal of one address are never pending together. |
| `Governance.EffectsIff` | contracts/denylist-gate/src/lib.rs:789-820 | The event of an action taking effect appears exactly in a successful call for that very action that completes its quorum. |
| `Governance.StepWithEffect` | contracts/denylist-gate/src/lib.rs:784-820 | When an action takes effect the count had reached the threshold, a new threshold is within range, the set becomes the applied set and its approvals are cleared. |
| `Governance.StepWithoutEffect` | contracts/denylist-gate/src/lib.rs:766-787 | Otherwise the approvals of an action grow by the caller of a successful call for it and by nothing else. |
| `Governance.ApprovalHistory` | contracts/denylist-gate/src/lib.rs:745-822 | In every run the stored approvals of an action are, without repeats, exactly the callers whose calls for it succeeded since it last took effect. |
| `Governance.EveryChangeHadQuorum` | contracts/denylist-gate/src/lib.rs:777-821 | Every applied change was valid for the set it met and had at least threshold distinct current signers, each with an authorised call for it still standing. |
| `Governance.SignerSetMovesOnlyByActions` | contracts/denylist-gate/src/lib.rs:647-822 | After the one-time installation the signer set moves only when an action takes effect. |
| `Governance.BoundedProgress` | contracts/denylist-gate/src/lib.rs:766-788 | From any state satisfying the invariant, threshold distinct current signers calling for a valid action, with nothing in between, make it take effect at or before the last call, whatever approvals are stored. |
| `Governance.Drive` | contracts/denylist-gate/src/lib.rs:686-822 | Signers alone can make any single valid action take effect. |
| `Governance.SignersCanReach` | contracts/denylist-gate/src/lib.rs:686-822 | Lower the threshold, add, remove, raise: signers alone can reach any target set and any threshold it allows. |
| `Governance.GovernanceHasNoDeadEnd` | contracts/denylist-gate/src/lib.rs:686-724 | From every reachable state with a signer set, whatever is pending, some run of calls by then-current signers ends with exactly the target set and threshold. |
| `SignerHistory.ActionMovesTheSet` | contracts/denylist-gate/src/lib.rs:789-820 | In every run an addition that takes effect appends that signer, a removal takes out that signer alone with the others in order, both keep the threshold; a new threshold keeps the signers; nothing else in storage moves. |
| `SignerHistory.MembershipHistory` | contracts/denylist-gate/src/lib.rs:647-822 | An address is a signer exactly when it was installed or added and has not been removed since. |
| `SignerHistory.ThresholdHistory` | contracts/denylist-gate/src/lib.rs:647-822 | The threshold is the one last installed or set. |
| `SignerHistory.SignerCallAnswers` | contracts/denylist-gate/src/lib.rs:686-788 | Every answer to a signer's call in terms of the run; an accepted call takes effect exactly when threshold of the callers whose calls for the action stand, the caller included, are in the set. |
| `SignerHistory.SignerCallPublishes` | contracts/denylist-gate/src/lib.rs:767-820 | The events of an accepted signer's call: the approval, and on taking effect the signer added or removed, or the old threshold and the new. |
| `SignerHistory.InstallationAnswers` | contracts/denylist-gate/src/lib.rs:647-681 | When the installation is refused, with which error, and the set it installs. |
| `AdminHandover.AdminHistory` | contracts/denylist-gate/src/lib.rs:291-440 | The admin is whoever the last accepted initialisation, acceptance or transfer named. |
| `AdminHandover.NominationHistory` | contracts/denylist-gate/src/lib.rs:356-440 | The pending admin is the last one proposed, until accepted, cancelled, replaced or overtaken by a transfer. |
| `AdminHandover.AdminGuardAnswers` | contracts/denylist-gate/src/lib.rs:824-836 | Calls for the admin trap exactly without that authorisation, and are refused exactly when there is no admin or another one. |
| `AdminHandover.HandoverAnswers` | contracts/denylist-gate/src/lib.rs:356-440 | What initialisation, proposal, acceptance, cancellation and transfer answer in every reachable state, and what they leave. |
| `AdminHandover.AdminChangesHands` | contracts/denylist-gate/src/lib.rs:368-440 | An admin is replaced only by a transfer it authorised, or by an acceptance that the new admin authorised of a proposal for it that still stood. |
| `DenylistGate.Contract.ProposeUpgrade` | contracts/denylist-gate/src/lib.rs:453-476 | Stores the code and the ledger from which it may be committed; refuses delays below 17,280 ledgers. |
| `DenylistGate.Contract.CommitUpgrade` | contracts/denylist-gate/src/lib.rs:482-501 | Refused without a matured proposal, otherwise installs its code and clears it. |
| `DenylistGate.Contract.CancelUpgrade` | contracts/denylist-gate/src/lib.rs:504-509 | Clears whatever is pending. |
| `UpgradeTimelock.NeverSaturates` | contracts/denylist-gate/src/lib.rs:465-466 | For 32-bit inputs the saturating addition is plain addition. |
| `UpgradeTimelock.PendingIsOutstanding` | contracts/denylist-gate/src/lib.rs:453-509 | Over every run, admin changes included, the pending upgrade is exactly the latest successful proposal not since committed, cancelled or replaced, with its full delay. |
| `UpgradeTimelock.CommitExactlyWhenMatured` | contracts/denylist-gate/src/lib.rs:482-501 | A commit succeeds exactly when the admin authorises it and an outstanding proposal is at least its delay old, the delay being at least the minimum; it installs that proposal's code. |
| `UpgradeTimelock.OnlyCommitInstalls` | contracts/denylist-gate/src/lib.rs:482-501 | The installed code changes in no other way. |
| `UpgradeTimelock.UpgradeAnswers` | contracts/denylist-gate/src/lib.rs:453-509 | With the admin's authority a proposal is accepted exactly with a delay of at least 17,280 ledgers, a commit exactly when something pending has matured, and a cancellation always. |
| `MultisigAdmin.Contract.Invoke` | contracts/multisig-admin/src/lib.rs:306-664 | One transaction of the standalone multisig, upgrades included; a failed call leaves no trace. |
| `MultisigAdmin.Contract.RunCheckAuth` | contracts/multisig-admin/src/lib.rs:702-753 | Duplicates are rejected first, each signature must authorise or the call traps, then members are counted against the threshold. |
| `MultisigAdmin.Contract.AuthoriseSelf` | contracts/multisig-admin/src/lib.rs:387-389 | A call needing the contract's own authorisation traps unless the check above accepts its signatures. |
| `MultisigAdmin.Contract.Initialize` | contracts/multisig-admin/src/lib.rs:306-338 | One-time set-up without duplicates and with the threshold in 1..length. |
| `MultisigAdmin.Contract.PauseOrResume` | contracts/multisig-admin/src/lib.rs:341-356 | Pausing and resuming both need the quorum. |
| `MultisigAdmin.Contract.AddSigner` | contracts/multisig-admin/src/lib.rs:386-409 | Appends a new signer under quorum while unpaused. |
| `MultisigAdmin.Contract.RemoveSigner` | contracts/multisig-admin/src/lib.rs:413-449 | Drops the first occurrence under quorum, refusing to go below the threshold. |
| `MultisigAdmin.Contract.UpdateThreshold` | contracts/multisig-admin/src/lib.rs:452-472 | Changes the threshold within 1..count under quorum. |
| `MultisigAdmin.Contract.Propose` | contracts/multisig-admin/src/lib.rs:509-546 | Stores a proposal under the next identifier; refuses past expiries, and traps when the counter would overflow. |
| `MultisigAdmin.Contract.Approve` | contracts/multisig-admin/src/lib.rs:551-606 | Records a signer's approval once and answers whether there are threshold approvals. |
| `MultisigAdmin.Contract.Execute` | contracts/multisig-admin/src/lib.rs:610-664 | Deletes a live, unexpired proposal with threshold approvals of current signers. |
| `MultisigAdmin.FindRepeat` | contracts/multisig-admin/src/lib.rs:722-729 | The nested loops find a repeated address exactly when there is one. |
| `MultisigAdmin.Find` | contracts/multisig-admin/src/lib.rs:428-436 | The loop finds the first index of an address, or that there is none. |
| `MultisigAdmin.CountSigners` | contracts/multisig-admin/src/lib.rs:638-647 | The nested loops count the approvals held by current signers. |
| `MultisigRuns.CheckAuthAcceptsExactlyQuorums` | contracts/multisig-admin/src/lib.rs:702-753 | `__check_auth` succeeds exactly when the signatures are distinct, all authorise, and at least threshold of them are signers. |
| `MultisigRuns.ReachableInv` | contracts/multisig-admin/src/lib.rs:306-472 | In every run signers are duplicate-free with 1 <= threshold <= count, and live proposals have identifiers below the counter and distinct approvals. |
| `MultisigRuns.FullListAlwaysPasses` | contracts/multisig-admin/src/lib.rs:315-331 | No lockout: in every reachable initialised state the full signer list authorises the account. |
| `MultisigRuns.ConfigurationMovesByQuorum` | contracts/multisig-admin/src/lib.rs:341-472 | Every step that changes signers, threshold, the pause flag or the installed code is the first set-up or carries a quorum of the configuration before the step. |
| `MultisigRuns.ProposalHistory` | contracts/multisig-admin/src/lib.rs:509-664 | Over every run a proposal is live exactly when it was created and never executed, carries what its creation said, and its approvals are exactly the callers of successful approvals. |
| `MultisigRuns.IdentifiersNeverReused` | contracts/multisig-admin/src/lib.rs:520-542 | Identifiers are handed out in strictly increasing order. |
| `MultisigRuns.ExecutesAtMostOnce` | contracts/multisig-admin/src/lib.rs:653-655 | No identifier is executed twice in a run. |
| `MultisigRuns.ExecutionIsJustified` | contracts/multisig-admin/src/lib.rs:608-656 | Execution happens strictly before the expiry given at creation and on threshold distinct current signers, each of whom authorised an approval while a signer. |
| `MultisigRuns.ApproveAnnouncesExecutability` | contracts/multisig-admin/src/lib.rs:593-606 | The answer of `approve` counts all approvers, executability counts those still signers; the two agree exactly when there are fewer approvers than the threshold or threshold of them are still signers, so an executable proposal is always announced. |
| `MultisigRuns.AnnouncementCanBeStale` | contracts/multisig-admin/src/lib.rs:629-651 | A concrete run in which `approve` answers true and execution in the same ledger is refused because an approver was removed. |
| `MultisigReach.QuorumsCanReach` | contracts/multisig-admin/src/lib.rs:341-472 | Resume, lower the threshold, add, remove, raise: from any sound configuration, calls that each carry the bare quorum of the signers they find reach any target, proposals and code untouched. |
| `MultisigReach.AccountCanBecomeExactlyAdmissible` | contracts/multisig-admin/src/lib.rs:386-472 | From every reachable state that has been set up, paused or not, such calls within one ledger can reach a signer set and threshold exactly when the threshold is between 1 and the size of the set. |
| `MultisigRules.CheckAuthAnswers` | contracts/multisig-admin/src/lib.rs:702-753 | Every answer of `__check_auth`: repeats first, then signatures that do not authorise, then too few members. |
| `MultisigRules.ProposalsAreNumbered` | contracts/multisig-admin/src/lib.rs:520-542 | In every run proposals are numbered from 0 without gaps. |
| `MultisigRules.ConfigurationAnswers` | contracts/multisig-admin/src/lib.rs:386-472 | In every reachable state the three configuration calls are refused while paused, trap without a quorum, and otherwise are refused exactly for a present or missing signer or an impossible threshold; an accepted one moves exactly the signer or threshold it names. |
| `MultisigRules.AccountAnswers` | contracts/multisig-admin/src/lib.rs:341-380 | Pausing, resuming and upgrading work while paused and need a quorum. |
| `MultisigRules.SetUpAnswers` | contracts/multisig-admin/src/lib.rs:306-338 | When the set-up is refused, with which error, and what it stores. |
| `MultisigRules.ProposalAnswers` | contracts/multisig-admin/src/lib.rs:509-664 | Every answer to `propose`, `approve` and `execute` in terms of the run: what was created, executed and approved before, and for the first two the pause, which does not stop an execution. |
| `MultisigRules.MembershipHistory` | contracts/multisig-admin/src/lib.rs:306-449 | An address is a signer exactly when it was in the set-up or was added, and has not been removed since. |
| `MultisigRules.ThresholdHistory` | contracts/multisig-admin/src/lib.rs:306-472 | The threshold is the one last set up or updated. |
| `MultisigRules.PauseHistory` | contracts/multisig-admin/src/lib.rs:341-356 | The account is paused exactly when it was paused and has not been resumed since. |
| `MultisigRules.PauseFreezes` | contracts/multisig-admin/src/lib.rs:386-606 | From a paused state until a call resumes the account, signers and threshold stay, no proposal is created or approved, and a live one can only be executed. |
| `PolicyEngine.Contract.Invoke` | contracts/policy-engine/src/lib.rs:59-63 | The transaction around set-up, the breaker setting and the four edits of the check list: the call does what its entry point specifies, and a failed one changes nothing. |
| `PolicyEngine.Contract.Initialize` | contracts/policy-engine/src/lib.rs:447-468 | One-time set-up with an empty check list and an optional breaker. |
| `PolicyEngine.Contract.AddCheck` | contracts/policy-engine/src/lib.rs:541-556 | Appends a check, up to 16. |
| `PolicyEngine.Contract.RemoveCheck` | contracts/policy-engine/src/lib.rs:560-575 | Removes the check at an index, the later ones moving down. |
| `PolicyEngine.Contract.SwapChecks` | contracts/policy-engine/src/lib.rs:587-607 | Exchanges two positions; equal indices are accepted without a look at the list. |
| `PolicyEngine.Contract.RunEvaluateInner` | contracts/policy-engine/src/lib.rs:700-775 | The short-circuiting loops compute the specified outcome, and every evaluation that returns publishes exactly one result. |
| `PolicyEngine.Contract.RunEvaluateVerbose` | contracts/policy-engine/src/lib.rs:681-698 | Evaluation with the failure detail; an error only before initialisation. |
| `PolicyEngine.Contract.RunEvaluate` | contracts/policy-engine/src/lib.rs:630-643 | The verdict without the detail, with an error exactly before initialisation and one published result when it returns. |
| `PolicyEngine.Contract.BatchEvaluate` | contracts/policy-engine/src/lib.rs:648-665 | Errs exactly before initialisation; otherwise returns exactly when every pair's own evaluation returns, with those verdicts in order and one published result per pair, and traps and publishes nothing when one does not. |
| `PolicyMeaning.ScanMeaning` | contracts/policy-engine/src/lib.rs:726-752 | The scan stops at the first position that settles the policy, everything before it having been decided the other way. |
| `PolicyMeaning.VerdictIsPolicy` | contracts/policy-engine/src/lib.rs:700-775 | Whenever an evaluation returns, it passes exactly when the breaker is absent or unfrozen and all (or some) checks pass for both parties. |
| `PolicyMeaning.ReturnsExactlyWhen` | contracts/policy-engine/src/lib.rs:700-775 | It returns exactly when the breaker answers and the checks are decided up to the one that settles the policy. |
| `PolicyMeaning.ReturnsWheneverNaiveDoes` | contracts/policy-engine/src/lib.rs:723-766 | It returns whenever asking every check about both parties would not trap. |
| `PolicyMeaning.FailureDetail` | contracts/policy-engine/src/lib.rs:667-680 | The detail is absent exactly on a pass, a freeze or an empty Any list; under All it names the least failing check and its kind, under Any the all-failed marker. |
| `PolicyMeaning.OrderAndDirectionDoNotMatter` | contracts/policy-engine/src/lib.rs:723-766 | For any permutation of the checks and for swapped parties, two evaluations that both return agree, even if some checks trap. |
| `PolicyMeaning.DetailIsSymmetric` | contracts/policy-engine/src/lib.rs:723-766 | When nothing traps, swapping the parties leaves the whole result, the failing index included, unchanged. |
| `PolicyMeaning.SwapPermutes` | contracts/policy-engine/src/lib.rs:601-604 | A swap permutes the list and undoes itself. |
| `PolicyMeaning.SwapRunKeepsVerdict` | contracts/policy-engine/src/lib.rs:577-607 | After any run of swaps, successful or refused, an evaluation cannot return another verdict. |
| `PolicyMeaning.RemoveUndoesAdd` | contracts/policy-engine/src/lib.rs:541-575 | Removing the check just added restores the policy. |
| `PolicyMeaning.ReachableListBounded` | contracts/policy-engine/src/lib.rs:328-332 | In every reachable state admin, operator and list are set together, the list has at most 16 checks, and the contract is not paused. |
| `PolicyMeaning.RunCheckMeaning` | contracts/policy-engine/src/lib.rs:854-881 | One check of each kind passes, fails or traps exactly as the contract behind it replies, the jurisdiction check failing on errors and the breaker check negated. |
| `PolicyStore.EvaluationMeansStoredPolicy` | contracts/policy-engine/src/lib.rs:681-698 | An evaluation errs exactly before initialisation; otherwise the stored operator, list and breaker decide when it returns, its verdict and its detail. |
| `PolicyStore.OneSetUpDecides` | contracts/policy-engine/src/lib.rs:447-468 | In every run at most one set-up is accepted, and admin and operator are what it said. |
| `PolicyStore.BreakerHistory` | contracts/policy-engine/src/lib.rs:447-480 | The breaker is the one last set. |
| `PolicyStore.EditsAnswer` | contracts/policy-engine/src/lib.rs:541-616 | Every answer of the administrative calls in reachable states, and exactly which positions an accepted edit of the list changes. |
| `PolicyStore.SetUpAnswers` | contracts/policy-engine/src/lib.rs:447-468 | When the set-up is refused, and that it starts from an empty list. |
| `ComplianceAggregator.Contract.CircuitBreakerResult` | contracts/compliance-aggregator/src/lib.rs:509-519 | No result without a breaker, a passing one while it is not frozen, and a trap when it does not answer. |
| `ComplianceAggregator.Contract.GateAndFlag` | contracts/compliance-aggregator/src/lib.rs:560-591 | The gate and flag results appended to the breaker's, with their conjunction. |
| `ComplianceAggregator.Contract.CheckAddress` | contracts/compliance-aggregator/src/lib.rs:541-598 | The specified verdict and breakdown of one address, with each error. |
| `ComplianceAggregator.Contract.CheckAll` | contracts/compliance-aggregator/src/lib.rs:613-686 | On non-empty lists it is `check_address` on every address in order, the first failure being the failure of the whole. |
| `ComplianceAggregator.Contract.BatchCheck` | contracts/compliance-aggregator/src/lib.rs:701-749 | Size and registration refusals, then the gate-before-flag verdict of every address in order. |
| `ComplianceAggregator.CheckAllIsPointwise` | contracts/compliance-aggregator/src/lib.rs:613-686 | `check_all` returns exactly when `check_address` returns for every address, with those results in order. |
| `ComplianceAggregator.AddressFailures` | contracts/compliance-aggregator/src/lib.rs:541-598 | `check_address` errs exactly when nothing is registered, and traps exactly when the breaker, or an unfrozen one's gate, does not answer. |
| `ComplianceAggregator.ListFailures` | contracts/compliance-aggregator/src/lib.rs:613-686 | On a non-empty list `check_all` errs exactly when nothing is registered. |
| `ComplianceAggregator.BreakdownIsComplete` | contracts/compliance-aggregator/src/lib.rs:541-598 | Every registered check is listed once in the order breaker, gate, flag; a frozen breaker is listed alone; the verdict is the conjunction. |
| `ComplianceAggregator.BatchIsProjection` | contracts/compliance-aggregator/src/lib.rs:701-749 | With the breaker absent or unfrozen and a gate or flag registered, the batch verdicts are those of `check_all`, traps included. |
| `ComplianceAggregator.BatchIsPointwise` | contracts/compliance-aggregator/src/lib.rs:701-749 | A batch traps exactly when the gate does not answer about some address; otherwise it returns one verdict per address in order, denying exactly those the gate rejects or the flag does not confirm. |
| `ComplianceAggregator.FrozenDeniesAll` | contracts/compliance-aggregator/src/lib.rs:613-650 | Under a frozen breaker `check_all` returns for every list and denies every address. |
| `ComplianceAggregator.UnansweredBreakerTraps` | contracts/compliance-aggregator/src/lib.rs:613-650 | Under a breaker that does not answer `check_all` traps on every list of at least one address. |
| `ComplianceAggregator.BatchAgreesExactlyWhen` | contracts/compliance-aggregator/src/lib.rs:701-749 | For every accepted batch with a gate or flag registered, `batch_check` and `check_all` agree, traps included, exactly when the breaker is absent or unfrozen, or it is frozen and for every address the gate denies or the flag does not confirm, or it does not answer and the gate's reply about some address traps the batch. |
| `Siblings.SiblingsAgree` | contracts/compliance-aggregator/src/lib.rs:613-686 | Whenever `check_all([from, to])` returns, the policy engine with the same checks under All and the same breaker returns, and passes exactly when both parties pass. |
| `Siblings.CheckAllReturnsExactlyWhen` | contracts/compliance-aggregator/src/lib.rs:613-686 | When the engine returns, `check_all([from, to])` returns exactly when the breaker is frozen or the gate, if there is one, answers about the recipient. |
| `Siblings.EngineMayReturnAlone` | contracts/policy-engine/src/lib.rs:726-738 | The converse of `SiblingsAgree` fails: a gate that denies the sender and does not answer about the recipient traps the aggregator and not the engine. |
| `JurisdictionFlag.Contract.Invoke` | contracts/jurisdiction-flag/src/lib.rs:192-553 | One transaction: the guards, then the entry point; a failed call changes nothing. |
| `JurisdictionFlag.Contract.ChangeRoles` | contracts/jurisdiction-flag/src/lib.rs:192-375 | Once its guard has passed, each set-up, handover, officer or pause call changes its role keys and nothing about codes. |
| `JurisdictionFlag.Contract.StoreJurisdictions` | contracts/jurisdiction-flag/src/lib.rs:780-795 | A non-empty list is written beside its head under the legacy key; an empty one removes list, legacy code and expiry. |
| `JurisdictionFlag.Contract.LoadJurisdictions` | contracts/jurisdiction-flag/src/lib.rs:763-778 | The list if there is one, else the legacy code alone, else nothing. |
| `JurisdictionFlag.Contract.SetJurisdiction` | contracts/jurisdiction-flag/src/lib.rs:384-407 | Replaces the codes by one valid code and clears the expiry. |
| `JurisdictionFlag.Contract.SetMultipleJurisdictions` | contracts/jurisdiction-flag/src/lib.rs:422-447 | Refuses bad sizes and any invalid code before writing, then replaces the codes of each entry in order. |
| `JurisdictionFlag.Contract.SetJurisdictionUntil` | contracts/jurisdiction-flag/src/lib.rs:455-478 | As above with an expiry not before the current ledger. |
| `JurisdictionFlag.Contract.AddJurisdiction` | contracts/jurisdiction-flag/src/lib.rs:487-508 | Appends an absent valid code up to eight; a present code is accepted without a write. |
| `JurisdictionFlag.Contract.RemoveJurisdiction` | contracts/jurisdiction-flag/src/lib.rs:511-529 | The loop keeps every other code in order. |
| `JurisdictionFlag.Contract.RemoveJurisdictionMultiple` | contracts/jurisdiction-flag/src/lib.rs:541-553 | Clears every listed address. |
| `JurisdictionFlag.Contract.ListJurisdictions` | contracts/jurisdiction-flag/src/lib.rs:534-536 | The stored codes, or none once the expiry has passed. |
| `JurisdictionFlag.Contract.GetJurisdiction` | contracts/jurisdiction-flag/src/lib.rs:573-575 | The first active code, if any. |
| `JurisdictionFlag.Contract.IsPermittedJurisdiction` | contracts/jurisdiction-flag/src/lib.rs:582-594 | An error on an empty allowed list, otherwise whether allowed and active codes intersect. |
| `JurisdictionModel.StoreKeepsInv` | contracts/jurisdiction-flag/src/lib.rs:780-795 | Writing a list keeps the storage invariant and changes the model in that one address. |
| `JurisdictionModel.EffectRefines` | contracts/jurisdiction-flag/src/lib.rs:384-553 | Every call does to the three keys what the model does to one map, with the same errors. |
| `JurisdictionModel.StorageRefinesModel` | contracts/jurisdiction-flag/src/lib.rs:384-553 | Over every run from a fresh or legacy-only store the invariant holds (list non-empty, distinct, at most eight, mirrored by its head; expiry only beside a list; codes valid or inherited) and the store abstracts to the model's run. |
| `JurisdictionModel.ViewsShowModel` | contracts/jurisdiction-flag/src/lib.rs:744-778 | In every reachable state the views show the model's codes, and none after the expiry. |
| `JurisdictionModel.CodesMoveByAuthority` | contracts/jurisdiction-flag/src/lib.rs:663-721 | The codes of an address move only for an authorised issuer or officer of an unpaused contract, and removals only for the issuer. |
| `JurisdictionModel.AddingDoesNotRenew` | contracts/jurisdiction-flag/src/lib.rs:452-454 | Adding a code to an expired address is accepted exactly under the guard, for a valid code that is present or has room; the code is then stored, and the expiry stays, so the views still show nothing. |
| `JurisdictionModel.BatchIsFoldOrNothing` | contracts/jurisdiction-flag/src/lib.rs:409-447 | A batch of 1 to 100 entries is accepted exactly when each would be accepted alone, then equals setting them one by one, and otherwise changes nothing. |
| `JurisdictionRules.RolesHistory` | contracts/jurisdiction-flag/src/lib.rs:192-375 | In every run issuer, pending issuer, officer and pause are each what the last accepted call about them said. |
| `JurisdictionRules.RoleCallAnswers` | contracts/jurisdiction-flag/src/lib.rs:192-375 | Every answer of the role calls in reachable states; only the pending address can accept, only the issuer make the others. |
| `JurisdictionRules.FlagCallAnswers` | contracts/jurisdiction-flag/src/lib.rs:384-553 | Every answer of the calls about codes: authority, with removals for the issuer only, then the pause, then code format, batch size, expiry and the bound of eight. |
| `JurisdictionRules.CallsActOnEachAddress` | contracts/jurisdiction-flag/src/lib.rs:384-553 | In every run what an accepted call leaves each address with: replaced, appended, taken out, cleared or untouched codes, and the expiry kept or not. |
| `JurisdictionRules.UntouchedKeepsLegacy` | contracts/jurisdiction-flag/src/lib.rs:763-778 | An address no accepted call was about shows its legacy code alone, or nothing, in every ledger. |
| `JurisdictionRules.ShownUntilExpiry` | contracts/jurisdiction-flag/src/lib.rs:455-536 | A code set until a ledger shows through that ledger and no longer, as long as no accepted call is about its address. |
| `JurisdictionRules.CodesStayAdmissible` | contracts/jurisdiction-flag/src/lib.rs:384-508 | In every run an address has at most eight codes, without repeats, each two letters A to Z or its legacy code. |
| `DelegatedMessage.DelegatedActionMessage` | contracts/allowlist-token/src/lib.rs:770-791 | The buffer ends as prefix, target, action and the two decimal numbers, separated by ':'. |
| `DelegatedMessage.ParseInvertsMessage` | contracts/allowlist-token/src/lib.rs:768-791 | A text parses to a request exactly when it is that request's message and its target and action contain no ':'. |
| `DelegatedMessage.MessagesAreDistinct` | contracts/allowlist-token/src/lib.rs:768-791 | Two requests whose target is over the address alphabet and whose action is over the symbol alphabet, which is every request the program can receive, share a message only if they are equal; and the message parses back to its request. |
| `DelegatedMessage.SharedMessageExactlyWhen` | contracts/allowlist-token/src/lib.rs:781-791 | For arbitrary texts, two requests share a message exactly when nonce and expiry are equal and target, colon, action read the same. |
| `DelegatedMessage.MessageText` | contracts/allowlist-token/src/lib.rs:768-791 | Every message opens with the protocol's prefix, and a concrete request prints as documented. |
| `GatedToken.Contract.Invoke` | examples/denylist-gate-sep41/src/lib.rs:137-337 | One transaction; a failed call leaves nothing, not even an allowance already lowered. |
| `GatedToken.Contract.Dispatch` | examples/denylist-gate-sep41/src/lib.rs:159-295 | Each entry point's authorisation, gate check, allowance and balance steps in the program's order. |
| `GatedToken.Contract.CheckGate` | examples/denylist-gate-sep41/src/lib.rs:301-322 | Both parties must be cleared, the recipient being asked about only after the sender. |
| `GatedToken.Contract.LowerAllowance` | examples/denylist-gate-sep41/src/lib.rs:247-254 | Refuses more than the allowance, otherwise lowers it. |
| `GatedToken.Contract.DoTransfer` | examples/denylist-gate-sep41/src/lib.rs:324-337 | Reads both balances, then writes both, trapping on overflow. |
| `GatedToken.Contract.DoBurn` | examples/denylist-gate-sep41/src/lib.rs:259-269 | Refuses more than the balance, otherwise lowers it. |
| `TokenLedger.TransferStep` | examples/denylist-gate-sep41/src/lib.rs:324-337 | What an accepted transfer needs and leaves. |
| `TokenLedger.StepChangesTotal` | examples/denylist-gate-sep41/src/lib.rs:159-337 | A mint and a transfer to oneself raise the sum of balances by the amount, a burn lowers it, nothing else moves it. |
| `TokenLedger.SupplyGrowsExactlyWhen` | examples/denylist-gate-sep41/src/lib.rs:159-337 | The sum of balances grows exactly in an accepted mint or transfer to oneself of a positive amount, or burn of a negative one; the last two need no admin. |
| `TokenLedger.NegativeBurnMints` | examples/denylist-gate-sep41/src/lib.rs:259-269 | A concrete burn of a negative amount, accepted from an address that holds nothing on a token without an admin, creates 5. |
| `TokenLedger.SupplyIsAccounted` | examples/denylist-gate-sep41/src/lib.rs:159-337 | In every run the balances sum to minted minus burned plus what was transferred to oneself. |
| `TokenLedger.SupplyIsConserved` | examples/denylist-gate-sep41/src/lib.rs:159-337 | Without effective transfers to oneself the balances sum to minted minus burned. |
| `TokenLedger.ConservedExactlyWithoutSelfMoves` | examples/denylist-gate-sep41/src/lib.rs:324-337 | With non-negative amounts, exactly then. |
| `TokenLedger.SelfTransferBreaksConservation` | examples/denylist-gate-sep41/src/lib.rs:325-335 | A concrete run that mints 5 and ends with balances of 10. |
| `TokenLedger.BalancesStayNonNegative` | examples/denylist-gate-sep41/src/lib.rs:259-337 | With non-negative amounts no balance is ever negative. |
| `TokenLedger.StepChangesBalance` | examples/denylist-gate-sep41/src/lib.rs:159-337 | In an accepted call the recipient gains exactly the amount, the debited address loses exactly the amount unless it is the recipient too, and no other balance moves. |
| `TokenLedger.FallsAreEntitledExactlyUnless` | examples/denylist-gate-sep41/src/lib.rs:159-337 | A step lowers a balance without its owner's authorisation or a draw within an allowance exactly when it takes from a recipient: a negative amount moved or minted to an address that did not agree. |
| `TokenLedger.NonNegativeFallsAreEntitled` | examples/denylist-gate-sep41/src/lib.rs:231-269 | With non-negative amounts a balance falls only if its owner authorised the call or a spender drew within the allowance. |
| `TokenLedger.NegativeTransferLowersRecipient` | examples/denylist-gate-sep41/src/lib.rs:231-237 | A concrete transfer of a negative amount that lowers the recipient's balance on the sender's authority. |
| `TokenLedger.TransfersAreClearedAndAuthorised` | examples/denylist-gate-sep41/src/lib.rs:231-257 | Every accepted transfer was cleared for both parties and authorised by the sender, or by a spender within its allowance. |
| `TokenLedger.AllowanceIsAccounted` | examples/denylist-gate-sep41/src/lib.rs:211-295 | Per owner and spender, what was drawn since the last approval plus what remains is what was approved, and draws never exceed a non-negative approval. |
| `TokenLedger.AllowanceWithinApprovalExactlyWhen` | examples/denylist-gate-sep41/src/lib.rs:211-295 | In every run an allowance stays within the last approval exactly while the draws since then do not sum below zero, so it exceeds it only after an accepted draw of a negative amount. |
| `TokenLedger.NegativeDrawRaisesAllowance` | examples/denylist-gate-sep41/src/lib.rs:247-295 | A concrete run in which a spender nobody approved raises its own allowance by a negative draw and then uses it. |
| `TokenAuthority.Answers` | examples/denylist-gate-sep41/src/lib.rs:137-337 | Every answer of every token call: authorisation, gate replies in order, allowance, balance and overflow. |
| `TokenAuthority.AllowanceMovesByAuthority` | examples/denylist-gate-sep41/src/lib.rs:211-295 | An allowance moves only in an approval its owner authorised or a draw its spender authorised. |
| `TokenAuthority.DrawnWithinGranted` | examples/denylist-gate-sep41/src/lib.rs:240-295 | In every run, whatever the signs of the amounts, a positive sum of draws is within what was granted. |
| `TokenAuthority.SpendingNeedsOwner` | examples/denylist-gate-sep41/src/lib.rs:211-295 | In every run a spender who has on balance drawn anything since the last approval did so within an amount that the owner authorised. |
| `TokenAuthority.OneSetUpDecides` | examples/denylist-gate-sep41/src/lib.rs:137-155 | In every run at most one set-up is accepted, and admin and gate are what it said. |
| `TokenAuthority.MintsAreByAdmin` | examples/denylist-gate-sep41/src/lib.rs:159-166 | Every accepted mint was authorised by the admin of the set-up before it. |
| `AuditLog.Contract.Invoke` | contracts/audit-log/src/lib.rs:283-401 | One transaction of the log; a failed call leaves no entry. |
| `AuditLog.Contract.RecordEntry` | contracts/audit-log/src/lib.rs:346-401 | The refusals in order, then the entry under the next index and the advanced counter. |
| `AuditLog.Contract.ListEntries` | contracts/audit-log/src/lib.rs:436-463 | Refuses limits above 100, otherwise returns the stored entries of the range in order. |
| `AuditLog.Contract.GetEntries` | contracts/audit-log/src/lib.rs:416-419 | The same with the limit clamped. |
| `AuditLog.LogIsTheRecords` | contracts/audit-log/src/lib.rs:346-401 | In every run exactly the indices below the count hold entries, and they are the successful records in order. |
| `AuditLog.AppendOnly` | contracts/audit-log/src/lib.rs:346-401 | An earlier log is a prefix of every later one. |
| `AuditLog.StampsAscend` | contracts/audit-log/src/lib.rs:374-380 | Ledger stamps never decrease with the index. |
| `AuditLog.PageIsSlice` | contracts/audit-log/src/lib.rs:436-463 | In every reachable state a page is the records from its start up to the limit or the end, and empty past the end. |
| `AuditLog.PagingReadsEverything` | contracts/audit-log/src/lib.rs:429-463 | In every reachable state and for every page size from 1 to 100, paging from 0 until a short page yields the whole log in order. |
| `AuditLog.PagingReadsGrowingLog` | contracts/audit-log/src/lib.rs:429-463 | With any records appended between the pages, a reader from 0 that reaches a short page holds exactly the log as it was at that page, and it has reached one if its pages could hold more than the log. |
| `AuditTrail.EntriesAreAttributed` | contracts/audit-log/src/lib.rs:346-401 | In every run entry by entry, in order, the log is one accepted record each, with its kind, subject, detail and ledger, under the name of a source that authorised it; and every accepted record has its entry. |
| `AuditTrail.RecordAnswers` | contracts/audit-log/src/lib.rs:346-401 | When a record is accepted, and which refusal it meets otherwise. |
| `AuditTrail.AdminAnswers` | contracts/audit-log/src/lib.rs:283-340 | Set-up once, then pausing, resuming and upgrading for its admin alone. |
| `AuditTrail.PauseHistory` | contracts/audit-log/src/lib.rs:297-316 | The log is paused exactly when it was paused and has not been resumed since. |
| `AuditTrail.AdminHistory` | contracts/audit-log/src/lib.rs:283-295 | The admin is the one the accepted set-up named. |
| `InstanceTtl.ThresholdSuffices` | contracts/compliance-aggregator/src/lib.rs:144-172 | Extending writes at most the threshold apart never find the state lapsed. |
| `InstanceTtl.LargerGapsCanLapse` | contracts/compliance-aggregator/src/lib.rs:154-172 | For every larger gap some run within it, starting from a full extension, lapses. |
| `InstanceTtl.GuaranteedGapIsThreshold` | contracts/compliance-aggregator/src/lib.rs:144-172 | The guaranteed gap between writes is exactly the threshold. |
| `InstanceTtl.DocumentedGapsAreNotGuaranteed` | contracts/compliance-aggregator/src/lib.rs:154-156 | Writing every 83 days is not enough for the 7-day threshold and 90-day target; every 7 days is, and nothing above. Likewise 30 days against 1 day for `multisig-admin`. |
| `InstanceTtl.SilenceSurvivedExactly` | contracts/compliance-aggregator/src/lib.rs:158-172 | After any run of writes one more arrives in time exactly within the target if the last write extended, and otherwise within what it found. |
| `InstanceTtl.SilenceAfterExtension` | contracts/compliance-aggregator/src/lib.rs:144-172 | An extending first write buys exactly 90 days of silence, or 30 for `multisig-admin`. |

## Left out

- The Soroban host beyond transactions: XDR, resource budgets, vector and entry size limits, archival of expired entries
  (except the extension rule itself), hashing and ed25519. A code hash is an opaque value.
- Behaviour after an upgrade is committed: the runs go on with the same code, while the program would run the new one.
- Events other than the signer-governance events of `denylist-gate` and the `PolicyResult` of each evaluation.
- The denylist itself (add, remove, check), the compliance officer and audit-log settings of `denylist-gate`, and its
  pause flag: each is settled by reading one branch. Audit writes are best effort and change nothing here.
- The upgrade entry points of `policy-engine`, `compliance-aggregator` and `jurisdiction-flag`: they repeat a simpler form
  of the modelled timelock or a guarded assignment.
- The setters and pause of `compliance-aggregator`: its configuration is given at construction and all configurations are
  covered.
- `allowlist-token` beyond its message: the delegated nonce is read but never written, and a helper does not type-check.
- `circuit-breaker` is only an oracle, because it uses names its file does not define; `pausable` is only a flag.
- The name, symbol and decimals of the token, and the expiration argument of its `approve`, which the program ignores.
- Reads that extend a time to live or publish an expiry event in `jurisdiction-flag` are modelled by their result only.
- An oracle that changes its answers during one transaction (re-entrancy into a contract being asked).
- How an address comes to authorise a transaction (a key, its own `__check_auth`, or being the direct caller) belongs to
  the host: the model only sees whether it did, for signers that are contracts as for any other.
- DenylistGate.Contract.Invoke: omits the officer, audit-log, pause and denylist entry points and their events, as above.
- PolicyEngine.Contract.Invoke: omits the three upgrade entry points.
- Consumer examples, the indexer, the web page, scripts, benchmarks and fuzz harnesses.
