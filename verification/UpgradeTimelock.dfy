/** The delayed upgrade of the denylist gate, over whole runs and across changes of admin. */
module UpgradeTimelock {
  import opened Host
  import opened DenylistGate
  import Runs

  predicate IsUpgradeCall(call: Call) {
    call.ProposeUpgrade? || call.CommitUpgrade? || call.CancelUpgrade?
  }

  ghost predicate Succeeded(s: Storage, txs: seq<Tx>, i: nat) {
    i < |txs| && Run(After(s, txs, i), txs[i]).Ok?
  }

  /** Transaction `i` proposed an upgrade, and no proposal, commit or cancellation succeeded between it and `n`. */
  ghost predicate Outstanding(s: Storage, txs: seq<Tx>, n: nat, i: nat) {
    && i < n <= |txs|
    && Succeeded(s, txs, i) && txs[i].call.ProposeUpgrade?
    && forall j: nat :: i < j < n && Succeeded(s, txs, j) ==> !IsUpgradeCall(txs[j].call)
  }

  /** For ledger numbers the saturating addition is plain addition. */
  lemma NeverSaturates(ledger: u32, delay: u32)
    ensures SaturatingAdd(ledger, delay) == ledger + delay < MAX_U64
  {
  }

  /** `pending` is what proposal `i` asked for: its code, at its ledger plus its delay, which is long enough. */
  predicate IsProposalOf(pending: Option<UpgradeState>, tx: Tx)
    requires tx.call.ProposeUpgrade?
  {
    && tx.call.delay >= MIN_UPGRADE_DELAY_LEDGERS
    && pending == Some(UpgradeState(tx.call.newWasm, tx.ledger + tx.call.delay))
  }

  /** What the contract keeps pending is exactly the outstanding proposal, with its whole delay, which is at
      least the minimum. */
  lemma {:induction false} PendingIsOutstanding(code: WasmHash, txs: seq<Tx>, n: nat)
    requires n <= |txs|
    ensures After(Fresh(code), txs, n).pendingUpgrade.Some? <==> exists i: nat :: Outstanding(Fresh(code), txs, n, i)
    ensures forall i: nat :: Outstanding(Fresh(code), txs, n, i) ==>
      IsProposalOf(After(Fresh(code), txs, n).pendingUpgrade, txs[i])
  {
    var s := Fresh(code);
    if n > 0 {
      var m := n - 1;
      hide Run, Step, IsProposalOf, Outstanding, Runs.After;
      PendingIsOutstanding(code, txs, m);
      PendingStep(After(s, txs, m), txs[m]);
      OutstandingStep(s, txs, m, n);
      Runs.AfterNext(Step, s, txs, m);
      if Succeeded(s, txs, m) && txs[m].call.ProposeUpgrade? {
        assert Outstanding(s, txs, n, m);
      }
    }
  }

  lemma PendingStep(before: Storage, tx: Tx)
    ensures var after := Step(before, tx);
      if Run(before, tx).Ok? && IsUpgradeCall(tx.call) then
        if tx.call.ProposeUpgrade? then IsProposalOf(after.pendingUpgrade, tx) && after.pendingUpgrade.Some?
        else after.pendingUpgrade.None?
      else after.pendingUpgrade == before.pendingUpgrade
  {
  }

  lemma OutstandingStep(s: Storage, txs: seq<Tx>, m: nat, n: nat)
    requires n == m + 1 <= |txs|
    ensures forall i: nat :: Outstanding(s, txs, n, i) <==>
      if Succeeded(s, txs, m) && IsUpgradeCall(txs[m].call) then i == m && txs[m].call.ProposeUpgrade?
      else Outstanding(s, txs, m, i)
  {
    hide After, Run;
  }

  /** A commit is accepted exactly when the admin authorises it and an outstanding proposal is at least its
      delay old; it then installs that proposal's code and leaves nothing pending. */
  lemma CommitExactlyWhenMatured(code: WasmHash, txs: seq<Tx>, n: nat)
    requires n < |txs| && txs[n].call.CommitUpgrade?
    ensures var s, admin := Fresh(code), txs[n].call.admin;
      && (Succeeded(s, txs, n) <==>
            && admin in txs[n].auth && After(s, txs, n).admin == Some(admin)
            && exists i: nat :: Outstanding(s, txs, n, i) && txs[n].ledger - txs[i].ledger >= txs[i].call.delay)
      && (Succeeded(s, txs, n) ==>
            && After(s, txs, n + 1).pendingUpgrade.None?
            && exists i: nat :: Outstanding(s, txs, n, i)
                 && txs[i].call.delay >= MIN_UPGRADE_DELAY_LEDGERS
                 && txs[n].ledger - txs[i].ledger >= txs[i].call.delay
                 && After(s, txs, n + 1).code == txs[i].call.newWasm)
  {
    PendingIsOutstanding(code, txs, n);
  }

  /** The installed code moves in no other way. */
  lemma OnlyCommitInstalls(s: Storage, txs: seq<Tx>, n: nat)
    requires n < |txs| && After(s, txs, n + 1).code != After(s, txs, n).code
    ensures txs[n].call.CommitUpgrade? && Succeeded(s, txs, n)
  {
    CodeStep(After(s, txs, n), txs[n]);
  }

  lemma CodeStep(before: Storage, tx: Tx)
    ensures Step(before, tx).code != before.code ==> tx.call.CommitUpgrade? && Run(before, tx).Ok?
  {
  }

  /** With the admin's authority a proposal is accepted exactly with a delay of at least 17,280 ledgers, a commit exactly
      when something pending has matured, and a cancellation always. */
  lemma UpgradeAnswers(s: Storage, tx: Tx)
    requires IsUpgradeCall(tx.call) && tx.call.admin in tx.auth && s.admin == Some(tx.call.admin)
    ensures var r := Run(s, tx);
      match tx.call
      case ProposeUpgrade(_, _, delay) => if delay < 17_280 then r == Err(UpgradeDelayTooShort) else r.Ok?
      case CommitUpgrade(_) =>
        if s.pendingUpgrade.Some? && tx.ledger >= s.pendingUpgrade.value.activatedAt then r.Ok? else r == Err(UpgradeNotReady)
      case CancelUpgrade(_) => r == Ok(Post(s.(pendingUpgrade := None), []))
      case _ => true
  {
  }
}
