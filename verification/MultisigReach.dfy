/** No dead end: a quorum of the current signers can always resume the account and reconfigure it at will. */
module MultisigReach {
  import opened Host
  import opened Lists
  import opened MultisigAdmin
  import MultisigRuns
  import Runs

  /** One accepted call for the account itself, signed in `ledger` by exactly as many of the signers it finds as
      the threshold it finds asks for; nobody else authorises anything. */
  ghost predicate QuorumStep(s: Storage, tx: Tx, ledger: u32) {
    && tx.ledger == ledger && tx.signatures.Some?
    && (tx.call.Unpause? || tx.call.AddSigner? || tx.call.RemoveSigner? || tx.call.UpdateThreshold?)
    && s.signers.Some? && s.threshold.Some?
    && Distinct(tx.signatures.value) && |tx.signatures.value| == s.threshold.value
    && Members(tx.signatures.value) == tx.auth <= Members(s.signers.value)
    && Run(s, tx).Ok?
  }

  ghost function ByQuorum(ledger: u32): (Storage, Tx) -> bool {
    (s, tx) => QuorumStep(s, tx, ledger)
  }

  /** The first signers, as many as the threshold asks for. */
  function Quorum(s: Storage): seq<Address>
    requires MultisigRuns.Configured(s)
  {
    s.signers.value[..s.threshold.value]
  }

  /** `call` signed by that quorum and by nobody else. */
  function SignedCall(s: Storage, call: Call, ledger: u32): Tx
    requires MultisigRuns.Configured(s)
  {
    Tx(ledger, Members(Quorum(s)), Some(Quorum(s)), call)
  }

  lemma QuorumAuthorises(s: Storage)
    requires MultisigRuns.Configured(s)
    ensures Distinct(Quorum(s)) && |Quorum(s)| == s.threshold.value
    ensures Members(Quorum(s)) <= Members(s.signers.value)
    ensures CheckAuth(s, Members(Quorum(s)), Quorum(s)) == Ok(())
  {
    CountInAll(Quorum(s), s.signers.value);
  }

  lemma Resume(s: Storage, ledger: u32)
    requires MultisigRuns.Configured(s)
    ensures Runs.Leads(Step, ByQuorum(ledger), s, s.(paused := false))
  {
    QuorumAuthorises(s);
    hide CheckAuth, Quorum;
    Runs.LeadsInOne(Step, ByQuorum(ledger), s, SignedCall(s, Unpause, ledger));
  }

  lemma SetThreshold(s: Storage, t: u32, ledger: u32)
    requires MultisigRuns.Configured(s) && !s.paused
    requires 1 <= t <= |s.signers.value|
    ensures Runs.Leads(Step, ByQuorum(ledger), s, s.(threshold := Some(t)))
  {
    QuorumAuthorises(s);
    hide CheckAuth, Quorum;
    Runs.LeadsInOne(Step, ByQuorum(ledger), s, SignedCall(s, UpdateThreshold(t), ledger));
  }

  lemma AddOne(s: Storage, x: Address, ledger: u32)
    requires MultisigRuns.Configured(s) && !s.paused
    requires x !in s.signers.value
    ensures Runs.Leads(Step, ByQuorum(ledger), s, s.(signers := Some(s.signers.value + [x])))
  {
    QuorumAuthorises(s);
    hide CheckAuth, Quorum;
    Runs.LeadsInOne(Step, ByQuorum(ledger), s, SignedCall(s, AddSigner(x), ledger));
  }

  lemma RemoveOne(s: Storage, x: Address, ledger: u32)
    requires MultisigRuns.Configured(s) && !s.paused
    requires x in s.signers.value && s.threshold.value < |s.signers.value|
    ensures Runs.Leads(Step, ByQuorum(ledger), s, s.(signers := Some(RemoveFirst(s.signers.value, x))))
  {
    hide CheckAuth, Quorum, RemoveFirst;
    QuorumAuthorises(s);
    RemoveFirstMembers(s.signers.value, x);
    Runs.LeadsInOne(Step, ByQuorum(ledger), s, SignedCall(s, RemoveSigner(x), ledger));
  }

  /** `t` is `s` resumed and reconfigured: exactly these signers and this threshold, and every proposal, with its
      approvals, kept. */
  ghost predicate Reconfigured(s: Storage, t: Storage, signers: set<Address>, threshold: u32) {
    && t.signers.Some? && Distinct(t.signers.value) && Members(t.signers.value) == signers
    && t == s.(signers := t.signers, threshold := Some(threshold), paused := false)
  }

  /** With threshold 1, signers can add every address of `xs`. */
  lemma {:induction false} AddAll(s: Storage, xs: set<Address>, ledger: u32) returns (t: Storage)
    requires MultisigRuns.Configured(s) && !s.paused && s.threshold.value == 1
    ensures Runs.Leads(Step, ByQuorum(ledger), s, t) && Reconfigured(s, t, Members(s.signers.value) + xs, 1)
    decreases |xs|
  {
    hide Runs.Leads;
    Runs.LeadsReflexive(Step, ByQuorum(ledger), s);
    var members := Members(s.signers.value);
    if xs <= members {
      t := s;
      assert members + xs == members;
    } else {
      var x :| x in xs && x !in members;
      AddOne(s, x, ledger);
      var mid := s.(signers := Some(s.signers.value + [x]));
      t := AddAll(mid, xs - {x}, ledger);
      Runs.LeadsTransitive(Step, ByQuorum(ledger), s, mid, t);
      assert Members(mid.signers.value) + (xs - {x}) == members + xs;
    }
  }

  /** With threshold 1, signers can remove every signer outside the non-empty set `keep`. */
  lemma {:induction false} RemoveAllBut(s: Storage, keep: set<Address>, ledger: u32) returns (t: Storage)
    requires MultisigRuns.Configured(s) && !s.paused && s.threshold.value == 1
    requires keep != {} && keep <= Members(s.signers.value)
    ensures Runs.Leads(Step, ByQuorum(ledger), s, t) && Reconfigured(s, t, keep, 1)
    decreases |s.signers.value|
  {
    hide Runs.Leads, RemoveFirst;
    Runs.LeadsReflexive(Step, ByQuorum(ledger), s);
    var signers := s.signers.value;
    if Members(signers) == keep {
      t := s;
    } else {
      var x :| x in Members(signers) && x !in keep;
      var k :| k in keep;
      assert k in signers && k != x;
      RemoveFirstMembers(signers, x);
      assert k in RemoveFirst(signers, x);
      RemoveOne(s, x, ledger);
      var mid := s.(signers := Some(RemoveFirst(signers, x)));
      t := RemoveAllBut(mid, keep, ledger);
      Runs.LeadsTransitive(Step, ByQuorum(ledger), s, mid, t);
    }
  }

  /** Resume, lower the threshold, add, remove, raise. */
  lemma QuorumsCanReach(s: Storage, signers: set<Address>, threshold: u32, ledger: u32) returns (t: Storage)
    requires MultisigRuns.Configured(s)
    requires 1 <= threshold <= |signers|
    ensures Runs.Leads(Step, ByQuorum(ledger), s, t) && Reconfigured(s, t, signers, threshold)
  {
    hide Runs.Leads;
    var resumed := s.(paused := false);
    Resume(s, ledger);
    var lowered := resumed.(threshold := Some(1));
    SetThreshold(resumed, 1, ledger);
    var grown := AddAll(lowered, signers, ledger);
    var shrunk := RemoveAllBut(grown, signers, ledger);
    DistinctCard(shrunk.signers.value);
    t := shrunk.(threshold := Some(threshold));
    SetThreshold(shrunk, threshold, ledger);
    Runs.LeadsTransitive(Step, ByQuorum(ledger), s, resumed, lowered);
    Runs.LeadsTransitive(Step, ByQuorum(ledger), s, lowered, grown);
    Runs.LeadsTransitive(Step, ByQuorum(ledger), s, grown, shrunk);
    Runs.LeadsTransitive(Step, ByQuorum(ledger), s, shrunk, t);
  }

  /** `s` is the storage of a deployed account at some point of some run. */
  ghost predicate Reachable(s: Storage) {
    exists txs: seq<Tx>, n: nat :: n <= |txs| && s == After(FRESH, txs, n)
  }

  /** Some run of calls, each signed by a bare quorum of the signers it finds, leaves the account resumed with
      exactly these signers and this threshold, and its proposals untouched. */
  ghost predicate CanBecome(s: Storage, signers: set<Address>, threshold: u32, ledger: u32) {
    exists t :: Runs.Leads(Step, ByQuorum(ledger), s, t) && Reconfigured(s, t, signers, threshold)
  }

  /** From every reachable state that has been set up, paused or not, whatever is proposed, quorums of the signers
      can reach a configuration within one ledger exactly when it is admissible: some threshold from 1 to the
      number of signers. */
  lemma AccountCanBecomeExactlyAdmissible(s: Storage, signers: set<Address>, threshold: u32, ledger: u32)
    requires Reachable(s) && s.signers.Some?
    ensures CanBecome(s, signers, threshold, ledger) <==> 1 <= threshold <= |signers|
  {
    hide Step;
    var txs: seq<Tx>, n: nat :| n <= |txs| && s == After(FRESH, txs, n);
    MultisigRuns.ReachableInv(txs, n);
    if 1 <= threshold <= |signers| {
      var t := QuorumsCanReach(s, signers, threshold, ledger);
    }
    if t :| Runs.Leads(Step, ByQuorum(ledger), s, t) && Reconfigured(s, t, signers, threshold) {
      var ys :| Runs.Permitted(Step, ByQuorum(ledger), s, ys) && After(s, ys, |ys|) == t;
      InvAlong(s, ys, |ys|);
      DistinctCard(t.signers.value);
    }
  }

  lemma {:induction false} InvAlong(s: Storage, txs: seq<Tx>, n: nat)
    requires MultisigRuns.Inv(s) && n <= |txs|
    ensures MultisigRuns.Inv(After(s, txs, n))
  {
    hide Step;
    if n > 0 {
      InvAlong(s, txs, n - 1);
      MultisigRuns.StepKeepsInv(After(s, txs, n - 1), txs[n - 1]);
    }
  }
}
