/** The admin of the denylist gate over whole runs: who holds the role, who is proposed for it, and what the calls under
    the admin's guard answer. */
module AdminHandover {
  import opened Host
  import opened DenylistGate
  import Runs

  /** An accepted call that makes `x` the admin. */
  ghost predicate Appoints(s: Storage, tx: Tx, x: Address) {
    && Run(s, tx).Ok?
    && (tx.call == Initialize(x) || tx.call == AcceptAdmin(x) || (tx.call.TransferAdmin? && tx.call.newAdmin == x))
  }

  ghost predicate Hands(s: Storage, tx: Tx) {
    Run(s, tx).Ok? && (tx.call.Initialize? || tx.call.AcceptAdmin? || tx.call.TransferAdmin?)
  }

  ghost predicate Nominates(s: Storage, tx: Tx, x: Address) {
    Run(s, tx).Ok? && tx.call.ProposeAdmin? && tx.call.newAdmin == x
  }

  /** An accepted call that ends a nomination: another one, its acceptance, its cancellation, or a transfer. */
  ghost predicate EndsNomination(s: Storage, tx: Tx) {
    Run(s, tx).Ok? && (tx.call.ProposeAdmin? || tx.call.AcceptAdmin? || tx.call.CancelAdminProposal? || tx.call.TransferAdmin?)
  }

  lemma OtherCallsKeepRoles(s: Storage, tx: Tx)
    requires !Hands(s, tx) && !EndsNomination(s, tx)
    ensures Step(s, tx).admin == s.admin && Step(s, tx).pendingAdmin == s.pendingAdmin
  {
  }

  lemma AdminStep(s: Storage, tx: Tx, x: Address)
    ensures Step(s, tx).admin == Some(x) <==> Appoints(s, tx, x) || (s.admin == Some(x) && !Hands(s, tx))
  {
    if !Hands(s, tx) && !EndsNomination(s, tx) {
      OtherCallsKeepRoles(s, tx);
      hide Run, Step;
    }
  }

  lemma NominationStep(s: Storage, tx: Tx, x: Address)
    ensures Step(s, tx).pendingAdmin == Some(x) <==>
      Nominates(s, tx, x) || (s.pendingAdmin == Some(x) && !EndsNomination(s, tx))
  {
    if !Hands(s, tx) && !EndsNomination(s, tx) {
      OtherCallsKeepRoles(s, tx);
      hide Run, Step;
    }
  }

  /** The admin is whoever the last accepted initialisation, acceptance or transfer named. */
  lemma AdminHistory(code: WasmHash, txs: seq<Tx>, n: nat, x: Address)
    requires n <= |txs|
    ensures After(Fresh(code), txs, n).admin == Some(x) <==>
      Runs.Since(Step, Fresh(code), txs, n, (s, tx) => Appoints(s, tx, x), (s, tx) => Hands(s, tx))
  {
    forall m: nat | m < n
      ensures var s := After(Fresh(code), txs, m);
        Step(s, txs[m]).admin == Some(x) <==> Appoints(s, txs[m], x) || (s.admin == Some(x) && !Hands(s, txs[m]))
    {
      AdminStep(After(Fresh(code), txs, m), txs[m], x);
    }
    hide Appoints, Hands, Step;
    Runs.HoldsSince(Step, Fresh(code), txs, n,
                    (s: Storage) => s.admin == Some(x), (s, tx) => Appoints(s, tx, x), (s, tx) => Hands(s, tx));
  }

  /** The pending admin is the last one proposed, until accepted, cancelled, replaced or overtaken by a transfer. */
  lemma NominationHistory(code: WasmHash, txs: seq<Tx>, n: nat, x: Address)
    requires n <= |txs|
    ensures After(Fresh(code), txs, n).pendingAdmin == Some(x) <==>
      Runs.Since(Step, Fresh(code), txs, n, (s, tx) => Nominates(s, tx, x), (s, tx) => EndsNomination(s, tx))
  {
    forall m: nat | m < n
      ensures var s := After(Fresh(code), txs, m);
        Step(s, txs[m]).pendingAdmin == Some(x) <==>
          Nominates(s, txs[m], x) || (s.pendingAdmin == Some(x) && !EndsNomination(s, txs[m]))
    {
      NominationStep(After(Fresh(code), txs, m), txs[m], x);
    }
    hide Nominates, EndsNomination, Step;
    Runs.HoldsSince(Step, Fresh(code), txs, n,
                    (s: Storage) => s.pendingAdmin == Some(x), (s, tx) => Nominates(s, tx, x), (s, tx) => EndsNomination(s, tx));
  }

  lemma RolesStayConsistent(s: Storage, tx: Tx)
    requires s.pendingAdmin.Some? ==> s.admin.Some?
    ensures Step(s, tx).pendingAdmin.Some? ==> Step(s, tx).admin.Some?
  {
    if !Hands(s, tx) && !EndsNomination(s, tx) {
      OtherCallsKeepRoles(s, tx);
      hide Run, Step;
    }
  }

  lemma {:induction false} PendingNeedsAdmin(code: WasmHash, txs: seq<Tx>, n: nat)
    requires n <= |txs|
    ensures After(Fresh(code), txs, n).pendingAdmin.Some? ==> After(Fresh(code), txs, n).admin.Some?
  {
    if n > 0 {
      PendingNeedsAdmin(code, txs, n - 1);
      RolesStayConsistent(After(Fresh(code), txs, n - 1), txs[n - 1]);
      hide Step;
    }
  }

  /** The calls that only the admin may make. */
  predicate NeedsAdmin(call: Call) {
    || call.ProposeAdmin? || call.CancelAdminProposal? || call.TransferAdmin? || call.InitializeMultisig?
    || call.ProposeUpgrade? || call.CommitUpgrade? || call.CancelUpgrade?
  }

  /** They trap exactly when the named admin did not authorise them, and are refused as uninitialised or unauthorised
      exactly when there is no admin, or another one. */
  lemma AdminGuardAnswers(s: Storage, tx: Tx)
    requires NeedsAdmin(tx.call)
    ensures Run(s, tx) == Trap <==> tx.call.admin !in tx.auth
    ensures Run(s, tx) == Err(NotInitialized) <==> tx.call.admin in tx.auth && s.admin.None?
    ensures Run(s, tx) == Err(NotAuthorized) <==>
      tx.call.admin in tx.auth && s.admin.Some? && s.admin.value != tx.call.admin
  {
  }

  /** What the handover calls answer, and what they leave. Becoming admin by acceptance takes the authorisation of the
      very address that is pending, and no one else's. */
  lemma HandoverAnswers(code: WasmHash, txs: seq<Tx>, n: nat)
    requires n < |txs|
    ensures var s, tx := After(Fresh(code), txs, n), txs[n];
      var r := Run(s, tx);
      match tx.call
      case Initialize(x) =>
        if s.admin.Some? then r == Err(AlreadyInitialized)
        else if x !in tx.auth then r == Trap
        else r == Ok(Post(s.(admin := Some(x)), []))
      case AcceptAdmin(x) =>
        if x !in tx.auth then r == Trap
        else if s.pendingAdmin.None? then r == Err(NoPendingAdmin)
        else if s.pendingAdmin != Some(x) then r == Err(PendingAdminMismatch)
        else r == Ok(Post(s.(admin := Some(x), pendingAdmin := None), []))
      case ProposeAdmin(a, x) =>
        a in tx.auth && s.admin == Some(a) ==> r == Ok(Post(s.(pendingAdmin := Some(x)), []))
      case CancelAdminProposal(a) =>
        a in tx.auth && s.admin == Some(a) ==>
          r == if s.pendingAdmin.None? then Err(NoPendingAdmin) else Ok(Post(s.(pendingAdmin := None), []))
      case TransferAdmin(a, x) =>
        a in tx.auth && s.admin == Some(a) ==> r == Ok(Post(s.(admin := Some(x), pendingAdmin := None), []))
      case _ => true
  {
    PendingNeedsAdmin(code, txs, n);
  }

  /** Every admin but the first took the role from the one before: by a transfer that it authorised, or by accepting,
      on the new admin's own authority, a proposal that an admin made and that still stood. */
  lemma AdminChangesHands(code: WasmHash, txs: seq<Tx>, n: nat)
    requires n < |txs|
    requires var s, t := After(Fresh(code), txs, n), After(Fresh(code), txs, n + 1); s.admin.Some? && t.admin != s.admin
    ensures var s, t, tx := After(Fresh(code), txs, n), After(Fresh(code), txs, n + 1), txs[n];
      && t.admin.Some?
      && if tx.call.TransferAdmin? then s.admin.value in tx.auth
         else
           && t.admin.value in tx.auth
           && Runs.Since(Step, Fresh(code), txs, n,
                         (s, tx) => Nominates(s, tx, t.admin.value), (s, tx) => EndsNomination(s, tx))
  {
    var s, tx := After(Fresh(code), txs, n), txs[n];
    AdminMoves(s, tx);
    hide Step, Nominates, EndsNomination;
    NominationHistory(code, txs, n, After(Fresh(code), txs, n + 1).admin.value);
  }

  lemma AdminMoves(s: Storage, tx: Tx)
    requires s.admin.Some? && Step(s, tx).admin != s.admin
    ensures Step(s, tx).admin.Some?
    ensures if tx.call.TransferAdmin? then s.admin.value in tx.auth
      else Step(s, tx).admin.value in tx.auth && s.pendingAdmin == Step(s, tx).admin
  {
  }
}
