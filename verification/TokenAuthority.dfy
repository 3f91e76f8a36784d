/** On whose authority the token's state moves, over whole runs, and what each call answers. */
module TokenAuthority {
  import opened Host
  import opened GatedToken
  import opened Oracles
  import opened TokenLedger
  import Runs

  // ---- What the calls answer -------------------------------------------------------------------------------

  /** How the gate replies about the two parties, the recipient being asked about only once the sender is cleared. */
  datatype Clearance = Cleared | Denied | Unanswered

  ghost predicate Clears(w: World, gate: Address, from: Address, to: Address, c: Clearance) {
    var sender, recipient := w.check(gate, from), w.check(gate, to);
    match c
    case Cleared => sender == Yes && recipient == Yes
    case Denied => sender == No || (sender == Yes && recipient == No)
    case Unanswered => (sender != Yes && sender != No) || (sender == Yes && recipient != Yes && recipient != No)
  }

  /** The address whose authorisation a call needs: the admin it names, the owner, or the spender. */
  function Authoriser(call: Call): Address {
    match call
    case Initialize(admin, _) => admin
    case Mint(admin, _, _) => admin
    case Approve(from, _, _) => from
    case Transfer(from, _, _) => from
    case TransferFrom(spender, _, _, _) => spender
    case Burn(from, _) => from
    case BurnFrom(spender, _, _) => spender
  }

  predicate Fits(x: int) {
    -0x8000_0000_0000_0000_0000_0000_0000_0000 <= x <= 0x7FFF_FFFF_FFFF_FFFF_FFFF_FFFF_FFFF_FFFF
  }

  /** What is checked of the balances once a transfer or burn may go ahead. */
  ghost predicate AnswersMove(s: Storage, call: Call, r: Result)
    requires IsTransfer(call) || IsBurn(call)
  {
    if Balance(s, call.from) < call.amount then r == Err(InsufficientBalance)
    else if !Fits(Balance(s, call.from) - call.amount) then r == Trap
    else if IsTransfer(call) && !Fits(Balance(s, call.to) + call.amount) then r == Trap
    else r.Ok?
  }

  /** What is checked of the allowance before that. */
  ghost predicate AnswersDraw(s: Storage, call: Call, r: Result)
    requires IsTransfer(call) || IsBurn(call)
  {
    if call.TransferFrom? || call.BurnFrom? then
      if Allowance(s, call.from, call.spender) < call.amount then r == Err(InsufficientAllowance)
      else if !Fits(Allowance(s, call.from, call.spender) - call.amount) then r == Trap
      else AnswersMove(s, call, r)
    else AnswersMove(s, call, r)
  }

  lemma TransferAnswers(s: Storage, tx: Tx)
    requires IsTransfer(tx.call) && Authoriser(tx.call) in tx.auth
    ensures var call, r := tx.call, Run(s, tx);
      if s.gate.None? then r == Err(NotInitialized)
      else
        && (Clears(tx.world, s.gate.value, call.from, call.to, Denied) ==> r == Err(DeniedByGate))
        && (Clears(tx.world, s.gate.value, call.from, call.to, Unanswered) ==> r == Trap)
        && (Clears(tx.world, s.gate.value, call.from, call.to, Cleared) ==> AnswersDraw(s, call, r))
  {
  }

  lemma BurnAnswers(s: Storage, tx: Tx)
    requires IsBurn(tx.call) && Authoriser(tx.call) in tx.auth
    ensures AnswersDraw(s, tx.call, Run(s, tx))
  {
  }

  /** Every answer of every call. Apart from a second set-up, refused before anything else, a call whose authoriser did
      not authorise it traps. */
  lemma Answers(s: Storage, tx: Tx)
    ensures var call, r := tx.call, Run(s, tx);
      if call.Initialize? && s.admin.Some? then r == Err(AlreadyInitialized)
      else if Authoriser(call) !in tx.auth then r == Trap
      else
        match call
        case Initialize(_, _) => r.Ok?
        case Approve(_, _, _) => r.Ok?
        case Mint(admin, to, amount) =>
          if s.admin.None? then r == Err(NotInitialized)
          else if s.admin.value != admin then r == Err(NotAuthorized)
          else if !Fits(Balance(s, to) + amount) then r == Trap
          else r.Ok?
        case Burn(_, _) => AnswersDraw(s, call, r)
        case BurnFrom(_, _, _) => AnswersDraw(s, call, r)
        case _ =>
          if s.gate.None? then r == Err(NotInitialized)
          else
            && (Clears(tx.world, s.gate.value, call.from, call.to, Denied) ==> r == Err(DeniedByGate))
            && (Clears(tx.world, s.gate.value, call.from, call.to, Unanswered) ==> r == Trap)
            && (Clears(tx.world, s.gate.value, call.from, call.to, Cleared) ==> AnswersDraw(s, call, r))
  {
    if Authoriser(tx.call) in tx.auth {
      if IsTransfer(tx.call) {
        TransferAnswers(s, tx);
        hide Run, AnswersDraw, Clears;
      } else if IsBurn(tx.call) {
        BurnAnswers(s, tx);
        hide Run, AnswersDraw;
      }
    } else {
      hide GateCheck, Move, Draw, Destroy;
    }
  }

  // ---- Allowances come from owners -------------------------------------------------------------------------

  /** An allowance moves only in an approval that its owner authorised, or in a draw that the spender authorised. */
  lemma AllowanceMovesByAuthority(s: Storage, tx: Tx, owner: Address, spender: Address)
    requires Allowance(Step(s, tx), owner, spender) != Allowance(s, owner, spender)
    ensures Run(s, tx).Ok?
    ensures if Draws(tx.call, owner, spender) then spender in tx.auth
      else Grants(tx.call, owner, spender) && owner in tx.auth
  {
    StepChangesAllowance(s, tx, owner, spender);
    if Grants(tx.call, owner, spender) {
      hide GateCheck, Move, Draw, Destroy;
    } else {
      hide Run;
    }
  }

  /** The call that gave the allowance in force after `n` transactions, with the authorisation of the owner. */
  ghost predicate GrantInForce(txs: seq<Tx>, n: nat, i: nat, owner: Address, spender: Address)
    requires n <= |txs|
  {
    && i < n
    && Succeeded(txs, i) && Grants(txs[i].call, owner, spender) && owner in txs[i].auth
    && forall j: nat :: i < j < n && Succeeded(txs, j) ==> !Grants(txs[j].call, owner, spender)
  }

  lemma GrantsAreAuthorised(txs: seq<Tx>, i: nat, owner: Address, spender: Address)
    requires i < |txs| && Succeeded(txs, i) && Grants(txs[i].call, owner, spender)
    ensures owner in txs[i].auth
  {
    hide GateCheck, Move, Draw, Destroy;
  }

  /** What is granted, other than nothing, is what the owner authorised last. */
  lemma {:induction false} GrantedByOwner(txs: seq<Tx>, n: nat, owner: Address, spender: Address)
    requires n <= |txs|
    ensures Granted(txs, n, owner, spender) != 0 ==>
      exists i: nat :: GrantInForce(txs, n, i, owner, spender) && txs[i].call.amount == Granted(txs, n, owner, spender)
  {
    hide Succeeded;
    if n > 0 {
      GrantedByOwner(txs, n - 1, owner, spender);
      if Succeeded(txs, n - 1) && Grants(txs[n - 1].call, owner, spender) {
        GrantsAreAuthorised(txs, n - 1, owner, spender);
        assert GrantInForce(txs, n, n - 1, owner, spender);
      } else if i: nat :|
        && GrantInForce(txs, n - 1, i, owner, spender)
        && txs[i].call.amount == Granted(txs, n - 1, owner, spender)
      {
        assert GrantInForce(txs, n, i, owner, spender);
      }
    }
  }

  /** Whatever the signs of the amounts, a positive sum of draws is within what was granted. */
  lemma {:induction false} DrawnWithinGranted(txs: seq<Tx>, n: nat, owner: Address, spender: Address)
    requires n <= |txs|
    ensures Drawn(txs, n, owner, spender) > 0 ==> Drawn(txs, n, owner, spender) <= Granted(txs, n, owner, spender)
  {
    if n > 0 {
      hide Run, After, Allowance;
      DrawnWithinGranted(txs, n - 1, owner, spender);
      AllowanceIsAccounted(txs, n - 1, owner, spender);
      StepChangesAllowance(After(txs, n - 1), txs[n - 1], owner, spender);
    }
  }

  /** Spending needs the owner: if a spender has, on balance, drawn anything from an owner since the last approval, then
      that approval was authorised by the owner and was for at least as much. */
  lemma SpendingNeedsOwner(txs: seq<Tx>, n: nat, owner: Address, spender: Address)
    requires n <= |txs| && Drawn(txs, n, owner, spender) > 0
    ensures exists i: nat ::
      GrantInForce(txs, n, i, owner, spender) && Drawn(txs, n, owner, spender) <= txs[i].call.amount
  {
    hide Drawn, Granted, GrantInForce;
    DrawnWithinGranted(txs, n, owner, spender);
    GrantedByOwner(txs, n, owner, spender);
  }

  // ---- One set-up decides admin and gate -------------------------------------------------------------------

  predicate SetUpAt(txs: seq<Tx>, i: nat) {
    i < |txs| && txs[i].call.Initialize? && Succeeded(txs, i)
  }

  lemma SetUpStep(s: Storage, tx: Tx)
    ensures tx.call.Initialize? && Run(s, tx).Ok? ==> s.admin.None? && tx.call.admin in tx.auth
    ensures var t := Step(s, tx);
      if tx.call.Initialize? && Run(s, tx).Ok? then t.admin == Some(tx.call.admin) && t.gate == Some(tx.call.gate)
      else t.admin == s.admin && t.gate == s.gate
  {
    if IsTransfer(tx.call) || IsBurn(tx.call) {
      MovementKeepsSetUp(s, tx);
      hide Run, Step;
    } else {
      hide GateCheck, Move, Draw, Destroy;
    }
  }

  lemma MovementKeepsSetUp(s: Storage, tx: Tx)
    requires IsTransfer(tx.call) || IsBurn(tx.call)
    ensures Step(s, tx).admin == s.admin && Step(s, tx).gate == s.gate
  {
    hide GateCheck, Authorise;
  }

  lemma {:induction false} SetUpStays(txs: seq<Tx>, i: nat, n: nat)
    requires i < n <= |txs| && SetUpAt(txs, i)
    ensures var s := After(txs, n); s.admin == Some(txs[i].call.admin) && s.gate == Some(txs[i].call.gate)
    decreases n
  {
    hide Run, Step, Runs.After;
    SetUpStep(After(txs, n - 1), txs[n - 1]);
    Runs.AfterNext(Step, FRESH, txs, n - 1);
    if i < n - 1 {
      SetUpStays(txs, i, n - 1);
    }
  }

  lemma {:induction false} NothingBeforeSetUp(txs: seq<Tx>, n: nat)
    requires n <= |txs| && forall i: nat :: i < n ==> !SetUpAt(txs, i)
    ensures After(txs, n).admin.None? && After(txs, n).gate.None?
  {
    if n > 0 {
      hide Run, Step;
      NothingBeforeSetUp(txs, n - 1);
      assert !SetUpAt(txs, n - 1);
      SetUpStep(After(txs, n - 1), txs[n - 1]);
    }
  }

  /** Admin and gate are those of the one accepted set-up, which that admin authorised, and there are none before it. */
  lemma OneSetUpDecides(txs: seq<Tx>, n: nat)
    requires n <= |txs|
    ensures var s := After(txs, n);
      && (forall i: nat :: i < n && SetUpAt(txs, i) ==>
            s.admin == Some(txs[i].call.admin) && s.gate == Some(txs[i].call.gate) && txs[i].call.admin in txs[i].auth)
      && ((forall i: nat :: i < n ==> !SetUpAt(txs, i)) ==> s.admin.None? && s.gate.None?)
    ensures forall i: nat, j: nat :: i < n && j < n && SetUpAt(txs, i) && SetUpAt(txs, j) ==> i == j
  {
    hide After, Run;
    forall i: nat | i < n && SetUpAt(txs, i)
      ensures var s := After(txs, n); s.admin == Some(txs[i].call.admin) && s.gate == Some(txs[i].call.gate)
      ensures txs[i].call.admin in txs[i].auth
      ensures forall j: nat :: i < j < n ==> !SetUpAt(txs, j)
    {
      SetUpStays(txs, i, n);
      SetUpStep(After(txs, i), txs[i]);
      forall j: nat | i < j < n
        ensures !SetUpAt(txs, j)
      {
        SetUpStays(txs, i, j);
        SetUpStep(After(txs, j), txs[j]);
      }
    }
    if forall i: nat :: i < n ==> !SetUpAt(txs, i) {
      NothingBeforeSetUp(txs, n);
    }
  }

  /** Every accepted mint was authorised by the admin of the set-up, which came before it. */
  lemma MintsAreByAdmin(txs: seq<Tx>, i: nat)
    requires i < |txs| && Succeeded(txs, i) && txs[i].call.Mint?
    ensures txs[i].call.admin in txs[i].auth
    ensures exists k: nat :: k < i && SetUpAt(txs, k) && txs[k].call.admin == txs[i].call.admin
  {
    MintGuard(After(txs, i), txs[i]);
    OneSetUpDecides(txs, i);
    hide After, Run;
  }

  lemma MintGuard(s: Storage, tx: Tx)
    requires tx.call.Mint? && Run(s, tx).Ok?
    ensures s.admin == Some(tx.call.admin) && tx.call.admin in tx.auth
  {
  }
}
