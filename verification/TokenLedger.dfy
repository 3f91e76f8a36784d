/** Conservation of the token supply and the allowance ledger, over every run. */
module TokenLedger {
  import opened Host
  import opened GatedToken
  import opened Oracles

  // ---- Sums over balances ----------------------------------------------------------------------------------

  ghost function Total(m: map<Address, i128>): int
    decreases |m|
  {
    if m == map[] then 0
    else
      var a :| a in m;
      m[a] + Total(m - {a})
  }

  /** The sum may be taken in any order. */
  lemma {:induction false} TotalWithout(m: map<Address, i128>, a: Address)
    requires a in m
    ensures Total(m) == m[a] + Total(m - {a})
    decreases |m|
  {
    var b :| b in m && Total(m) == m[b] + Total(m - {b});
    if b != a {
      TotalWithout(m - {b}, a);
      TotalWithout(m - {a}, b);
      assert m - {a} - {b} == m - {b} - {a};
    }
  }

  lemma TotalUpdate(m: map<Address, i128>, a: Address, x: i128)
    ensures Total(m[a := x]) == Total(m) - (if a in m then m[a] else 0) + x
  {
    TotalWithout(m[a := x], a);
    assert m[a := x] - {a} == m - {a};
    if a in m {
      TotalWithout(m, a);
    } else {
      assert m - {a} == m;
    }
  }

  // ---- Supply ----------------------------------------------------------------------------------------------

  predicate IsSelfTransfer(call: Call) {
    IsTransfer(call) && call.from == call.to
  }

  /** What one transaction mints, burns, and transfers from an address to itself, if it is accepted. */
  function MintedBy(s: Storage, tx: Tx): int {
    if Run(s, tx).Ok? && tx.call.Mint? then tx.call.amount else 0
  }

  function BurnedBy(s: Storage, tx: Tx): int {
    if Run(s, tx).Ok? && IsBurn(tx.call) then tx.call.amount else 0
  }

  function SelfMovedBy(s: Storage, tx: Tx): int {
    if Run(s, tx).Ok? && IsSelfTransfer(tx.call) then tx.call.amount else 0
  }

  /** The totals over the first `n` transactions. */
  function Minted(txs: seq<Tx>, n: nat): int
    requires n <= |txs|
  {
    if n == 0 then 0 else Minted(txs, n - 1) + MintedBy(After(txs, n - 1), txs[n - 1])
  }

  function Burned(txs: seq<Tx>, n: nat): int
    requires n <= |txs|
  {
    if n == 0 then 0 else Burned(txs, n - 1) + BurnedBy(After(txs, n - 1), txs[n - 1])
  }

  function SelfMoved(txs: seq<Tx>, n: nat): int
    requires n <= |txs|
  {
    if n == 0 then 0 else SelfMoved(txs, n - 1) + SelfMovedBy(After(txs, n - 1), txs[n - 1])
  }

  predicate IsTransfer(call: Call) {
    call.Transfer? || call.TransferFrom?
  }

  predicate IsBurn(call: Call) {
    call.Burn? || call.BurnFrom?
  }

  /** An accepted transfer: enough balance, both results in range, both balances read before the first write. */
  lemma TransferStep(s: Storage, tx: Tx)
    requires IsTransfer(tx.call) && Run(s, tx).Ok?
    ensures var call := tx.call;
      && call.amount <= Balance(s, call.from)
      && InRange(Balance(s, call.from) - call.amount) && InRange(Balance(s, call.to) + call.amount)
      && Step(s, tx).balances ==
           s.balances[call.from := Balance(s, call.from) - call.amount][call.to := Balance(s, call.to) + call.amount]
  {
    hide GateCheck, Authorise;
    if tx.call.TransferFrom? {
      var drawn := Draw(s, tx.call.from, tx.call.spender, tx.call.amount);
      assert drawn.Ok? && drawn.value.balances == s.balances;
    }
  }

  lemma BurnStep(s: Storage, tx: Tx)
    requires IsBurn(tx.call) && Run(s, tx).Ok?
    ensures var call := tx.call;
      && call.amount <= Balance(s, call.from) && InRange(Balance(s, call.from) - call.amount)
      && Step(s, tx).balances == s.balances[call.from := Balance(s, call.from) - call.amount]
  {
  }

  lemma OtherStep(s: Storage, tx: Tx)
    requires !Run(s, tx).Ok? || !(IsTransfer(tx.call) || IsBurn(tx.call))
    ensures
      if Run(s, tx).Ok? && tx.call.Mint? then
        && InRange(Balance(s, tx.call.to) + tx.call.amount)
        && Step(s, tx).balances == s.balances[tx.call.to := Balance(s, tx.call.to) + tx.call.amount]
      else Step(s, tx).balances == s.balances
  {
    hide GateCheck, Move, Draw, Destroy;
  }

  /** What one call does to the sum of balances: a transfer to oneself raises it by the amount. */
  lemma StepChangesTotal(s: Storage, tx: Tx)
    ensures Total(Step(s, tx).balances) == Total(s.balances) + MintedBy(s, tx) - BurnedBy(s, tx) + SelfMovedBy(s, tx)
  {
    hide Run, Step, Total;
    var call := tx.call;
    if Run(s, tx).Ok? && IsTransfer(call) {
      TransferStep(s, tx);
      var debited := s.balances[call.from := Balance(s, call.from) - call.amount];
      TotalUpdate(s.balances, call.from, Balance(s, call.from) - call.amount);
      TotalUpdate(debited, call.to, Balance(s, call.to) + call.amount);
    } else if Run(s, tx).Ok? && IsBurn(call) {
      BurnStep(s, tx);
      TotalUpdate(s.balances, call.from, Balance(s, call.from) - call.amount);
    } else {
      OtherStep(s, tx);
      if Run(s, tx).Ok? && call.Mint? {
        TotalUpdate(s.balances, call.to, Balance(s, call.to) + call.amount);
      }
    }
  }

  /** Every call that raises the sum of balances, and every such call does: a mint, a burn of a negative amount, and a
      transfer to oneself. Only the first needs the admin. */
  lemma SupplyGrowsExactlyWhen(s: Storage, tx: Tx)
    ensures Total(Step(s, tx).balances) > Total(s.balances) <==>
      Run(s, tx).Ok? && if IsBurn(tx.call) then tx.call.amount < 0
                        else (tx.call.Mint? || IsSelfTransfer(tx.call)) && tx.call.amount > 0
  {
    hide Run, Step, Total;
    StepChangesTotal(s, tx);
  }

  /** An address holding nothing burns -5 of its own on a token without an admin, and then holds 5. */
  lemma NegativeBurnMints()
    ensures var tx := Tx({OWNER}, OPEN_WORLD, Burn(OWNER, -5));
      && Run(FRESH, tx) == Ok(FRESH.(balances := map[OWNER := 5]))
      && Total(Step(FRESH, tx).balances) == Total(FRESH.balances) + 5
  {
    var tx := Tx({OWNER}, OPEN_WORLD, Burn(OWNER, -5));
    assert FRESH.balances[OWNER := 5] == map[OWNER := 5];
    StepChangesTotal(FRESH, tx);
  }

  /** The supply in every run: what was minted, less what was burned, plus what was transferred to oneself. */
  lemma {:induction false} SupplyIsAccounted(txs: seq<Tx>, n: nat)
    requires n <= |txs|
    ensures Total(After(txs, n).balances) == Minted(txs, n) - Burned(txs, n) + SelfMoved(txs, n)
  {
    assert Total(FRESH.balances) == 0;
    hide Step, Total, MintedBy, BurnedBy, SelfMovedBy;
    if n > 0 {
      SupplyIsAccounted(txs, n - 1);
      StepChangesTotal(After(txs, n - 1), txs[n - 1]);
    }
  }

  /** No transfer to oneself among the first `n` transactions moved anything. */
  ghost predicate NoSelfMoves(txs: seq<Tx>, n: nat)
    requires n <= |txs|
  {
    forall i: nat :: i < n ==> SelfMovedBy(After(txs, i), txs[i]) == 0
  }

  /** Conservation: without transfers to oneself the balances sum to minted minus burned. */
  lemma SupplyIsConserved(txs: seq<Tx>, n: nat)
    requires n <= |txs|
    requires NoSelfMoves(txs, n)
    ensures Total(After(txs, n).balances) == Minted(txs, n) - Burned(txs, n)
  {
    SupplyIsAccounted(txs, n);
    SelfMovesAddUp(txs, n);
    hide SelfMovedBy, After, Total;
  }

  /** With non-negative amounts conservation holds exactly when no transfer to oneself moved anything. */
  lemma ConservedExactlyWithoutSelfMoves(txs: seq<Tx>, n: nat)
    requires n <= |txs|
    requires forall i: nat :: i < n && IsSelfTransfer(txs[i].call) ==> txs[i].call.amount >= 0
    ensures Total(After(txs, n).balances) == Minted(txs, n) - Burned(txs, n) <==> NoSelfMoves(txs, n)
  {
    SupplyIsAccounted(txs, n);
    forall i: nat | i < n
      ensures SelfMovedBy(After(txs, i), txs[i]) >= 0
    {
    }
    SelfMovesAddUp(txs, n);
    hide SelfMovedBy, After, Total;
  }

  lemma {:induction false} SelfMovesAddUp(txs: seq<Tx>, n: nat)
    requires n <= |txs|
    requires forall i: nat :: i < n ==> SelfMovedBy(After(txs, i), txs[i]) >= 0
    ensures SelfMoved(txs, n) >= 0
    ensures SelfMoved(txs, n) == 0 <==> NoSelfMoves(txs, n)
  {
    hide After, SelfMovedBy;
    if n > 0 {
      SelfMovesAddUp(txs, n - 1);
    }
  }

  const OWNER := Address(0)
  const OPEN_WORLD := World((_, _) => Yes, (_, _, _) => Yes, (_, _) => Yes, _ => No)

  /** Mint 5 to the owner, who then transfers 5 to itself. */
  const SELF_TRANSFER_RUN := [
    Tx({OWNER}, OPEN_WORLD, Initialize(OWNER, Address(1))),
    Tx({OWNER}, OPEN_WORLD, Mint(OWNER, OWNER, 5)),
    Tx({OWNER}, OPEN_WORLD, Transfer(OWNER, OWNER, 5))]

  /** Conservation can fail: the balances then sum to 10 with 5 minted. */
  lemma SelfTransferBreaksConservation()
    ensures Total(After(SELF_TRANSFER_RUN, 3).balances) == 10
    ensures Minted(SELF_TRANSFER_RUN, 3) - Burned(SELF_TRANSFER_RUN, 3) == 5
  {
    var s1 := Storage(Some(OWNER), Some(Address(1)), map[], map[]);
    assert After(SELF_TRANSFER_RUN, 0) == FRESH && After(SELF_TRANSFER_RUN, 1) == s1;
    assert s1.balances[OWNER := 5] == map[OWNER := 5];
    var s2 := s1.(balances := map[OWNER := 5]);
    assert After(SELF_TRANSFER_RUN, 2) == s2;
    assert Run(s2, SELF_TRANSFER_RUN[2]).Ok?;
    assert Minted(SELF_TRANSFER_RUN, 1) == Burned(SELF_TRANSFER_RUN, 1) == SelfMoved(SELF_TRANSFER_RUN, 1) == 0;
    assert Minted(SELF_TRANSFER_RUN, 2) == 5 && Burned(SELF_TRANSFER_RUN, 2) == SelfMoved(SELF_TRANSFER_RUN, 2) == 0;
    SupplyIsAccounted(SELF_TRANSFER_RUN, 3);
  }

  /** Every accepted transfer was cleared by the gate for both parties, and authorised by the sender or by a
      spender within its allowance. */
  lemma TransfersAreClearedAndAuthorised(s: Storage, tx: Tx)
    requires IsTransfer(tx.call) && Run(s, tx).Ok?
    ensures var call := tx.call;
      && s.gate.Some?
      && tx.world.check(s.gate.value, call.from).Yes? && tx.world.check(s.gate.value, call.to).Yes?
      && (call.Transfer? ==> call.from in tx.auth)
      && (call.TransferFrom? ==> call.spender in tx.auth && call.amount <= Allowance(s, call.from, call.spender))
  {
    hide Move;
  }

  predicate NonNegative(s: Storage) {
    forall a :: a in s.balances ==> s.balances[a] >= 0
  }

  lemma StepKeepsNonNegative(s: Storage, tx: Tx)
    requires NonNegative(s)
    requires tx.call.Initialize? || tx.call.amount >= 0
    ensures NonNegative(Step(s, tx))
  {
    if Run(s, tx).Ok? && IsTransfer(tx.call) {
      TransferStep(s, tx);
    } else if Run(s, tx).Ok? && IsBurn(tx.call) {
      BurnStep(s, tx);
    } else {
      OtherStep(s, tx);
    }
    hide Run, Step;
  }

  /** With non-negative amounts no balance is ever negative. */
  lemma {:induction false} BalancesStayNonNegative(txs: seq<Tx>, n: nat)
    requires n <= |txs|
    requires forall i: nat :: i < n ==> txs[i].call.Initialize? || txs[i].call.amount >= 0
    ensures NonNegative(After(txs, n))
  {
    if n > 0 {
      BalancesStayNonNegative(txs, n - 1);
      StepKeepsNonNegative(After(txs, n - 1), txs[n - 1]);
    }
  }

  // ---- Allowances ------------------------------------------------------------------------------------------

  predicate Succeeded(txs: seq<Tx>, i: nat)
    requires i < |txs|
  {
    Run(After(txs, i), txs[i]).Ok?
  }

  predicate Grants(call: Call, owner: Address, spender: Address) {
    call.Approve? && call.from == owner && call.spender == spender
  }

  predicate Draws(call: Call, owner: Address, spender: Address) {
    (call.TransferFrom? || call.BurnFrom?) && call.from == owner && call.spender == spender
  }

  /** The amount of the last successful `approve` of `owner` for `spender`, or 0. */
  function Granted(txs: seq<Tx>, n: nat, owner: Address, spender: Address): int
    requires n <= |txs|
  {
    if n == 0 then 0
    else if Succeeded(txs, n - 1) && Grants(txs[n - 1].call, owner, spender) then txs[n - 1].call.amount
    else Granted(txs, n - 1, owner, spender)
  }

  /** What `spender` drew from `owner` since then. */
  function Drawn(txs: seq<Tx>, n: nat, owner: Address, spender: Address): int
    requires n <= |txs|
  {
    if n == 0 || (Succeeded(txs, n - 1) && Grants(txs[n - 1].call, owner, spender)) then 0
    else
      Drawn(txs, n - 1, owner, spender)
      + if Succeeded(txs, n - 1) && Draws(txs[n - 1].call, owner, spender) then txs[n - 1].call.amount else 0
  }

  lemma StepAllowances(s: Storage, tx: Tx)
    ensures var t, call := Step(s, tx), tx.call;
      if Run(s, tx).Ok? && call.Approve? then t.allowances == s.allowances[(call.from, call.spender) := call.amount]
      else if Run(s, tx).Ok? && (call.TransferFrom? || call.BurnFrom?) then
        && call.spender in tx.auth && call.amount <= Allowance(s, call.from, call.spender)
        && Allowance(s, call.from, call.spender) - call.amount <= MAX_I128
        && t.allowances ==
             s.allowances[(call.from, call.spender) := Allowance(s, call.from, call.spender) - call.amount]
      else t.allowances == s.allowances
  {
    hide GateCheck;
  }

  lemma StepChangesAllowance(s: Storage, tx: Tx, owner: Address, spender: Address)
    ensures Allowance(Step(s, tx), owner, spender) ==
      if Run(s, tx).Ok? && Grants(tx.call, owner, spender) then tx.call.amount
      else if Run(s, tx).Ok? && Draws(tx.call, owner, spender) then Allowance(s, owner, spender) - tx.call.amount
      else Allowance(s, owner, spender)
    ensures Run(s, tx).Ok? && Draws(tx.call, owner, spender) ==>
      spender in tx.auth && tx.call.amount <= Allowance(s, owner, spender)
  {
    StepAllowances(s, tx);
    hide Run, Step;
  }

  /** Per owner and spender, what was drawn since the last approval plus what remains is what was approved, and
      draws never exceed a non-negative approval. */
  lemma {:induction false} AllowanceIsAccounted(txs: seq<Tx>, n: nat, owner: Address, spender: Address)
    requires n <= |txs|
    ensures Drawn(txs, n, owner, spender) + Allowance(After(txs, n), owner, spender) == Granted(txs, n, owner, spender)
    ensures Granted(txs, n, owner, spender) >= 0 ==> Drawn(txs, n, owner, spender) <= Granted(txs, n, owner, spender)
  {
    if n > 0 {
      AllowanceIsAccounted(txs, n - 1, owner, spender);
      StepChangesAllowance(After(txs, n - 1), txs[n - 1], owner, spender);
      hide Run;
    }
  }

  /** The allowance stays within the last approval exactly while the draws since then do not sum below zero, so it
      can exceed the approval only after an accepted draw of a negative amount. */
  lemma AllowanceWithinApprovalExactlyWhen(txs: seq<Tx>, n: nat, owner: Address, spender: Address)
    requires n <= |txs|
    ensures Allowance(After(txs, n), owner, spender) <= Granted(txs, n, owner, spender) <==>
      Drawn(txs, n, owner, spender) >= 0
    ensures Allowance(After(txs, n), owner, spender) > Granted(txs, n, owner, spender) ==>
      exists i: nat :: i < n && DrewNegative(txs, i, owner, spender)
  {
    hide After, Granted, Allowance;
    AllowanceIsAccounted(txs, n, owner, spender);
    NegativeSumNeedsNegativeDraw(txs, n, owner, spender);
  }

  ghost predicate DrewNegative(txs: seq<Tx>, i: nat, owner: Address, spender: Address)
    requires i < |txs|
  {
    Succeeded(txs, i) && Draws(txs[i].call, owner, spender) && txs[i].call.amount < 0
  }

  lemma {:induction false} NegativeSumNeedsNegativeDraw(txs: seq<Tx>, n: nat, owner: Address, spender: Address)
    requires n <= |txs|
    ensures Drawn(txs, n, owner, spender) < 0 ==> exists i: nat :: i < n && DrewNegative(txs, i, owner, spender)
  {
    hide Succeeded, After;
    if n > 0 {
      NegativeSumNeedsNegativeDraw(txs, n - 1, owner, spender);
      assert DrewNegative(txs, n - 1, owner, spender) || Drawn(txs, n, owner, spender) >= 0
        || Drawn(txs, n - 1, owner, spender) < 0;
    }
  }

  const OTHER := Address(2)
  const SPENDER := Address(3)

  /** A spender whom nobody approved draws a negative amount, and then draws the allowance this leaves. */
  const SELF_RAISED_RUN := [
    Tx({OWNER}, OPEN_WORLD, Initialize(OWNER, Address(1))),
    Tx({SPENDER}, OPEN_WORLD, BurnFrom(SPENDER, OTHER, -5)),
    Tx({SPENDER}, OPEN_WORLD, TransferFrom(SPENDER, OTHER, SPENDER, 5))]

  /** An allowance can exceed what was approved: here 5 over an approval of 0, and the draw of 5 is accepted. */
  lemma NegativeDrawRaisesAllowance()
    ensures Granted(SELF_RAISED_RUN, 2, OTHER, SPENDER) == 0
    ensures Allowance(After(SELF_RAISED_RUN, 2), OTHER, SPENDER) == 5
    ensures Succeeded(SELF_RAISED_RUN, 2) && Balance(After(SELF_RAISED_RUN, 3), SPENDER) == 5
  {
    var s1 := Storage(Some(OWNER), Some(Address(1)), map[], map[]);
    assert After(SELF_RAISED_RUN, 0) == FRESH && After(SELF_RAISED_RUN, 1) == s1;
    assert s1.balances[OTHER := 5] == map[OTHER := 5];
    assert s1.allowances[(OTHER, SPENDER) := 5] == map[(OTHER, SPENDER) := 5];
    var s2 := Storage(Some(OWNER), Some(Address(1)), map[OTHER := 5], map[(OTHER, SPENDER) := 5]);
    assert Run(s1, SELF_RAISED_RUN[1]) == Ok(s2);
    assert After(SELF_RAISED_RUN, 2) == s2;
    assert Granted(SELF_RAISED_RUN, 1, OTHER, SPENDER) == 0;
    assert Run(s2, SELF_RAISED_RUN[2]).Ok?;
  }

  // ---- Whose balance may fall ------------------------------------------------------------------------------

  /** `a` authorised the transaction, or an authorised spender drew on `a` within the allowance stored for it (which
      negative draws can have raised, as above). */
  ghost predicate Entitled(s: Storage, tx: Tx, a: Address) {
    || a in tx.auth
    || ((tx.call.TransferFrom? || tx.call.BurnFrom?) && tx.call.from == a
        && tx.call.spender in tx.auth && tx.call.amount <= Allowance(s, a, tx.call.spender))
  }

  /** A negative amount minted to, or transferred to, someone else who did not authorise it. */
  predicate TakesFromRecipient(tx: Tx) {
    && (tx.call.Mint? || IsTransfer(tx.call)) && tx.call.amount < 0
    && tx.call.to !in tx.auth && !IsSelfTransfer(tx.call)
  }

  /** The change of one balance in an accepted call: the recipient gains the amount, the one debited loses it. */
  lemma StepChangesBalance(s: Storage, tx: Tx, a: Address)
    requires Run(s, tx).Ok?
    ensures var call := tx.call;
      var gain: int := if (call.Mint? || IsTransfer(call)) && call.to == a then call.amount else 0;
      var loss: int := if (IsTransfer(call) || IsBurn(call)) && !IsSelfTransfer(call) && call.from == a then call.amount else 0;
      Balance(Step(s, tx), a) == Balance(s, a) + gain - loss
  {
    if IsTransfer(tx.call) {
      TransferStep(s, tx);
    } else if IsBurn(tx.call) {
      BurnStep(s, tx);
    } else {
      OtherStep(s, tx);
    }
    hide Run, Step;
  }

  lemma DebitIsEntitled(s: Storage, tx: Tx)
    requires Run(s, tx).Ok? && (IsTransfer(tx.call) || IsBurn(tx.call))
    ensures Entitled(s, tx, tx.call.from)
  {
    StepAllowances(s, tx);
    hide GateCheck, Move, Destroy;
  }

  /** In an accepted call every address whose balance falls authorised it, or was drawn on by an authorised spender
      within its allowance, exactly unless the amount is negative and taken from a recipient who did not authorise. */
  lemma FallsAreEntitledExactlyUnless(s: Storage, tx: Tx)
    requires Run(s, tx).Ok?
    ensures (forall a :: Balance(Step(s, tx), a) < Balance(s, a) ==> Entitled(s, tx, a)) <==> !TakesFromRecipient(tx)
  {
    if IsTransfer(tx.call) || IsBurn(tx.call) {
      DebitIsEntitled(s, tx);
    }
    forall a
      ensures Balance(Step(s, tx), a) < Balance(s, a) ==> Entitled(s, tx, a) || (TakesFromRecipient(tx) && tx.call.to == a)
    {
      StepChangesBalance(s, tx, a);
      hide Run, Step;
    }
    if TakesFromRecipient(tx) {
      RecipientLoses(s, tx);
    }
    hide Run, Step, Balance;
  }

  lemma RecipientLoses(s: Storage, tx: Tx)
    requires Run(s, tx).Ok? && TakesFromRecipient(tx)
    ensures Balance(Step(s, tx), tx.call.to) < Balance(s, tx.call.to) && !Entitled(s, tx, tx.call.to)
  {
    StepChangesBalance(s, tx, tx.call.to);
    hide Run, Step, Balance;
  }

  /** With non-negative amounts no balance falls without that entitlement. */
  lemma NonNegativeFallsAreEntitled(s: Storage, tx: Tx, a: Address)
    requires tx.call.Initialize? || tx.call.amount >= 0
    requires Balance(Step(s, tx), a) < Balance(s, a)
    ensures Entitled(s, tx, a)
  {
    FallsAreEntitledExactlyUnless(s, tx);
    hide Run;
  }

  /** An accepted transfer of -5 that the recipient did not authorise lowers the recipient's balance by 5. */
  lemma NegativeTransferLowersRecipient()
    ensures var s := Storage(Some(OWNER), Some(Address(1)), map[OTHER := 5], map[]);
      var tx := Tx({OWNER}, OPEN_WORLD, Transfer(OWNER, OTHER, -5));
      Run(s, tx).Ok? && TakesFromRecipient(tx) && Balance(Step(s, tx), OTHER) == 0 && Balance(Step(s, tx), OWNER) == 5
  {
  }
}
