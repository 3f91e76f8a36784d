/** Who holds the roles of the jurisdiction flag, what its calls answer, and what each does to the codes of one address,
    over whole runs. */
module JurisdictionRules {
  import opened Host
  import opened Lists
  import opened JurisdictionFlag
  import opened JurisdictionModel
  import Runs

  // ---- Roles over runs -------------------------------------------------------------------------------------

  ghost predicate Appoints(s: Storage, tx: Tx, x: Address) {
    && Run(s, tx).Ok?
    && (tx.call == Initialize(x) || tx.call == AcceptIssuer(x) || (tx.call.TransferIssuer? && tx.call.newIssuer == x))
  }

  ghost predicate Hands(s: Storage, tx: Tx) {
    Run(s, tx).Ok? && (tx.call.Initialize? || tx.call.AcceptIssuer? || tx.call.TransferIssuer?)
  }

  ghost predicate Nominates(s: Storage, tx: Tx, x: Address) {
    Run(s, tx).Ok? && tx.call.ProposeIssuer? && tx.call.newIssuer == x
  }

  ghost predicate EndsNomination(s: Storage, tx: Tx) {
    && Run(s, tx).Ok?
    && (tx.call.ProposeIssuer? || tx.call.AcceptIssuer? || tx.call.CancelIssuerProposal? || tx.call.TransferIssuer?)
  }

  ghost predicate NamesOfficer(s: Storage, tx: Tx, x: Address) {
    Run(s, tx).Ok? && tx.call.SetOfficer? && tx.call.newOfficer == Some(x)
  }

  ghost predicate MovesOfficer(s: Storage, tx: Tx) {
    Run(s, tx).Ok? && tx.call.SetOfficer?
  }

  ghost predicate Pauses(s: Storage, tx: Tx) {
    Run(s, tx).Ok? && tx.call.SetPaused? && tx.call.pause
  }

  ghost predicate Resumes(s: Storage, tx: Tx) {
    Run(s, tx).Ok? && ((tx.call.SetPaused? && !tx.call.pause) || tx.call.Initialize?)
  }

  lemma FlagCallsKeepRoles(s: Storage, inherited: map<Address, string>, tx: Tx)
    requires Inv(s, inherited) && IsFlagCall(tx.call)
    ensures SameRoles(s, Step(s, tx))
  {
    EffectRefines(s, inherited, tx.ledger, tx.call);
    hide Guard, Effect, ModelEffect;
  }

  /** What a role call moves. */
  lemma RoleCallsMove(s: Storage, tx: Tx)
    requires !IsFlagCall(tx.call)
    ensures var t := Step(s, tx);
      if !Run(s, tx).Ok? then t == s
      else
        && t.issuer == (match tx.call
             case Initialize(x) => Some(x)
             case AcceptIssuer(x) => Some(x)
             case TransferIssuer(_, x) => Some(x)
             case _ => s.issuer)
        && t.pendingIssuer == (match tx.call
             case ProposeIssuer(_, x) => Some(x)
             case AcceptIssuer(_) => None
             case CancelIssuerProposal(_) => None
             case TransferIssuer(_, _) => None
             case _ => s.pendingIssuer)
        && t.officer == (if tx.call.SetOfficer? then tx.call.newOfficer else s.officer)
        && t.paused == (if tx.call.SetPaused? then tx.call.pause else if tx.call.Initialize? then false else s.paused)
  {
    hide Guard;
  }

  lemma RolesStep(s: Storage, inherited: map<Address, string>, tx: Tx, x: Address)
    requires Inv(s, inherited)
    ensures var t := Step(s, tx);
      && (t.issuer == Some(x) <==> Appoints(s, tx, x) || (s.issuer == Some(x) && !Hands(s, tx)))
      && (t.pendingIssuer == Some(x) <==> Nominates(s, tx, x) || (s.pendingIssuer == Some(x) && !EndsNomination(s, tx)))
      && (t.officer == Some(x) <==> NamesOfficer(s, tx, x) || (s.officer == Some(x) && !MovesOfficer(s, tx)))
      && (t.paused <==> Pauses(s, tx) || (s.paused && !Resumes(s, tx)))
  {
    hide Step, Run;
    if IsFlagCall(tx.call) {
      FlagCallsKeepRoles(s, inherited, tx);
    } else {
      RoleCallsMove(s, tx);
    }
  }

  /** Issuer, pending issuer, officer and pause are each what the last accepted call about them said. */
  lemma RolesHistory(inherited: map<Address, string>, txs: seq<Tx>, n: nat, x: Address)
    requires n <= |txs|
    ensures var start := Start(inherited);
      var s := After(start, txs, n);
      && (s.issuer == Some(x) <==>
            Runs.Since(Step, start, txs, n, (s, tx) => Appoints(s, tx, x), (s, tx) => Hands(s, tx)))
      && (s.pendingIssuer == Some(x) <==>
            Runs.Since(Step, start, txs, n, (s, tx) => Nominates(s, tx, x), (s, tx) => EndsNomination(s, tx)))
      && (s.officer == Some(x) <==>
            Runs.Since(Step, start, txs, n, (s, tx) => NamesOfficer(s, tx, x), (s, tx) => MovesOfficer(s, tx)))
      && (s.paused <==> Runs.Since(Step, start, txs, n, (s, tx) => Pauses(s, tx), (s, tx) => Resumes(s, tx)))
  {
    var start := Start(inherited);
    hide Appoints, Hands, Nominates, EndsNomination, NamesOfficer, MovesOfficer, Pauses, Resumes, Step;
    forall m: nat | m < n
      ensures var s, tx := After(start, txs, m), txs[m];
        var t := Step(s, tx);
        && (t.issuer == Some(x) <==> Appoints(s, tx, x) || (s.issuer == Some(x) && !Hands(s, tx)))
        && (t.pendingIssuer == Some(x) <==> Nominates(s, tx, x) || (s.pendingIssuer == Some(x) && !EndsNomination(s, tx)))
        && (t.officer == Some(x) <==> NamesOfficer(s, tx, x) || (s.officer == Some(x) && !MovesOfficer(s, tx)))
        && (t.paused <==> Pauses(s, tx) || (s.paused && !Resumes(s, tx)))
    {
      ReachableInv(inherited, txs, m);
      RolesStep(After(start, txs, m), inherited, txs[m], x);
    }
    Runs.HoldsSince(Step, start, txs, n, (s: Storage) => s.issuer == Some(x),
                    (s, tx) => Appoints(s, tx, x), (s, tx) => Hands(s, tx));
    Runs.HoldsSince(Step, start, txs, n, (s: Storage) => s.pendingIssuer == Some(x),
                    (s, tx) => Nominates(s, tx, x), (s, tx) => EndsNomination(s, tx));
    Runs.HoldsSince(Step, start, txs, n, (s: Storage) => s.officer == Some(x),
                    (s, tx) => NamesOfficer(s, tx, x), (s, tx) => MovesOfficer(s, tx));
    Runs.HoldsSince(Step, start, txs, n, (s: Storage) => s.paused, (s, tx) => Pauses(s, tx), (s, tx) => Resumes(s, tx));
  }

  // ---- What the calls answer -------------------------------------------------------------------------------

  /** What the role calls answer: the set-up once, acceptance by the pending address alone, and the rest for the issuer
      alone. None of them is stopped by a pause. */
  lemma RoleCallAnswers(inherited: map<Address, string>, txs: seq<Tx>, n: nat)
    requires n < |txs| && !IsFlagCall(txs[n].call)
    ensures var s, tx := After(Start(inherited), txs, n), txs[n];
      var r, c := Run(s, tx), tx.call.caller;
      if tx.call.Initialize? && s.issuer.Some? then r == Err(AlreadyInitialized)
      else if c !in tx.auth then r == Trap
      else if tx.call.Initialize? then r.Ok?
      else if tx.call.AcceptIssuer? then
        if s.pendingIssuer.None? then r == Err(NoPendingIssuer)
        else if s.pendingIssuer.value != c then r == Err(PendingIssuerMismatch)
        else r.Ok?
      else if s.issuer.None? then r == Err(NotInitialized)
      else if s.issuer.value != c then r == Err(NotAuthorized)
      else r.Ok?
  {
    PendingNeedsIssuer(inherited, txs, n);
    hide After;
  }

  lemma ReachableInv(inherited: map<Address, string>, txs: seq<Tx>, n: nat)
    requires n <= |txs|
    ensures Inv(After(Start(inherited), txs, n), inherited)
  {
    hide Guard, ModelEffect, ModelAfter, Run, After, Inv;
    StorageRefinesModel(inherited, txs, n);
  }

  lemma {:induction false} PendingNeedsIssuer(inherited: map<Address, string>, txs: seq<Tx>, n: nat)
    requires n <= |txs|
    ensures var s := After(Start(inherited), txs, n); s.pendingIssuer.Some? ==> s.issuer.Some?
  {
    if n > 0 {
      hide Step, Inv, Runs.After;
      Runs.AfterNext(Step, Start(inherited), txs, n - 1);
      PendingNeedsIssuer(inherited, txs, n - 1);
      ReachableInv(inherited, txs, n - 1);
      RolesStayConsistent(After(Start(inherited), txs, n - 1), inherited, txs[n - 1]);
    }
  }

  lemma RolesStayConsistent(s: Storage, inherited: map<Address, string>, tx: Tx)
    requires Inv(s, inherited) && (s.pendingIssuer.Some? ==> s.issuer.Some?)
    ensures Step(s, tx).pendingIssuer.Some? ==> Step(s, tx).issuer.Some?
  {
    hide Step, Effect;
    if IsFlagCall(tx.call) {
      FlagCallsKeepRoles(s, inherited, tx);
    } else {
      RoleCallsMove(s, tx);
    }
  }

  /** Two letters from A to Z. */
  predicate TwoCapitals(code: string) {
    |code| == 2 && forall c :: c in code ==> 'A' <= c <= 'Z'
  }

  lemma ValidCodeMeaning(code: string)
    ensures ValidCode(code) <==> TwoCapitals(code)
  {
    if |code| == 2 {
      assert code[0] in code && code[1] in code;
      assert forall c :: c in code ==> c == code[0] || c == code[1];
    }
  }

  /** Every answer of the calls about codes. The officer may set and add but not remove; nothing goes through while
      paused; a code must be two capitals, a batch hold 1 to 100 entries, an expiry not have passed, and an address
      have no more than eight codes. */
  lemma FlagCallAnswers(s: Storage, tx: Tx)
    requires IsFlagCall(tx.call)
    ensures var r, c := Run(s, tx), tx.call.caller;
      if c !in tx.auth then r == Trap
      else if s.issuer.None? then r == Err(NotInitialized)
      else if s.issuer.value != c && (s.officer != Some(c) || tx.call.RemoveJurisdiction? || tx.call.RemoveMultiple?) then
        r == Err(NotAuthorized)
      else if s.paused then r == Err(ContractPaused)
      else
        match tx.call
        case SetJurisdiction(_, _, code) => if !TwoCapitals(code) then r == Err(InvalidJurisdictionCode) else r.Ok?
        case SetMultiple(_, entries) =>
          if |entries| == 0 || |entries| > 100 then r == Err(InvalidInput)
          else if exists e :: e in entries && !TwoCapitals(e.1) then r == Err(InvalidJurisdictionCode)
          else r.Ok?
        case SetUntil(_, _, code, until) =>
          if !TwoCapitals(code) then r == Err(InvalidJurisdictionCode)
          else if until < tx.ledger then r == Err(InvalidInput)
          else r.Ok?
        case AddJurisdiction(_, a, code) =>
          if !TwoCapitals(code) then r == Err(InvalidJurisdictionCode)
          else if code !in Load(s, a) && |Load(s, a)| >= 8 then r == Err(TooManyCodes)
          else r.Ok?
        case _ => r.Ok?
  {
    hide Store, Replace, ReplaceAll, ClearAll, Load, Without, ValidCode, TwoCapitals;
    match tx.call {
      case SetJurisdiction(_, _, code) => ValidCodeMeaning(code);
      case SetUntil(_, _, code, _) => ValidCodeMeaning(code);
      case AddJurisdiction(_, _, code) => ValidCodeMeaning(code);
      case SetMultiple(_, entries) =>
        forall e | e in entries
          ensures ValidCode(e.1) <==> TwoCapitals(e.1)
        {
          ValidCodeMeaning(e.1);
        }
      case _ =>
    }
  }

  // ---- What the calls do to one address --------------------------------------------------------------------

  /** Entry `k` is the last about `b`. */
  predicate LastAbout(entries: seq<(Address, string)>, b: Address, k: nat) {
    k < |entries| && entries[k].0 == b && forall j :: k < j < |entries| ==> entries[j].0 != b
  }

  lemma {:induction false} AssignAllAt(m: Model, entries: seq<(Address, string)>, b: Address)
    ensures var t := AssignAll(m, entries);
      if exists k: nat :: LastAbout(entries, b, k) then
        exists k: nat :: LastAbout(entries, b, k) && b in t && t[b] == Entry([entries[k].1], None)
      else (b in t <==> b in m) && (b in m ==> t[b] == m[b])
  {
    if entries != [] {
      var rest, last := entries[..|entries| - 1], |entries| - 1;
      AssignAllAt(m, rest, b);
      if entries[last].0 == b {
        assert LastAbout(entries, b, last);
      } else {
        forall k: nat
          ensures LastAbout(entries, b, k) <==> LastAbout(rest, b, k)
        {
          assert forall j :: 0 <= j < |rest| ==> rest[j] == entries[j];
        }
      }
    }
  }

  /** The call is about `b`. */
  predicate IsAbout(call: Call, b: Address) {
    match call
    case SetJurisdiction(_, a, _) => a == b
    case SetMultiple(_, entries) => exists k :: 0 <= k < |entries| && entries[k].0 == b
    case SetUntil(_, a, _, _) => a == b
    case AddJurisdiction(_, a, _) => a == b
    case RemoveJurisdiction(_, a, _) => a == b
    case RemoveMultiple(_, addresses) => b in addresses
    case _ => false
  }

  /** What an accepted call leaves `b` with: setting replaces the codes and the expiry, in a batch by its last entry
      about `b`; adding appends a new code and keeps the expiry; removing takes out that code alone, and the expiry with
      the last one; clearing leaves nothing; a call about others leaves codes and expiry as they were. */
  ghost predicate Acts(call: Call, b: Address, codes: seq<string>, expiry: Option<u32>, now: seq<string>, until: Option<u32>) {
    if !IsAbout(call, b) then now == codes && until == expiry
    else
      match call
      case SetJurisdiction(_, _, code) => now == [code] && until == None
      case SetMultiple(_, entries) => until == None && exists k: nat :: LastAbout(entries, b, k) && now == [entries[k].1]
      case SetUntil(_, _, code, u) => now == [code] && until == Some(u)
      case AddJurisdiction(_, _, code) => now == (if code in codes then codes else codes + [code]) && until == expiry
      case RemoveJurisdiction(_, _, code) =>
        (if code in codes then TakesOut(codes, now, code) else now == codes) && until == if now == [] then None else expiry
      case RemoveMultiple(_, _) => now == [] && until == None
      case _ => true
  }

  lemma ModelActs(m: Model, ledger: u32, call: Call, b: Address)
    requires IsFlagCall(call) && ModelEffect(m, ledger, call).Ok?
    requires forall a :: a in m ==> m[a].codes != []
    requires Distinct(CodesOf(m, b))
    ensures var t := ModelEffect(m, ledger, call).value;
      Acts(call, b, CodesOf(m, b), if b in m then m[b].expiry else None,
           CodesOf(t, b), if b in t then t[b].expiry else None)
  {
    hide ValidCode, TakesOut, Without;
    match call {
      case SetMultiple(_, entries) =>
        AssignAllAt(m, entries, b);
        LastAboutExists(entries, b);
        hide AssignAll;
      case RemoveJurisdiction(_, a, code) =>
        WithoutMembers(CodesOf(m, b), code);
        if code in CodesOf(m, b) { WithoutTakesOut(CodesOf(m, b), code); }
      case _ =>
    }
  }

  lemma {:induction false} LastAboutExists(entries: seq<(Address, string)>, b: Address)
    ensures (exists k: nat :: LastAbout(entries, b, k)) <==> exists k :: 0 <= k < |entries| && entries[k].0 == b
  {
    if k :| 0 <= k < |entries| && entries[k].0 == b {
      var last := |entries| - 1;
      if entries[last].0 == b {
        assert LastAbout(entries, b, last);
      } else {
        var rest := entries[..last];
        assert rest[k].0 == b;
        LastAboutExists(rest, b);
        var i: nat :| LastAbout(rest, b, i);
        assert LastAbout(entries, b, i);
      }
    }
  }

  /** In every run an accepted call about codes acts on each address in exactly this way. */
  lemma CallsActOnEachAddress(inherited: map<Address, string>, txs: seq<Tx>, n: nat, b: Address)
    requires n < |txs| && IsFlagCall(txs[n].call) && Run(After(Start(inherited), txs, n), txs[n]).Ok?
    ensures var s, t := After(Start(inherited), txs, n), After(Start(inherited), txs, n + 1);
      Acts(txs[n].call, b, Load(s, b), ExpiryOf(s, b), Load(t, b), ExpiryOf(t, b))
  {
    var s, tx := After(Start(inherited), txs, n), txs[n];
    ReachableInv(inherited, txs, n);
    EffectRefines(s, inherited, tx.ledger, tx.call);
    LoadIsModel(s, inherited, b);
    LoadIsModel(Step(s, tx), inherited, b);
    CodesAreNonEmpty(s, inherited);
    hide Effect, ModelEffect, Guard, Load, Abs, ExpiryOf, Acts, Inv;
    ModelActs(Abs(s), tx.ledger, tx.call, b);
  }

  lemma CodesAreNonEmpty(s: Storage, inherited: map<Address, string>)
    requires Inv(s, inherited)
    ensures forall a :: a in Abs(s) ==> Abs(s)[a].codes != []
  {
    forall a | a in Abs(s)
      ensures Abs(s)[a].codes != []
    {
      assert EntryInv(s, inherited, a);
    }
  }

  lemma UnrelatedStep(inherited: map<Address, string>, txs: seq<Tx>, m: nat, b: Address)
    requires m < |txs|
    requires Run(After(Start(inherited), txs, m), txs[m]).Ok? ==> !IsAbout(txs[m].call, b)
    ensures var s, t := After(Start(inherited), txs, m), After(Start(inherited), txs, m + 1);
      Load(t, b) == Load(s, b) && ExpiryOf(t, b) == ExpiryOf(s, b)
  {
    hide Run, IsAbout, Runs.After;
    Runs.AfterNext(Step, Start(inherited), txs, m);
    var s := After(Start(inherited), txs, m);
    if !IsFlagCall(txs[m].call) {
      RoleCallsKeepCodes(s, txs[m]);
      hide Step;
    } else if Run(s, txs[m]).Ok? {
      CallsActOnEachAddress(inherited, txs, m, b);
    }
  }

  lemma ActiveMeaning(s: Storage, ledger: u32, b: Address)
    ensures Active(s, ledger, b) ==
      if ExpiryOf(s, b).Some? && ledger > ExpiryOf(s, b).value then [] else Load(s, b)
  {
    hide Load;
  }

  /** An address that no accepted call was about shows its original legacy code alone, or nothing, and never expires. */
  lemma {:induction false} UntouchedKeepsLegacy(inherited: map<Address, string>, txs: seq<Tx>, n: nat, b: Address)
    requires n <= |txs|
    requires forall i: nat :: i < n && Run(After(Start(inherited), txs, i), txs[i]).Ok? ==> !IsAbout(txs[i].call, b)
    ensures var s := After(Start(inherited), txs, n);
      && Load(s, b) == (if b in inherited then [inherited[b]] else [])
      && ExpiryOf(s, b) == None
    ensures forall ledger: u32 ::
      Active(After(Start(inherited), txs, n), ledger, b) == if b in inherited then [inherited[b]] else []
  {
    hide Run, IsAbout, Active;
    if n > 0 {
      hide After, Load, ExpiryOf;
      UntouchedKeepsLegacy(inherited, txs, n - 1, b);
      UnrelatedStep(inherited, txs, n - 1, b);
    }
    forall ledger: u32
      ensures Active(After(Start(inherited), txs, n), ledger, b) == if b in inherited then [inherited[b]] else []
    {
      ActiveMeaning(After(Start(inherited), txs, n), ledger, b);
    }
  }

  /** A code set until a ledger shows through that ledger and no longer, as long as no accepted call is about its
      address. */
  lemma {:induction false} ShownUntilExpiry(inherited: map<Address, string>, txs: seq<Tx>, i: nat, n: nat, ledger: u32)
    requires i < n <= |txs| && txs[i].call.SetUntil? && Run(After(Start(inherited), txs, i), txs[i]).Ok?
    requires forall j: nat :: i < j < n && Run(After(Start(inherited), txs, j), txs[j]).Ok? ==>
      !IsAbout(txs[j].call, txs[i].call.address)
    ensures var s, SetUntil(_, b, code, until) := After(Start(inherited), txs, n), txs[i].call;
      && Load(s, b) == [code] && ExpiryOf(s, b) == Some(until)
      && Active(s, ledger, b) == if ledger <= until then [code] else []
    decreases n
  {
    hide Run, After, Load, ExpiryOf, Active;
    var b := txs[i].call.address;
    if i < n - 1 {
      hide IsAbout;
      ShownUntilExpiry(inherited, txs, i, n - 1, ledger);
      UnrelatedStep(inherited, txs, n - 1, b);
    } else {
      CallsActOnEachAddress(inherited, txs, i, b);
    }
    ActiveMeaning(After(Start(inherited), txs, n), ledger, b);
  }

  /** In every run each address has at most eight codes, without repeats, each two capitals or its original legacy
      code. */
  lemma CodesStayAdmissible(inherited: map<Address, string>, txs: seq<Tx>, n: nat, b: Address)
    requires n <= |txs|
    ensures var codes := Load(After(Start(inherited), txs, n), b);
      && |codes| <= 8 && Distinct(codes)
      && forall c :: c in codes ==> TwoCapitals(c) || (b in inherited && c == inherited[b])
  {
    hide Load, TwoCapitals, ValidCode;
    ReachableInv(inherited, txs, n);
    LoadIsModel(After(Start(inherited), txs, n), inherited, b);
    forall c: string
      ensures ValidCode(c) <==> TwoCapitals(c)
    {
      ValidCodeMeaning(c);
    }
  }
}
