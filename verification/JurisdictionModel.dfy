/** The three storage keys against one simple map from addresses to codes with an optional expiry. */
module JurisdictionModel {
  import opened Host
  import opened Lists
  import opened JurisdictionFlag

  datatype Entry = Entry(codes: seq<string>, expiry: Option<u32>)

  type Model = map<Address, Entry>

  // ---- The simple model ------------------------------------------------------------------------------------

  function CodesOf(m: Model, a: Address): seq<string> {
    if a in m then m[a].codes else []
  }

  function AssignAll(m: Model, entries: seq<(Address, string)>): Model {
    if entries == [] then m
    else AssignAll(m, entries[..|entries| - 1])[entries[|entries| - 1].0 := Entry([entries[|entries| - 1].1], None)]
  }

  function ModelEffect(m: Model, ledger: u32, call: Call): Outcome<Model, Error>
    requires IsFlagCall(call)
  {
    match call
    case SetJurisdiction(_, a, code) =>
      if !ValidCode(code) then Err(InvalidJurisdictionCode) else Ok(m[a := Entry([code], None)])
    case SetMultiple(_, entries) =>
      if entries == [] || |entries| > MAX_BATCH_SIZE then Err(InvalidInput)
      else if exists e :: e in entries && !ValidCode(e.1) then Err(InvalidJurisdictionCode)
      else Ok(AssignAll(m, entries))
    case SetUntil(_, a, code, until) =>
      if !ValidCode(code) then Err(InvalidJurisdictionCode)
      else if until < ledger then Err(InvalidInput)
      else Ok(m[a := Entry([code], Some(until))])
    case AddJurisdiction(_, a, code) =>
      if !ValidCode(code) then Err(InvalidJurisdictionCode)
      else if code in CodesOf(m, a) then Ok(m)
      else if |CodesOf(m, a)| >= MAX_CODES_PER_ADDRESS then Err(TooManyCodes)
      else Ok(m[a := Entry(CodesOf(m, a) + [code], if a in m then m[a].expiry else None)])
    case RemoveJurisdiction(_, a, code) =>
      var rest := Without(CodesOf(m, a), code);
      Ok(if rest == [] then m - {a} else m[a := m[a].(codes := rest)])
    case RemoveMultiple(_, addresses) => Ok(m - Members(addresses))
  }

  function ModelActive(m: Model, ledger: u32, a: Address): seq<string> {
    if a !in m || (m[a].expiry.Some? && m[a].expiry.value < ledger) then [] else m[a].codes
  }

  // ---- Abstraction and invariant ---------------------------------------------------------------------------

  function ExpiryOf(s: Storage, a: Address): Option<u32> {
    if a in s.validUntil then Some(s.validUntil[a]) else None
  }

  function Abs(s: Storage): Model {
    map a | a in s.list.Keys + s.legacy.Keys :: Entry(Load(s, a), ExpiryOf(s, a))
  }

  /** The storage of a contract whose earlier version left `inherited` legacy codes; a new contract has none. */
  function Start(inherited: map<Address, string>): Storage {
    Storage(None, None, None, false, map[], inherited, map[])
  }

  /** A stored list is non-empty, duplicate-free, bounded, mirrored by its head under the legacy key; an address
      without a list still shows its original legacy code; an expiry exists only beside a list; and every code is
      valid or the original legacy code of its address. */
  ghost predicate EntryInv(s: Storage, inherited: map<Address, string>, a: Address) {
    && (a in s.list ==>
          && s.list[a] != [] && Distinct(s.list[a]) && |s.list[a]| <= MAX_CODES_PER_ADDRESS
          && a in s.legacy && s.legacy[a] == s.list[a][0])
    && (a in s.legacy && a !in s.list ==> a in inherited && s.legacy[a] == inherited[a])
    && (a in s.validUntil ==> a in s.list)
    && (forall c :: c in Load(s, a) ==> ValidCode(c) || (a in inherited && c == inherited[a]))
  }

  predicate SameRoles(s: Storage, t: Storage) {
    s.issuer == t.issuer && s.pendingIssuer == t.pendingIssuer && s.officer == t.officer && s.paused == t.paused
  }

  ghost predicate Inv(s: Storage, inherited: map<Address, string>) {
    forall a :: EntryInv(s, inherited, a)
  }

  lemma StoreElsewhere(s: Storage, a: Address, codes: seq<string>, b: Address)
    requires b != a
    ensures var t := Store(s, a, codes);
      && Load(t, b) == Load(s, b) && ExpiryOf(t, b) == ExpiryOf(s, b)
      && (b in t.list <==> b in s.list) && (b in t.legacy <==> b in s.legacy)
      && (b in s.list ==> t.list[b] == s.list[b]) && (b in s.legacy ==> t.legacy[b] == s.legacy[b])
  {
  }

  lemma StoreKeepsInv(s: Storage, inherited: map<Address, string>, a: Address, codes: seq<string>)
    requires Inv(s, inherited)
    requires codes != [] ==> Distinct(codes) && |codes| <= MAX_CODES_PER_ADDRESS
    requires forall c :: c in codes ==> ValidCode(c) || (a in inherited && c == inherited[a])
    ensures Inv(Store(s, a, codes), inherited) && SameRoles(s, Store(s, a, codes))
    ensures Abs(Store(s, a, codes)) == if codes == [] then Abs(s) - {a} else Abs(s)[a := Entry(codes, ExpiryOf(s, a))]
  {
    var t := Store(s, a, codes);
    forall b
      ensures EntryInv(t, inherited, b)
    {
      assert EntryInv(s, inherited, b);
      if b != a {
        StoreElsewhere(s, a, codes, b);
        hide Store;
      }
    }
    StoreAbs(s, a, codes);
    hide Store, Abs, EntryInv;
  }

  /** What the model sees of `b`. */
  function Seen(s: Storage, b: Address): Option<Entry> {
    if b in s.list || b in s.legacy then Some(Entry(Load(s, b), ExpiryOf(s, b))) else None
  }

  lemma SeenAfterStore(s: Storage, a: Address, codes: seq<string>, b: Address)
    ensures Seen(Store(s, a, codes), b) ==
      if b != a then Seen(s, b) else if codes == [] then None else Some(Entry(codes, ExpiryOf(s, a)))
  {
  }

  lemma AbsIsSeen(s: Storage)
    ensures forall b ::
      (b in Abs(s) <==> Seen(s, b).Some?) && (b in Abs(s) ==> Abs(s)[b] == Seen(s, b).value)
  {
    hide Load, ExpiryOf;
  }

  /** Two storages that differ, as the model sees them, in one address. */
  lemma AbsDiffersAt(s: Storage, t: Storage, a: Address, e: Option<Entry>)
    requires forall b :: Seen(t, b) == if b != a then Seen(s, b) else e
    ensures Abs(t) == if e.None? then Abs(s) - {a} else Abs(s)[a := e.value]
  {
    AbsIsSeen(s);
    AbsIsSeen(t);
    hide Abs, Seen;
  }

  lemma StoreAbs(s: Storage, a: Address, codes: seq<string>)
    ensures Abs(Store(s, a, codes)) == if codes == [] then Abs(s) - {a} else Abs(s)[a := Entry(codes, ExpiryOf(s, a))]
  {
    hide Abs, Store, Seen, ExpiryOf;
    var t := Store(s, a, codes);
    var e := if codes == [] then None else Some(Entry(codes, ExpiryOf(s, a)));
    forall b
      ensures Seen(t, b) == if b != a then Seen(s, b) else e
    {
      SeenAfterStore(s, a, codes, b);
    }
    AbsDiffersAt(s, t, a, e);
  }

  lemma ReplaceKeepsInv(s: Storage, inherited: map<Address, string>, a: Address, code: string, until: Option<u32>)
    requires Inv(s, inherited) && ValidCode(code)
    ensures Inv(Replace(s, a, code, until), inherited) && SameRoles(s, Replace(s, a, code, until))
    ensures Abs(Replace(s, a, code, until)) == Abs(s)[a := Entry([code], until)]
  {
    var t, u := Store(s, a, [code]), Replace(s, a, code, until);
    StoreKeepsInv(s, inherited, a, [code]);
    hide Distinct, ValidCode;
    forall b
      ensures EntryInv(u, inherited, b)
    {
      assert EntryInv(t, inherited, b);
    }
    ReplaceAbs(s, a, code, until);
    hide Replace, Store, Abs, EntryInv;
  }

  lemma SeenAfterReplace(s: Storage, a: Address, code: string, until: Option<u32>, b: Address)
    ensures Seen(Replace(s, a, code, until), b) == if b != a then Seen(s, b) else Some(Entry([code], until))
  {
  }

  lemma ReplaceAbs(s: Storage, a: Address, code: string, until: Option<u32>)
    ensures Abs(Replace(s, a, code, until)) == Abs(s)[a := Entry([code], until)]
  {
    hide Abs, Replace, Seen;
    var t := Replace(s, a, code, until);
    forall b
      ensures Seen(t, b) == if b != a then Seen(s, b) else Some(Entry([code], until))
    {
      SeenAfterReplace(s, a, code, until, b);
    }
    AbsDiffersAt(s, t, a, Some(Entry([code], until)));
  }

  lemma {:induction false} ReplaceAllKeepsInv(s: Storage, inherited: map<Address, string>, entries: seq<(Address, string)>)
    requires Inv(s, inherited) && forall e :: e in entries ==> ValidCode(e.1)
    ensures Inv(ReplaceAll(s, entries), inherited)
    ensures Abs(ReplaceAll(s, entries)) == AssignAll(Abs(s), entries)
    ensures SameRoles(s, ReplaceAll(s, entries))
  {
    if entries != [] {
      var rest, last := entries[..|entries| - 1], entries[|entries| - 1];
      ReplaceAllKeepsInv(s, inherited, rest);
      ReplaceKeepsInv(ReplaceAll(s, rest), inherited, last.0, last.1, None);
    }
  }

  lemma {:induction false} ClearAllKeepsInv(s: Storage, inherited: map<Address, string>, addresses: seq<Address>)
    requires Inv(s, inherited)
    ensures Inv(ClearAll(s, addresses), inherited)
    ensures Abs(ClearAll(s, addresses)) == Abs(s) - Members(addresses)
    ensures SameRoles(s, ClearAll(s, addresses))
  {
    if addresses != [] {
      var rest, last := addresses[..|addresses| - 1], addresses[|addresses| - 1];
      ClearAllKeepsInv(s, inherited, rest);
      StoreKeepsInv(ClearAll(s, rest), inherited, last, []);
      assert Members(addresses) == Members(rest) + {last};
    }
  }

  // ---- Refinement ------------------------------------------------------------------------------------------

  lemma LoadIsModel(s: Storage, inherited: map<Address, string>, a: Address)
    requires Inv(s, inherited)
    ensures Load(s, a) == CodesOf(Abs(s), a)
    ensures Distinct(Load(s, a)) && |Load(s, a)| <= MAX_CODES_PER_ADDRESS
    ensures forall c :: c in Load(s, a) ==> ValidCode(c) || (a in inherited && c == inherited[a])
    ensures if a in Abs(s) then Abs(s)[a] == Entry(Load(s, a), ExpiryOf(s, a)) else ExpiryOf(s, a).None? && Load(s, a) == []
  {
    assert EntryInv(s, inherited, a);
  }

  lemma DistinctSnoc(codes: seq<string>, code: string)
    requires Distinct(codes) && code !in codes
    ensures Distinct(codes + [code])
  {
  }

  /** Every jurisdiction call does to the three keys what the model does to one map, with the same errors. */
  lemma EffectRefines(s: Storage, inherited: map<Address, string>, ledger: u32, call: Call)
    requires Inv(s, inherited) && IsFlagCall(call)
    ensures match ModelEffect(Abs(s), ledger, call)
      case Ok(m) =>
        var t := Effect(s, ledger, call);
        t.Ok? && Abs(t.value) == m && Inv(t.value, inherited) && SameRoles(s, t.value)
      case Err(e) => Effect(s, ledger, call) == Err(e)
      case Trap => false
  {
    hide Replace, ReplaceAll, ClearAll, Store, AssignAll, Without, EntryInv, Abs, ValidCode, Distinct;
    match call {
      case SetJurisdiction(_, a, code) => if ValidCode(code) { ReplaceKeepsInv(s, inherited, a, code, None); }
      case SetUntil(_, a, code, until) => if ValidCode(code) { ReplaceKeepsInv(s, inherited, a, code, Some(until)); }
      case SetMultiple(_, entries) =>
        if forall e :: e in entries ==> ValidCode(e.1) { ReplaceAllKeepsInv(s, inherited, entries); }
      case AddJurisdiction(_, a, code) =>
        LoadIsModel(s, inherited, a);
        if ValidCode(code) && code !in Load(s, a) && |Load(s, a)| < MAX_CODES_PER_ADDRESS {
          DistinctSnoc(Load(s, a), code);
          StoreKeepsInv(s, inherited, a, Load(s, a) + [code]);
        }
      case RemoveJurisdiction(_, a, code) =>
        LoadIsModel(s, inherited, a);
        WithoutMembers(Load(s, a), code);
        WithoutDistinct(Load(s, a), code);
        StoreKeepsInv(s, inherited, a, Without(Load(s, a), code));
      case RemoveMultiple(_, addresses) => ClearAllKeepsInv(s, inherited, addresses);
    }
  }

  lemma RoleCallsKeepCodes(s: Storage, tx: Tx)
    requires !IsFlagCall(tx.call)
    ensures var t := Step(s, tx); t.list == s.list && t.legacy == s.legacy && t.validUntil == s.validUntil
  {
    hide Guard, Effect;
    RoleEffectKeepsCodes(s, tx.ledger, tx.call);
  }

  lemma RoleEffectKeepsCodes(s: Storage, ledger: u32, call: Call)
    requires !IsFlagCall(call)
    ensures var r := Effect(s, ledger, call);
      r.Ok? && r.value.list == s.list && r.value.legacy == s.legacy && r.value.validUntil == s.validUntil
  {
  }

  lemma StepKeepsInv(s: Storage, inherited: map<Address, string>, tx: Tx)
    requires Inv(s, inherited)
    ensures Inv(Step(s, tx), inherited)
    ensures !IsFlagCall(tx.call) ==> Abs(Step(s, tx)) == Abs(s)
  {
    hide Guard, Effect;
    if IsFlagCall(tx.call) {
      EffectRefines(s, inherited, tx.ledger, tx.call);
    } else {
      RoleCallsKeepCodes(s, tx);
      forall a
        ensures EntryInv(Step(s, tx), inherited, a)
      {
        assert EntryInv(s, inherited, a);
      }
    }
  }

  /** The model's run: a call that the contract's guards let through acts on the model, and a refused one does not. */
  function ModelAfter(s: Storage, txs: seq<Tx>, n: nat): Model
    requires n <= |txs|
  {
    if n == 0 then Abs(s)
    else
      var m, tx := ModelAfter(s, txs, n - 1), txs[n - 1];
      if !IsFlagCall(tx.call) || !Guard(After(s, txs, n - 1), tx.auth, tx.call).Ok? then m
      else
        var r := ModelEffect(m, tx.ledger, tx.call);
        if r.Ok? then r.value else m
  }

  /** Over every run from a fresh or legacy-only contract the storage invariant holds, the storage abstracts to
      the model's state, and each guarded call is accepted or refused exactly as the model says. */
  lemma {:induction false} StorageRefinesModel(inherited: map<Address, string>, txs: seq<Tx>, n: nat)
    requires n <= |txs|
    ensures Inv(After(Start(inherited), txs, n), inherited)
    ensures Abs(After(Start(inherited), txs, n)) == ModelAfter(Start(inherited), txs, n)
    ensures forall tx: Tx ::
      IsFlagCall(tx.call) && Guard(After(Start(inherited), txs, n), tx.auth, tx.call).Ok? ==>
        match ModelEffect(ModelAfter(Start(inherited), txs, n), tx.ledger, tx.call)
        case Ok(_) => Run(After(Start(inherited), txs, n), tx).Ok?
        case Err(e) => Run(After(Start(inherited), txs, n), tx) == Err(e)
        case Trap => false
  {
    var s := Start(inherited);
    hide Effect, ModelEffect, Guard;
    if n == 0 {
      forall a ensures EntryInv(s, inherited, a) {}
    } else {
      StorageRefinesModel(inherited, txs, n - 1);
      var before, tx := After(s, txs, n - 1), txs[n - 1];
      StepKeepsInv(before, inherited, tx);
      if IsFlagCall(tx.call) {
        EffectRefines(before, inherited, tx.ledger, tx.call);
      }
    }
    var now := After(s, txs, n);
    forall tx: Tx | IsFlagCall(tx.call) && Guard(now, tx.auth, tx.call).Ok?
      ensures match ModelEffect(Abs(now), tx.ledger, tx.call)
        case Ok(_) => Run(now, tx).Ok?
        case Err(e) => Run(now, tx) == Err(e)
        case Trap => false
    {
      EffectRefines(now, inherited, tx.ledger, tx.call);
    }
  }

  /** In every reachable state the views show the model's codes, and none after the expiry. */
  lemma ViewsShowModel(inherited: map<Address, string>, txs: seq<Tx>, n: nat, ledger: u32, a: Address)
    requires n <= |txs|
    ensures Active(After(Start(inherited), txs, n), ledger, a) == ModelActive(ModelAfter(Start(inherited), txs, n), ledger, a)
  {
    StorageRefinesModel(inherited, txs, n);
    assert EntryInv(After(Start(inherited), txs, n), inherited, a);
  }

  /** Codes move only for an authorised issuer or officer of an unpaused contract, and shrink only for the issuer. */
  lemma CodesMoveByAuthority(inherited: map<Address, string>, s: Storage, tx: Tx, a: Address)
    requires Inv(s, inherited) && Load(Step(s, tx), a) != Load(s, a)
    ensures IsFlagCall(tx.call) && !s.paused && tx.call.caller in tx.auth
    ensures s.issuer == Some(tx.call.caller) || s.officer == Some(tx.call.caller)
    ensures tx.call.RemoveJurisdiction? || tx.call.RemoveMultiple? ==> s.issuer == Some(tx.call.caller)
    ensures tx.call.AddJurisdiction? ==> a == tx.call.address && Load(Step(s, tx), a) == Load(s, a) + [tx.call.code]
  {
    if IsFlagCall(tx.call) {
      if tx.call.AddJurisdiction? && a != tx.call.address {
        StoreElsewhere(s, tx.call.address, Load(s, tx.call.address) + [tx.call.code], a);
      }
      hide ReplaceAll, ClearAll, Replace, Without, ValidCode;
    } else {
      RoleCallsKeepCodes(s, tx);
      hide Step;
    }
  }

  /** The expiry covers every code added later. Adding to an address whose expiry has passed is accepted like any
      other addition, stores the code and keeps the expiry, and the address still shows nothing. */
  lemma AddingDoesNotRenew(inherited: map<Address, string>, s: Storage, tx: Tx)
    requires Inv(s, inherited) && tx.call.AddJurisdiction?
    requires tx.call.address in s.validUntil && s.validUntil[tx.call.address] < tx.ledger
    ensures Run(s, tx).Ok? <==>
      && Guard(s, tx.auth, tx.call).Ok? && ValidCode(tx.call.code)
      && (tx.call.code in Load(s, tx.call.address) || |Load(s, tx.call.address)| < MAX_CODES_PER_ADDRESS)
    ensures Run(s, tx).Ok? ==> tx.call.code in Load(Step(s, tx), tx.call.address)
    ensures Active(Step(s, tx), tx.ledger, tx.call.address) == []
    ensures Step(s, tx).validUntil == s.validUntil
  {
  }

  // ---- The batch is the fold -------------------------------------------------------------------------------

  /** `entries` one by one, as calls of `set_jurisdiction` with the batch's caller, authorisation and ledger. */
  function Singles(batch: Tx): seq<Tx>
    requires batch.call.SetMultiple?
  {
    seq(|batch.call.entries|, k requires 0 <= k < |batch.call.entries| =>
      batch.(call := SetJurisdiction(batch.call.caller, batch.call.entries[k].0, batch.call.entries[k].1)))
  }

  lemma SingleStep(s: Storage, batch: Tx, k: nat)
    requires batch.call.SetMultiple? && k < |batch.call.entries|
    requires Guard(s, batch.auth, batch.call).Ok? && ValidCode(batch.call.entries[k].1)
    ensures Step(s, Singles(batch)[k]) == Replace(s, batch.call.entries[k].0, batch.call.entries[k].1, None)
    ensures SameRoles(s, Step(s, Singles(batch)[k]))
    ensures Guard(Step(s, Singles(batch)[k]), batch.auth, batch.call).Ok?
  {
    assert Singles(batch)[k].call.SetJurisdiction?;
  }

  lemma {:induction false} FoldOfSingles(s: Storage, batch: Tx, n: nat)
    requires batch.call.SetMultiple? && n <= |batch.call.entries|
    requires Guard(s, batch.auth, batch.call).Ok?
    requires forall k :: 0 <= k < n ==> ValidCode(batch.call.entries[k].1)
    ensures After(s, Singles(batch), n) == ReplaceAll(s, batch.call.entries[..n])
    ensures Guard(After(s, Singles(batch), n), batch.auth, batch.call).Ok?
  {
    if n > 0 {
      FoldOfSingles(s, batch, n - 1);
      assert batch.call.entries[..n][..n - 1] == batch.call.entries[..n - 1];
      var before := After(s, Singles(batch), n - 1);
      SingleStep(before, batch, n - 1);
      hide Guard, Step, Run, Replace, Singles;
    }
  }

  lemma SingleAccepted(s: Storage, batch: Tx, k: nat)
    requires batch.call.SetMultiple? && k < |batch.call.entries|
    ensures Run(s, Singles(batch)[k]).Ok? <==>
      Guard(s, batch.auth, batch.call).Ok? && ValidCode(batch.call.entries[k].1)
  {
    assert Singles(batch)[k].call.SetJurisdiction?;
  }

  lemma BatchAccepted(s: Storage, batch: Tx)
    requires batch.call.SetMultiple? && 1 <= |batch.call.entries| <= MAX_BATCH_SIZE
    ensures var ok := Guard(s, batch.auth, batch.call).Ok?
        && forall k :: 0 <= k < |batch.call.entries| ==> ValidCode(batch.call.entries[k].1);
      && (Run(s, batch).Ok? <==> ok)
      && (ok ==> Run(s, batch).value == ReplaceAll(s, batch.call.entries))
  {
    var entries := batch.call.entries;
    assert forall e :: e in entries <==> exists k :: 0 <= k < |entries| && entries[k] == e;
  }

  /** `set_multiple_jurisdictions` of 1 to 100 entries is accepted exactly when every entry would be accepted on
      its own, and then leaves what setting them one after another leaves; otherwise it changes nothing. */
  lemma BatchIsFoldOrNothing(s: Storage, batch: Tx)
    requires batch.call.SetMultiple? && 1 <= |batch.call.entries| <= MAX_BATCH_SIZE
    ensures Run(s, batch).Ok? <==>
      forall k :: 0 <= k < |batch.call.entries| ==> Run(s, Singles(batch)[k]).Ok?
    ensures Step(s, batch) == if Run(s, batch).Ok? then After(s, Singles(batch), |batch.call.entries|) else s
  {
    var entries := batch.call.entries;
    BatchAccepted(s, batch);
    forall k | 0 <= k < |entries|
      ensures Run(s, Singles(batch)[k]).Ok? <==> Guard(s, batch.auth, batch.call).Ok? && ValidCode(entries[k].1)
    {
      SingleAccepted(s, batch, k);
    }
    SingleAccepted(s, batch, 0);
    hide Run, Guard, Singles;
    if Run(s, batch).Ok? {
      FoldOfSingles(s, batch, |entries|);
      assert entries[..|entries|] == entries;
    }
  }
}
