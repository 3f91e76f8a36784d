/** Administration of the denylist gate: admin handover, the M-of-N signer set and the delayed upgrade. */
module DenylistGate {
  import opened Host
  import Runs
  import opened Lists

  const MIN_UPGRADE_DELAY_LEDGERS: u32 := 17_280

  datatype Error =
    | NotInitialized | AlreadyInitialized | NotAuthorized | InvalidThreshold | InvalidSignerSet | SignerNotInSet
    | UpgradeNotReady | SignerAlreadyExists | MultisigNotEnabled | NoPendingAdmin | PendingAdminMismatch
    | UpgradeDelayTooShort

  datatype SignerSet = SignerSet(signers: seq<Address>, threshold: u32)

  datatype SignerAction = Add(who: Address) | Remove(who: Address) | SetThreshold(n: u32)

  datatype UpgradeState = UpgradeState(newWasm: WasmHash, activatedAt: u64)

  /** The signer-governance events. */
  datatype Event =
    | SignerApproved(signer: Address)
    | SignerAdded(signer: Address)
    | SignerRemoved(signer: Address)
    | ThresholdChanged(oldThreshold: u32, newThreshold: u32)

  /** Instance storage. A key of `approvals` is present exactly when the contract stored a vector under it. */
  datatype Storage = Storage(
    admin: Option<Address>,
    pendingAdmin: Option<Address>,
    signerSet: Option<SignerSet>,
    approvals: map<SignerAction, seq<Address>>,
    pendingUpgrade: Option<UpgradeState>,
    code: WasmHash)

  datatype Post = Post(storage: Storage, events: seq<Event>)

  type Result = Outcome<Post, Error>

  /** The entry points; `Signer` stands for `add_signer`, `remove_signer` and `set_threshold`. */
  datatype Call =
    | Initialize(admin: Address)
    | ProposeAdmin(admin: Address, newAdmin: Address)
    | AcceptAdmin(newAdmin: Address)
    | CancelAdminProposal(admin: Address)
    | TransferAdmin(admin: Address, newAdmin: Address)
    | InitializeMultisig(admin: Address, signers: seq<Address>, threshold: u32)
    | Signer(caller: Address, action: SignerAction)
    | ProposeUpgrade(admin: Address, newWasm: WasmHash, delay: u32)
    | CommitUpgrade(admin: Address)
    | CancelUpgrade(admin: Address)

  /** One transaction: the ledger it runs in, the addresses that authorise it, and the call. */
  datatype Tx = Tx(ledger: u32, auth: set<Address>, call: Call)

  function Fresh(code: WasmHash): Storage {
    Storage(None, None, None, map[], None, code)
  }

  // ---- Specification of the entry points -------------------------------------------------------------------

  function RequireAdmin(s: Storage, auth: set<Address>, admin: Address): Outcome<(), Error> {
    if admin !in auth then Trap
    else if s.admin.None? then Err(NotInitialized)
    else if s.admin.value != admin then Err(NotAuthorized)
    else Ok(())
  }

  function RequireSigner(s: Storage, auth: set<Address>, caller: Address): Outcome<SignerSet, Error> {
    if caller !in auth then Trap
    else if s.signerSet.None? then Err(MultisigNotEnabled)
    else if caller !in s.signerSet.value.signers then Err(NotAuthorized)
    else Ok(s.signerSet.value)
  }

  function AdminCall(s: Storage, auth: set<Address>, call: Call): Result
    requires call.Initialize? || call.ProposeAdmin? || call.AcceptAdmin? || call.CancelAdminProposal? || call.TransferAdmin?
  {
    match call
    case Initialize(admin) =>
      if s.admin.Some? then Err(AlreadyInitialized)
      else if admin !in auth then Trap
      else Ok(Post(s.(admin := Some(admin)), []))
    case ProposeAdmin(admin, newAdmin) =>
      var _ :- RequireAdmin(s, auth, admin);
      Ok(Post(s.(pendingAdmin := Some(newAdmin)), []))
    case AcceptAdmin(newAdmin) =>
      if newAdmin !in auth then Trap
      else if s.pendingAdmin.None? then Err(NoPendingAdmin)
      else if s.pendingAdmin.value != newAdmin then Err(PendingAdminMismatch)
      else if s.admin.None? then Err(NotInitialized)
      else Ok(Post(s.(admin := Some(newAdmin), pendingAdmin := None), []))
    case CancelAdminProposal(admin) =>
      var _ :- RequireAdmin(s, auth, admin);
      if s.pendingAdmin.None? then Err(NoPendingAdmin) else Ok(Post(s.(pendingAdmin := None), []))
    case TransferAdmin(admin, newAdmin) =>
      var _ :- RequireAdmin(s, auth, admin);
      Ok(Post(s.(admin := Some(newAdmin), pendingAdmin := None), []))
  }

  predicate WellFormedSet(group: SignerSet) {
    Distinct(group.signers) && 1 <= group.threshold <= |group.signers|
  }

  function EnableMultisig(s: Storage, auth: set<Address>, admin: Address, signers: seq<Address>, threshold: u32): Result {
    var _ :- RequireAdmin(s, auth, admin);
    if s.signerSet.Some? then Err(AlreadyInitialized)
    else if signers == [] then Err(InvalidSignerSet)
    else if threshold == 0 || threshold > |signers| then Err(InvalidThreshold)
    else if !Distinct(signers) then Err(InvalidSignerSet)
    else Ok(Post(s.(signerSet := Some(SignerSet(signers, threshold))), []))
  }

  /** The refusals the entry points make before any approval is recorded. */
  function Refusal(action: SignerAction, group: SignerSet): Option<Error> {
    match action
    case Add(x) => if x in group.signers then Some(SignerAlreadyExists) else None
    case Remove(x) =>
      if x !in group.signers then Some(SignerNotInSet)
      else if |group.signers| <= 1 then Some(InvalidSignerSet)
      else if group.threshold > |group.signers| - 1 then Some(InvalidThreshold)
      else None
    case SetThreshold(_) => None
  }

  /** The signer set once `action` takes effect. */
  function Applied(action: SignerAction, group: SignerSet): SignerSet {
    match action
    case Add(x) => group.(signers := group.signers + [x])
    case Remove(x) => group.(signers := Without(group.signers, x))
    case SetThreshold(n) => group.(threshold := n)
  }

  function Announcement(action: SignerAction, group: SignerSet): Event {
    match action
    case Add(x) => SignerAdded(x)
    case Remove(x) => SignerRemoved(x)
    case SetThreshold(n) => ThresholdChanged(group.threshold, n)
  }

  function Approvals(s: Storage, action: SignerAction): seq<Address> {
    if action in s.approvals then s.approvals[action] else []
  }

  function WithApproval(approvals: seq<Address>, caller: Address): seq<Address> {
    if caller in approvals then approvals else approvals + [caller]
  }

  function Approve(s: Storage, caller: Address, action: SignerAction, group: SignerSet): Result {
    var approvals := WithApproval(Approvals(s, action), caller);
    if CountIn(approvals, group.signers) < group.threshold then
      Ok(Post(s.(approvals := s.approvals[action := approvals]), [SignerApproved(caller)]))
    else if action.SetThreshold? && !(1 <= action.n <= |group.signers|) then Err(InvalidThreshold)
    else
      Ok(Post(s.(approvals := s.approvals - {action}, signerSet := Some(Applied(action, group))),
              [SignerApproved(caller), Announcement(action, group)]))
  }

  function SignerCall(s: Storage, auth: set<Address>, caller: Address, action: SignerAction): Result {
    var group :- RequireSigner(s, auth, caller);
    var refusal := Refusal(action, group);
    if refusal.Some? then Err(refusal.value) else Approve(s, caller, action, group)
  }

  /** Addition of two 64-bit unsigned integers, saturating at the largest one. */
  function SaturatingAdd(a: u64, b: u64): u64 {
    if a + b > MAX_U64 then MAX_U64 else a + b
  }

  function UpgradeCall(s: Storage, ledger: u32, auth: set<Address>, call: Call): Result
    requires call.ProposeUpgrade? || call.CommitUpgrade? || call.CancelUpgrade?
  {
    var _ :- RequireAdmin(s, auth, call.admin);
    match call
    case ProposeUpgrade(_, newWasm, delay) =>
      if delay < MIN_UPGRADE_DELAY_LEDGERS then Err(UpgradeDelayTooShort)
      else Ok(Post(s.(pendingUpgrade := Some(UpgradeState(newWasm, SaturatingAdd(ledger, delay)))), []))
    case CommitUpgrade(_) =>
      if s.pendingUpgrade.None? || ledger < s.pendingUpgrade.value.activatedAt then Err(UpgradeNotReady)
      else Ok(Post(s.(pendingUpgrade := None, code := s.pendingUpgrade.value.newWasm), []))
    case CancelUpgrade(_) =>
      Ok(Post(s.(pendingUpgrade := None), []))
  }

  function Run(s: Storage, tx: Tx): Result {
    match tx.call
    case InitializeMultisig(admin, signers, threshold) => EnableMultisig(s, tx.auth, admin, signers, threshold)
    case Signer(caller, action) => SignerCall(s, tx.auth, caller, action)
    case ProposeUpgrade(_, _, _) => UpgradeCall(s, tx.ledger, tx.auth, tx.call)
    case CommitUpgrade(_) => UpgradeCall(s, tx.ledger, tx.auth, tx.call)
    case CancelUpgrade(_) => UpgradeCall(s, tx.ledger, tx.auth, tx.call)
    case _ => AdminCall(s, tx.auth, tx.call)
  }

  /** A transaction that fails leaves the storage as it was. */
  function Step(s: Storage, tx: Tx): Storage {
    var r := Run(s, tx);
    if r.Ok? then r.value.storage else s
  }

  /** The storage after the first `n` transactions. */
  function After(s: Storage, txs: seq<Tx>, n: nat): Storage
    requires n <= |txs|
  {
    Runs.After(Step, s, txs, n)
  }

  // ---- The loops of `approve` ------------------------------------------------------------------------------

  method CountValid(approvals: seq<Address>, signers: seq<Address>) returns (valid: nat)
    ensures valid == CountIn(approvals, signers)
  {
    valid := 0;
    for i := 0 to |approvals|
      invariant valid == CountIn(approvals[..i], signers)
    {
      assert approvals[..i + 1][..i] == approvals[..i];
      if approvals[i] in signers {
        valid := valid + 1;
      }
    }
    assert approvals[..|approvals|] == approvals;
  }

  method Remaining(signers: seq<Address>, removed: Address) returns (remaining: seq<Address>)
    ensures remaining == Without(signers, removed)
  {
    remaining := [];
    for i := 0 to |signers|
      invariant remaining == Without(signers[..i], removed)
    {
      assert signers[..i + 1][..i] == signers[..i];
      if signers[i] != removed {
        remaining := remaining + [signers[i]];
      }
    }
    assert signers[..|signers|] == signers;
  }

  // ---- The contract ----------------------------------------------------------------------------------------

  /** The deployed contract. Entry points write storage in the order the program does, also before they fail;
      `Invoke` is the host's transaction, which undoes the writes of a failed call. */
  class Contract {
    var admin: Option<Address>
    var pendingAdmin: Option<Address>
    var signerSet: Option<SignerSet>
    var approvals: map<SignerAction, seq<Address>>
    var pendingUpgrade: Option<UpgradeState>
    var code: WasmHash
    var events: seq<Event>

    constructor (code: WasmHash)
      ensures Snapshot() == Fresh(code) && events == []
    {
      admin, pendingAdmin, signerSet, approvals, pendingUpgrade := None, None, None, map[], None;
      this.code := code;
      events := [];
    }

    function Snapshot(): Storage
      reads this
    {
      Storage(admin, pendingAdmin, signerSet, approvals, pendingUpgrade, code)
    }

    /** `r` reports `spec`; on success the storage is the one `spec` gives and its events follow `published`. */
    ghost predicate Meets(r: Outcome<(), Error>, published: seq<Event>, spec: Result)
      reads this
    {
      match spec
      case Ok(post) => r == Ok(()) && Snapshot() == post.storage && events == published + post.events
      case Err(e) => r == Err(e)
      case Trap => r == Trap
    }

    method Invoke(tx: Tx) returns (r: Outcome<(), Error>)
      modifies this
      ensures Meets(r, old(events), Run(old(Snapshot()), tx))
      ensures Snapshot() == Step(old(Snapshot()), tx)
      ensures !r.Ok? ==> events == old(events)
    {
      var saved, published := Snapshot(), events;
      r := Dispatch(tx);
      if !r.Ok? {
        admin, pendingAdmin, signerSet := saved.admin, saved.pendingAdmin, saved.signerSet;
        approvals, pendingUpgrade, code := saved.approvals, saved.pendingUpgrade, saved.code;
        events := published;
      }
    }

    method Dispatch(tx: Tx) returns (r: Outcome<(), Error>)
      modifies this
      ensures Meets(r, old(events), Run(old(Snapshot()), tx))
    {
      match tx.call {
        case Initialize(_) => r := HandOverAdmin(tx.auth, tx.call);
        case ProposeAdmin(_, _) => r := HandOverAdmin(tx.auth, tx.call);
        case AcceptAdmin(_) => r := HandOverAdmin(tx.auth, tx.call);
        case CancelAdminProposal(_) => r := HandOverAdmin(tx.auth, tx.call);
        case TransferAdmin(_, _) => r := HandOverAdmin(tx.auth, tx.call);
        case InitializeMultisig(adm, signers, threshold) => r := InitializeMultisig(tx.auth, adm, signers, threshold);
        case Signer(caller, Add(x)) => r := AddSigner(tx.auth, caller, x);
        case Signer(caller, Remove(x)) => r := RemoveSigner(tx.auth, caller, x);
        case Signer(caller, SetThreshold(n)) => r := ChangeThreshold(tx.auth, caller, n);
        case ProposeUpgrade(adm, newWasm, delay) => r := ProposeUpgrade(tx.ledger, tx.auth, adm, newWasm, delay);
        case CommitUpgrade(adm) => r := CommitUpgrade(tx.ledger, tx.auth, adm);
        case CancelUpgrade(adm) => r := CancelUpgrade(tx.ledger, tx.auth, adm);
      }
    }

    method HandOverAdmin(auth: set<Address>, call: Call) returns (r: Outcome<(), Error>)
      requires call.Initialize? || call.ProposeAdmin? || call.AcceptAdmin? || call.CancelAdminProposal? || call.TransferAdmin?
      modifies this`admin, this`pendingAdmin
      ensures Meets(r, old(events), AdminCall(old(Snapshot()), auth, call))
    {
      match call {
        case Initialize(adm) =>
          if admin.Some? { return Err(AlreadyInitialized); }
          if adm !in auth { return Trap; }
          admin := Some(adm);
        case ProposeAdmin(adm, newAdmin) =>
          var _ :- RequireAdmin(Snapshot(), auth, adm);
          pendingAdmin := Some(newAdmin);
        case AcceptAdmin(newAdmin) =>
          if newAdmin !in auth { return Trap; }
          if pendingAdmin.None? { return Err(NoPendingAdmin); }
          if pendingAdmin.value != newAdmin { return Err(PendingAdminMismatch); }
          if admin.None? { return Err(NotInitialized); }
          admin := Some(newAdmin);
          pendingAdmin := None;
        case CancelAdminProposal(adm) =>
          var _ :- RequireAdmin(Snapshot(), auth, adm);
          if pendingAdmin.None? { return Err(NoPendingAdmin); }
          pendingAdmin := None;
        case TransferAdmin(adm, newAdmin) =>
          var _ :- RequireAdmin(Snapshot(), auth, adm);
          admin := Some(newAdmin);
          pendingAdmin := None;
      }
      return Ok(());
    }

    method InitializeMultisig(auth: set<Address>, adm: Address, signers: seq<Address>, threshold: u32)
      returns (r: Outcome<(), Error>)
      modifies this`signerSet
      ensures Meets(r, old(events), EnableMultisig(old(Snapshot()), auth, adm, signers, threshold))
    {
      var _ :- RequireAdmin(Snapshot(), auth, adm);
      if signerSet.Some? { return Err(AlreadyInitialized); }
      if |signers| == 0 { return Err(InvalidSignerSet); }
      if threshold == 0 || threshold > |signers| { return Err(InvalidThreshold); }
      for i := 0 to |signers|
        invariant forall p, q :: 0 <= p < i && p < q < |signers| ==> signers[p] != signers[q]
      {
        for j := i + 1 to |signers|
          invariant forall q :: i < q < j ==> signers[i] != signers[q]
        {
          if signers[i] == signers[j] { return Err(InvalidSignerSet); }
        }
      }
      signerSet := Some(SignerSet(signers, threshold));
      return Ok(());
    }

    method AddSigner(auth: set<Address>, caller: Address, newSigner: Address) returns (r: Outcome<(), Error>)
      modifies this`signerSet, this`approvals, this`events
      ensures Meets(r, old(events), SignerCall(old(Snapshot()), auth, caller, Add(newSigner)))
    {
      var group :- RequireSigner(Snapshot(), auth, caller);
      if newSigner in group.signers { return Err(SignerAlreadyExists); }
      r := RecordApproval(caller, Add(newSigner), group);
    }

    method RemoveSigner(auth: set<Address>, caller: Address, toRemove: Address) returns (r: Outcome<(), Error>)
      modifies this`signerSet, this`approvals, this`events
      ensures Meets(r, old(events), SignerCall(old(Snapshot()), auth, caller, Remove(toRemove)))
    {
      var group :- RequireSigner(Snapshot(), auth, caller);
      if toRemove !in group.signers { return Err(SignerNotInSet); }
      if |group.signers| <= 1 { return Err(InvalidSignerSet); }
      if group.threshold > |group.signers| - 1 { return Err(InvalidThreshold); }
      r := RecordApproval(caller, Remove(toRemove), group);
    }

    method ChangeThreshold(auth: set<Address>, caller: Address, n: u32) returns (r: Outcome<(), Error>)
      modifies this`signerSet, this`approvals, this`events
      ensures Meets(r, old(events), SignerCall(old(Snapshot()), auth, caller, SetThreshold(n)))
    {
      var group :- RequireSigner(Snapshot(), auth, caller);
      r := RecordApproval(caller, SetThreshold(n), group);
    }

    /** The private `approve`: the pending entry is removed before the new threshold is validated. */
    method RecordApproval(caller: Address, action: SignerAction, current: SignerSet) returns (r: Outcome<(), Error>)
      modifies this`signerSet, this`approvals, this`events
      ensures Meets(r, old(events), Approve(old(Snapshot()), caller, action, current))
    {
      hide CountIn, Without;
      var group := current;
      var collected := if action in approvals then approvals[action] else [];
      if caller !in collected {
        collected := collected + [caller];
      }
      events := events + [SignerApproved(caller)];
      var valid := CountValid(collected, group.signers);
      if valid < group.threshold {
        approvals := approvals[action := collected];
        return Ok(());
      }
      approvals := approvals - {action};
      match action {
        case Add(x) =>
          group := group.(signers := group.signers + [x]);
          signerSet := Some(group);
          events := events + [SignerAdded(x)];
        case Remove(x) =>
          var remaining := Remaining(group.signers, x);
          group := group.(signers := remaining);
          signerSet := Some(group);
          events := events + [SignerRemoved(x)];
        case SetThreshold(n) =>
          if n == 0 || n > |group.signers| { return Err(InvalidThreshold); }
          var oldThreshold := group.threshold;
          group := group.(threshold := n);
          signerSet := Some(group);
          events := events + [ThresholdChanged(oldThreshold, n)];
      }
      return Ok(());
    }

    method ProposeUpgrade(ledger: u32, auth: set<Address>, adm: Address, newWasm: WasmHash, delay: u32)
      returns (r: Outcome<(), Error>)
      modifies this`pendingUpgrade
      ensures Meets(r, old(events), UpgradeCall(old(Snapshot()), ledger, auth, Call.ProposeUpgrade(adm, newWasm, delay)))
    {
      var _ :- RequireAdmin(Snapshot(), auth, adm);
      if delay < MIN_UPGRADE_DELAY_LEDGERS { return Err(UpgradeDelayTooShort); }
      pendingUpgrade := Some(UpgradeState(newWasm, SaturatingAdd(ledger, delay)));
      return Ok(());
    }

    method CommitUpgrade(ledger: u32, auth: set<Address>, adm: Address) returns (r: Outcome<(), Error>)
      modifies this`pendingUpgrade, this`code
      ensures Meets(r, old(events), UpgradeCall(old(Snapshot()), ledger, auth, Call.CommitUpgrade(adm)))
    {
      var _ :- RequireAdmin(Snapshot(), auth, adm);
      if pendingUpgrade.None? { return Err(UpgradeNotReady); }
      var state := pendingUpgrade.value;
      if ledger < state.activatedAt { return Err(UpgradeNotReady); }
      code := state.newWasm;
      pendingUpgrade := None;
      return Ok(());
    }

    method CancelUpgrade(ledger: u32, auth: set<Address>, adm: Address) returns (r: Outcome<(), Error>)
      modifies this`pendingUpgrade
      ensures Meets(r, old(events), UpgradeCall(old(Snapshot()), ledger, auth, Call.CancelUpgrade(adm)))
    {
      var _ :- RequireAdmin(Snapshot(), auth, adm);
      pendingUpgrade := None;
      return Ok(());
    }
  }
}
