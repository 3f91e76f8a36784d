/** The standalone M-of-N account: `__check_auth`, self-governed signers, and expiring proposals. */
module MultisigAdmin {
  import opened Host
  import Runs
  import opened Lists

  datatype Error =
    | NotInitialized | AlreadyInitialized | ThresholdNotMet | InvalidThreshold | SignerNotFound | AlreadySigner
    | DuplicateSignature | ContractPaused | ProposalNotFound | ExpiredProposal | DuplicateSigner | NotASigner
    | AlreadyApproved

  datatype Proposal = Proposal(payload: seq<bv8>, expiry: u32, approvals: seq<Address>)

  /** `installed` is the code of the last upgrade, if there was one. */
  datatype Storage = Storage(
    signers: Option<seq<Address>>,
    threshold: Option<u32>,
    proposals: map<u64, Proposal>,
    nextProposalId: Option<u64>,
    paused: bool,
    installed: Option<WasmHash>)

  datatype Call =
    | Initialize(signers: seq<Address>, threshold: u32)
    | Pause
    | Unpause
    | Upgrade(code: WasmHash)
    | AddSigner(signer: Address)
    | RemoveSigner(signer: Address)
    | UpdateThreshold(threshold: u32)
    | Propose(payload: seq<bv8>, expiry: u32)
    | Approve(id: u64, approver: Address)
    | Execute(id: u64)

  datatype Value = Unit | ProposalId(id: u64) | Ready(ready: bool)

  /** One transaction. `signatures` is the list attached for this contract's own address, if any. */
  datatype Tx = Tx(ledger: u32, auth: set<Address>, signatures: Option<seq<Address>>, call: Call)

  datatype Post = Post(storage: Storage, value: Value)

  type Result = Outcome<Post, Error>

  const FRESH := Storage(None, None, map[], None, false, None)

  // ---- Specification of the entry points -------------------------------------------------------------------

  function CheckAuth(s: Storage, auth: set<Address>, signatures: seq<Address>): Outcome<(), Error> {
    if s.signers.None? || s.threshold.None? then Err(NotInitialized)
    else if !Distinct(signatures) then Err(DuplicateSignature)
    else if !(Members(signatures) <= auth) then Trap
    else if CountIn(signatures, s.signers.value) >= s.threshold.value then Ok(())
    else Err(ThresholdNotMet)
  }

  /** Authorisation by the contract's own address: the host runs `__check_auth`, and traps if it refuses. */
  function RequireSelf(s: Storage, auth: set<Address>, signatures: Option<seq<Address>>): Outcome<(), Error> {
    if signatures.Some? && CheckAuth(s, auth, signatures.value).Ok? then Ok(()) else Trap
  }

  function RequireUnpaused(s: Storage): Outcome<(), Error> {
    if s.paused then Err(ContractPaused) else Ok(())
  }

  function NextId(s: Storage): u64 {
    if s.nextProposalId.Some? then s.nextProposalId.value else 0
  }

  function Setup(s: Storage, signers: seq<Address>, threshold: u32): Result {
    if s.threshold.Some? then Err(AlreadyInitialized)
    else if !Distinct(signers) then Err(DuplicateSigner)
    else if threshold == 0 || threshold > |signers| then Err(InvalidThreshold)
    else Ok(Post(s.(signers := Some(signers), threshold := Some(threshold)), Unit))
  }

  function SetPaused(s: Storage, tx: Tx, paused: bool): Result {
    var _ :- RequireSelf(s, tx.auth, tx.signatures);
    Ok(Post(s.(paused := paused), Unit))
  }

  /** An upgrade swaps the code and keeps every key. */
  function InstallCode(s: Storage, tx: Tx, code: WasmHash): Result {
    if s.threshold.None? then Err(NotInitialized)
    else
      var _ :- RequireSelf(s, tx.auth, tx.signatures);
      Ok(Post(s.(installed := Some(code)), Unit))
  }

  function GovernSigners(s: Storage, tx: Tx): Result
    requires tx.call.AddSigner? || tx.call.RemoveSigner? || tx.call.UpdateThreshold?
  {
    var _ :- RequireUnpaused(s);
    var _ :- RequireSelf(s, tx.auth, tx.signatures);
    if s.signers.None? || s.threshold.None? then Err(NotInitialized)
    else
      var signers, threshold := s.signers.value, s.threshold.value;
      match tx.call
      case AddSigner(x) =>
        if x in signers then Err(AlreadySigner) else Ok(Post(s.(signers := Some(signers + [x])), Unit))
      case RemoveSigner(x) =>
        if x !in signers then Err(SignerNotFound)
        else if |RemoveFirst(signers, x)| < threshold then Err(InvalidThreshold)
        else Ok(Post(s.(signers := Some(RemoveFirst(signers, x))), Unit))
      case UpdateThreshold(t) =>
        if t == 0 || t > |signers| then Err(InvalidThreshold) else Ok(Post(s.(threshold := Some(t)), Unit))
  }

  function NewProposal(s: Storage, ledger: u32, payload: seq<bv8>, expiry: u32): Result {
    var _ :- RequireUnpaused(s);
    if expiry <= ledger then Err(ExpiredProposal)
    else if s.signers.None? then Err(NotInitialized)
    else if NextId(s) == MAX_U64 then Trap
    else
      var id := NextId(s);
      Ok(Post(s.(proposals := s.proposals[id := Proposal(payload, expiry, [])], nextProposalId := Some(id + 1)),
              ProposalId(id)))
  }

  function LiveProposal(s: Storage, ledger: u32, id: u64): Outcome<Proposal, Error> {
    if id !in s.proposals then Err(ProposalNotFound)
    else if ledger >= s.proposals[id].expiry then Err(ExpiredProposal)
    else Ok(s.proposals[id])
  }

  function ApproveProposal(s: Storage, ledger: u32, auth: set<Address>, id: u64, approver: Address): Result {
    var _ :- RequireUnpaused(s);
    if approver !in auth then Trap
    else
      var p :- LiveProposal(s, ledger, id);
      if s.signers.None? then Err(NotInitialized)
      else if approver !in s.signers.value then Err(NotASigner)
      else if approver in p.approvals then Err(AlreadyApproved)
      else if s.threshold.None? then Err(NotInitialized)
      else
        var approvals := p.approvals + [approver];
        Ok(Post(s.(proposals := s.proposals[id := p.(approvals := approvals)]), Ready(|approvals| >= s.threshold.value)))
  }

  function ExecuteProposal(s: Storage, ledger: u32, id: u64): Result {
    var p :- LiveProposal(s, ledger, id);
    if s.signers.None? || s.threshold.None? then Err(NotInitialized)
    else if CountIn(p.approvals, s.signers.value) < s.threshold.value then Err(ThresholdNotMet)
    else Ok(Post(s.(proposals := s.proposals - {id}), Unit))
  }

  function Run(s: Storage, tx: Tx): Result {
    match tx.call
    case Initialize(signers, threshold) => Setup(s, signers, threshold)
    case Pause => SetPaused(s, tx, true)
    case Unpause => SetPaused(s, tx, false)
    case Upgrade(code) => InstallCode(s, tx, code)
    case Propose(payload, expiry) => NewProposal(s, tx.ledger, payload, expiry)
    case Approve(id, approver) => ApproveProposal(s, tx.ledger, tx.auth, id, approver)
    case Execute(id) => ExecuteProposal(s, tx.ledger, id)
    case _ => GovernSigners(s, tx)
  }

  /** A transaction that fails leaves the storage as it was. */
  function Step(s: Storage, tx: Tx): Storage {
    var r := Run(s, tx);
    if r.Ok? then r.value.storage else s
  }

  /** The storage after the first `n` transactions. */
  function After(s: Storage, txs: seq<Tx>, n: nat): Storage
    requires n <= |txs|
  {
    Runs.After(Step, s, txs, n)
  }

  // ---- Loops -----------------------------------------------------------------------------------------------

  method FindRepeat(addresses: seq<Address>) returns (found: bool)
    ensures found <==> !Distinct(addresses)
  {
    for i := 0 to |addresses|
      invariant forall p, q :: 0 <= p < i && p < q < |addresses| ==> addresses[p] != addresses[q]
    {
      for j := i + 1 to |addresses|
        invariant forall q :: i < q < j ==> addresses[i] != addresses[q]
      {
        if addresses[j] == addresses[i] { return true; }
      }
    }
    return false;
  }

  method Find(addresses: seq<Address>, x: Address) returns (index: Option<nat>)
    ensures index.Some? ==> index.value < |addresses| && addresses[index.value] == x && x !in addresses[..index.value]
    ensures index.None? ==> x !in addresses
  {
    for i := 0 to |addresses|
      invariant x !in addresses[..i]
    {
      if addresses[i] == x { return Some(i); }
    }
    return None;
  }

  method CountSigners(approvals: seq<Address>, signers: seq<Address>) returns (count: nat)
    ensures count == CountIn(approvals, signers)
  {
    count := 0;
    for i := 0 to |approvals|
      invariant count == CountIn(approvals[..i], signers)
    {
      assert approvals[..i + 1][..i] == approvals[..i];
      var found := Find(signers, approvals[i]);
      if found.Some? {
        count := count + 1;
      }
    }
    assert approvals[..|approvals|] == approvals;
  }

  // ---- The contract ----------------------------------------------------------------------------------------

  class Contract {
    var signers: Option<seq<Address>>
    var threshold: Option<u32>
    var proposals: map<u64, Proposal>
    var nextProposalId: Option<u64>
    var paused: bool
    var installed: Option<WasmHash>

    constructor ()
      ensures Snapshot() == FRESH
    {
      signers, threshold, proposals, nextProposalId, paused, installed := None, None, map[], None, false, None;
    }

    function Snapshot(): Storage
      reads this
    {
      Storage(signers, threshold, proposals, nextProposalId, paused, installed)
    }

    ghost predicate Meets(r: Outcome<Value, Error>, spec: Result)
      reads this
    {
      match spec
      case Ok(post) => r == Ok(post.value) && Snapshot() == post.storage
      case Err(e) => r == Err(e)
      case Trap => r == Trap
    }

    /** The host's transaction: the writes of a failed call are undone. */
    method Invoke(tx: Tx) returns (r: Outcome<Value, Error>)
      modifies this
      ensures Meets(r, Run(old(Snapshot()), tx))
      ensures Snapshot() == Step(old(Snapshot()), tx)
    {
      var saved := Snapshot();
      match tx.call {
        case Initialize(initial, t) => r := Initialize(initial, t);
        case Pause => r := PauseOrResume(tx, true);
        case Unpause => r := PauseOrResume(tx, false);
        case Upgrade(code) => r := Upgrade(tx, code);
        case AddSigner(x) => r := AddSigner(tx, x);
        case RemoveSigner(x) => r := RemoveSigner(tx, x);
        case UpdateThreshold(t) => r := UpdateThreshold(tx, t);
        case Propose(payload, expiry) => r := Propose(tx.ledger, payload, expiry);
        case Approve(id, approver) => r := Approve(tx.ledger, tx.auth, id, approver);
        case Execute(id) => r := Execute(tx.ledger, id);
      }
      if !r.Ok? {
        signers, threshold, proposals := saved.signers, saved.threshold, saved.proposals;
        nextProposalId, paused, installed := saved.nextProposalId, saved.paused, saved.installed;
      }
    }

    /** `__check_auth`: duplicates are rejected first, then each signature must authorise, then members count. */
    method RunCheckAuth(auth: set<Address>, signatures: seq<Address>) returns (r: Outcome<(), Error>)
      ensures r == CheckAuth(Snapshot(), auth, signatures)
    {
      if signers.None? || threshold.None? { return Err(NotInitialized); }
      var repeated := FindRepeat(signatures);
      if repeated { return Err(DuplicateSignature); }
      var valid := 0;
      for i := 0 to |signatures|
        invariant Members(signatures[..i]) <= auth
        invariant valid == CountIn(signatures[..i], signers.value)
      {
        assert signatures[..i + 1][..i] == signatures[..i];
        if signatures[i] !in auth {
          assert signatures[i] in Members(signatures);
          return Trap;
        }
        var found := Find(signers.value, signatures[i]);
        if found.Some? {
          valid := valid + 1;
        }
      }
      assert signatures[..|signatures|] == signatures;
      if valid >= threshold.value { return Ok(()); }
      return Err(ThresholdNotMet);
    }

    method AuthoriseSelf(tx: Tx) returns (r: Outcome<(), Error>)
      ensures r == RequireSelf(Snapshot(), tx.auth, tx.signatures)
    {
      if tx.signatures.None? { return Trap; }
      r := RunCheckAuth(tx.auth, tx.signatures.value);
      if !r.Ok? { return Trap; }
    }

    method Initialize(initial: seq<Address>, t: u32) returns (r: Outcome<Value, Error>)
      modifies this`signers, this`threshold
      ensures Meets(r, Setup(old(Snapshot()), initial, t))
    {
      if threshold.Some? { return Err(AlreadyInitialized); }
      var repeated := FindRepeat(initial);
      if repeated { return Err(DuplicateSigner); }
      if t == 0 || t > |initial| { return Err(InvalidThreshold); }
      signers := Some(initial);
      threshold := Some(t);
      return Ok(Unit);
    }

    method PauseOrResume(tx: Tx, pause: bool) returns (r: Outcome<Value, Error>)
      modifies this`paused
      ensures Meets(r, SetPaused(old(Snapshot()), tx, pause))
    {
      var _ :- AuthoriseSelf(tx);
      paused := pause;
      return Ok(Unit);
    }

    method Upgrade(tx: Tx, code: WasmHash) returns (r: Outcome<Value, Error>)
      modifies this`installed
      ensures Meets(r, InstallCode(old(Snapshot()), tx, code))
    {
      if threshold.None? { return Err(NotInitialized); }
      var _ :- AuthoriseSelf(tx);
      installed := Some(code);
      return Ok(Unit);
    }

    method AddSigner(tx: Tx, newSigner: Address) returns (r: Outcome<Value, Error>)
      requires tx.call == Call.AddSigner(newSigner)
      modifies this`signers
      ensures Meets(r, GovernSigners(old(Snapshot()), tx))
    {
      var _ :- RequireUnpaused(Snapshot());
      var _ :- AuthoriseSelf(tx);
      var found := Find(signers.value, newSigner);
      if found.Some? { return Err(AlreadySigner); }
      signers := Some(signers.value + [newSigner]);
      return Ok(Unit);
    }

    method RemoveSigner(tx: Tx, signer: Address) returns (r: Outcome<Value, Error>)
      requires tx.call == Call.RemoveSigner(signer)
      modifies this`signers
      ensures Meets(r, GovernSigners(old(Snapshot()), tx))
    {
      var _ :- RequireUnpaused(Snapshot());
      var _ :- AuthoriseSelf(tx);
      var found := Find(signers.value, signer);
      if found.None? { return Err(SignerNotFound); }
      var i := found.value;
      RemoveFirstAt(signers.value, signer, i);
      var rest := signers.value[..i] + signers.value[i + 1..];
      if |rest| < threshold.value { return Err(InvalidThreshold); }
      signers := Some(rest);
      return Ok(Unit);
    }

    method UpdateThreshold(tx: Tx, t: u32) returns (r: Outcome<Value, Error>)
      requires tx.call == Call.UpdateThreshold(t)
      modifies this`threshold
      ensures Meets(r, GovernSigners(old(Snapshot()), tx))
    {
      var _ :- RequireUnpaused(Snapshot());
      var _ :- AuthoriseSelf(tx);
      if t == 0 || t > |signers.value| { return Err(InvalidThreshold); }
      threshold := Some(t);
      return Ok(Unit);
    }

    method Propose(ledger: u32, payload: seq<bv8>, expiry: u32) returns (r: Outcome<Value, Error>)
      modifies this`proposals, this`nextProposalId
      ensures Meets(r, NewProposal(old(Snapshot()), ledger, payload, expiry))
    {
      var _ :- RequireUnpaused(Snapshot());
      if expiry <= ledger { return Err(ExpiredProposal); }
      var id: u64 := if nextProposalId.Some? then nextProposalId.value else 0;
      if signers.None? { return Err(NotInitialized); }
      proposals := proposals[id := Proposal(payload, expiry, [])];
      if id == MAX_U64 { return Trap; } // the increment overflows
      nextProposalId := Some(id + 1);
      return Ok(ProposalId(id));
    }

    method Approve(ledger: u32, auth: set<Address>, id: u64, approver: Address) returns (r: Outcome<Value, Error>)
      modifies this`proposals
      ensures Meets(r, ApproveProposal(old(Snapshot()), ledger, auth, id, approver))
    {
      var _ :- RequireUnpaused(Snapshot());
      if approver !in auth { return Trap; }
      if id !in proposals { return Err(ProposalNotFound); }
      var proposal := proposals[id];
      if ledger >= proposal.expiry { return Err(ExpiredProposal); }
      if signers.None? { return Err(NotInitialized); }
      var member := Find(signers.value, approver);
      if member.None? { return Err(NotASigner); }
      var earlier := Find(proposal.approvals, approver);
      if earlier.Some? { return Err(AlreadyApproved); }
      proposal := proposal.(approvals := proposal.approvals + [approver]);
      proposals := proposals[id := proposal];
      if threshold.None? { return Err(NotInitialized); }
      return Ok(Ready(|proposal.approvals| >= threshold.value));
    }

    method Execute(ledger: u32, id: u64) returns (r: Outcome<Value, Error>)
      modifies this`proposals
      ensures Meets(r, ExecuteProposal(old(Snapshot()), ledger, id))
    {
      if id !in proposals { return Err(ProposalNotFound); }
      var proposal := proposals[id];
      if ledger >= proposal.expiry { return Err(ExpiredProposal); }
      if threshold.None? || signers.None? { return Err(NotInitialized); }
      var valid := CountSigners(proposal.approvals, signers.value);
      if valid < threshold.value { return Err(ThresholdNotMet); }
      proposals := proposals - {id};
      return Ok(Unit);
    }
  }
}
