/** Who stands behind each entry of the audit log, and when a record is taken. */
module AuditTrail {
  import opened Host
  import opened AuditLog
  import Runs

  /** `e` says what call `k` recorded, in the name of an address that authorised that call. */
  ghost predicate Tells(e: LogEntry, txs: seq<Tx>, k: nat) {
    && k < |txs| && txs[k].call.Record? && Succeeded(txs, k)
    && e.source == txs[k].call.source && e.source in txs[k].auth
    && e.kind == txs[k].call.kind && e.subject == txs[k].call.subject && e.detail == txs[k].call.detail
    && e.ledger == txs[k].ledger
  }

  predicate Ascends(at: seq<nat>) {
    forall i, j :: 0 <= i < j < |at| ==> at[i] < at[j]
  }

  /** `at` lists the accepted records among the first `n` calls, in order, and the log tells exactly these. */
  ghost predicate Attributes(txs: seq<Tx>, n: nat, at: seq<nat>)
    requires n <= |txs|
  {
    var s := After(txs, n);
    && Ascends(at) && (forall i :: 0 <= i < |at| ==> at[i] < n)
    && (forall k: nat :: k < n && txs[k].call.Record? && Succeeded(txs, k) ==> k in at)
    && Count(s) == |at|
    && (forall i: u64 :: i in s.entries <==> i < |at|)
    && (forall i: u64 :: i < |at| ==> Tells(s.entries[i], txs, at[i]))
  }

  lemma RecordStep(s: Storage, tx: Tx)
    requires Dense(s)
    ensures var t := Step(s, tx);
      if tx.call.Record? && Run(s, tx).Ok? then
        && Count(s) < MAX_U64 && Count(t) == Count(s) + 1
        && t.entries.Keys == s.entries.Keys + {Count(s)}
        && (forall i :: i in s.entries ==> t.entries[i] == s.entries[i])
        && tx.call.source in tx.auth
        && t.entries[Count(s)] == LogEntry(tx.call.source, tx.call.kind, tx.call.subject, tx.call.detail, tx.ledger)
      else t.entries == s.entries && Count(t) == Count(s)
  {
  }

  /** Every entry, in order, is what one accepted record said, under the name of an address that authorised it and with
      the ledger of that call; and every accepted record has its entry. */
  lemma {:induction false} EntriesAreAttributed(txs: seq<Tx>, n: nat) returns (at: seq<nat>)
    requires n <= |txs|
    ensures Attributes(txs, n, at)
  {
    at := [];
    if n > 0 {
      var m := n - 1;
      var before := EntriesAreAttributed(txs, m);
      LogIsTheRecords(txs, m);
      var s := After(txs, m);
      RecordStep(s, txs[m]);
      Runs.AfterNext(Step, FRESH, txs, m);
      hide Step, Run, Dense, Runs.After;
      if txs[m].call.Record? && Succeeded(txs, m) {
        at := before + [m];
        AttributesSnoc(txs, m, before);
      } else {
        at := before;
      }
    }
  }

  lemma AttributesSnoc(txs: seq<Tx>, m: nat, before: seq<nat>)
    requires m < |txs| && txs[m].call.Record? && Succeeded(txs, m) && Attributes(txs, m, before)
    requires var s, t := After(txs, m), After(txs, m + 1);
      && Count(s) < MAX_U64 && Count(t) == Count(s) + 1
      && t.entries.Keys == s.entries.Keys + {Count(s)}
      && (forall i :: i in s.entries ==> t.entries[i] == s.entries[i])
      && Tells(t.entries[Count(s)], txs, m)
    ensures Attributes(txs, m + 1, before + [m])
  {
    hide After, Succeeded, Count, Tells;
    var at := before + [m];
    assert forall i: u64 :: i < |before| ==> i in After(txs, m).entries;
    forall k: nat | k < m + 1 && txs[k].call.Record? && Succeeded(txs, k)
      ensures k in at
    {
      if k < m {
        assert k in before;
      } else {
        assert at[|before|] == m;
      }
    }
  }

  // ---- What the calls answer -------------------------------------------------------------------------------

  /** A record is refused exactly while paused, before the set-up and for a detail above 256 bytes, in this order, and
      traps exactly without the authorisation of its source, or when the counter is exhausted. */
  lemma RecordAnswers(s: Storage, tx: Tx)
    requires tx.call.Record?
    ensures var r := Run(s, tx);
      && (r == Err(ContractPaused) <==> s.paused)
      && (r == Err(NotInitialized) <==> !s.paused && s.admin.None?)
      && (r == Err(DetailTooLong) <==> !s.paused && s.admin.Some? && |tx.call.detail| > 256)
      && (r.Ok? <==>
            && !s.paused && s.admin.Some? && |tx.call.detail| <= 256
            && tx.call.source in tx.auth && Count(s) < 0xFFFF_FFFF_FFFF_FFFF)
  {
  }

  ghost predicate SetsUp(s: Storage, tx: Tx, a: Address) {
    tx.call == Initialize(a) && Run(s, tx).Ok?
  }

  ghost predicate Pauses(s: Storage, tx: Tx) {
    tx.call.SetPaused? && tx.call.pause && Run(s, tx).Ok?
  }

  ghost predicate Resumes(s: Storage, tx: Tx) {
    tx.call.SetPaused? && !tx.call.pause && Run(s, tx).Ok?
  }

  /** Pausing, resuming and upgrading are for the admin of the set-up alone, which happens once. */
  lemma AdminAnswers(s: Storage, tx: Tx)
    requires !tx.call.Record?
    ensures var r, a := Run(s, tx), tx.call.admin;
      if tx.call.Initialize? then
        if s.admin.Some? then r == Err(AlreadyInitialized)
        else if a !in tx.auth then r == Trap
        else r == Ok(s.(admin := Some(a), entryCount := Some(0)))
      else if a !in tx.auth then r == Trap
      else if s.admin.None? then r == Err(NotInitialized)
      else if s.admin.value != a then r == Err(NotAuthorized)
      else if tx.call.Upgrade? then r == Ok(s.(installed := Some(tx.call.code)))
      else r == Ok(s.(paused := tx.call.pause))
  {
  }

  lemma KeysMoveIn(s: Storage, tx: Tx)
    ensures Step(s, tx).paused <==> Pauses(s, tx) || (s.paused && !Resumes(s, tx))
    ensures forall a :: Step(s, tx).admin == Some(a) <==> SetsUp(s, tx, a) || s.admin == Some(a)
  {
  }

  /** The log is paused exactly when it was paused and has not been resumed since. */
  lemma PauseHistory(txs: seq<Tx>, n: nat)
    requires n <= |txs|
    ensures After(txs, n).paused <==>
      Runs.Since(Step, FRESH, txs, n, (s, tx) => Pauses(s, tx), (s, tx) => Resumes(s, tx))
  {
    forall m: nat | m < n
      ensures var s := After(txs, m); Step(s, txs[m]).paused <==> Pauses(s, txs[m]) || (s.paused && !Resumes(s, txs[m]))
    {
      KeysMoveIn(After(txs, m), txs[m]);
    }
    hide Pauses, Resumes, Step;
    Runs.HoldsSince(Step, FRESH, txs, n, (s: Storage) => s.paused, (s, tx) => Pauses(s, tx), (s, tx) => Resumes(s, tx));
  }

  /** The admin is the one that the accepted set-up named. */
  lemma AdminHistory(txs: seq<Tx>, n: nat, a: Address)
    requires n <= |txs|
    ensures After(txs, n).admin == Some(a) <==>
      Runs.Since(Step, FRESH, txs, n, (s, tx) => SetsUp(s, tx, a), (_, _) => false)
  {
    forall m: nat | m < n
      ensures var s := After(txs, m); Step(s, txs[m]).admin == Some(a) <==> SetsUp(s, txs[m], a) || s.admin == Some(a)
    {
      KeysMoveIn(After(txs, m), txs[m]);
    }
    hide SetsUp, Step;
    Runs.HoldsSince(Step, FRESH, txs, n, (s: Storage) => s.admin == Some(a), (s, tx) => SetsUp(s, tx, a), (_, _) => false);
  }
}
