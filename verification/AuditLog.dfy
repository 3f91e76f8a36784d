/** The append-only audit log: one entry per index, a counter, and bounded pages. */
module AuditLog {
  import opened Host
  import Runs

  const MAX_PAGE_SIZE := 100
  const MAX_DETAIL_LEN := 256

  datatype Error = NotInitialized | AlreadyInitialized | NotAuthorized | PageTooLarge | ContractPaused | DetailTooLong

  /** `detail` is the byte string that the length limit counts. */
  datatype LogEntry = LogEntry(source: Address, kind: string, subject: Address, detail: seq<bv8>, ledger: u32)

  /** `installed` is the code of the last upgrade, if there was one. */
  datatype Storage = Storage(
    admin: Option<Address>,
    paused: bool,
    entries: map<u64, LogEntry>,
    entryCount: Option<u64>,
    installed: Option<WasmHash>)

  datatype Call =
    | Initialize(admin: Address)
    | SetPaused(admin: Address, pause: bool)
    | Upgrade(admin: Address, code: WasmHash)
    | Record(source: Address, kind: string, subject: Address, detail: seq<bv8>)

  datatype Tx = Tx(ledger: u32, auth: set<Address>, call: Call)

  type Result = Outcome<Storage, Error>

  const FRESH := Storage(None, false, map[], None, None)

  // ---- Specification ---------------------------------------------------------------------------------------

  function Count(s: Storage): u64 {
    if s.entryCount.Some? then s.entryCount.value else 0
  }

  function EntryOf(tx: Tx): LogEntry
    requires tx.call.Record?
  {
    LogEntry(tx.call.source, tx.call.kind, tx.call.subject, tx.call.detail, tx.ledger)
  }

  function Run(s: Storage, tx: Tx): Result {
    match tx.call
    case Initialize(admin) =>
      if s.admin.Some? then Err(AlreadyInitialized)
      else if admin !in tx.auth then Trap
      else Ok(s.(admin := Some(admin), entryCount := Some(0)))
    case SetPaused(admin, pause) =>
      if admin !in tx.auth then Trap
      else if s.admin.None? then Err(NotInitialized)
      else if s.admin.value != admin then Err(NotAuthorized)
      else Ok(s.(paused := pause))
    case Upgrade(admin, code) =>
      if admin !in tx.auth then Trap
      else if s.admin.None? then Err(NotInitialized)
      else if s.admin.value != admin then Err(NotAuthorized)
      else Ok(s.(installed := Some(code)))
    case Record(source, _, _, detail) =>
      if s.paused then Err(ContractPaused)
      else if s.admin.None? then Err(NotInitialized)
      else if |detail| > MAX_DETAIL_LEN then Err(DetailTooLong)
      else if source !in tx.auth || Count(s) == MAX_U64 then Trap
      else Ok(s.(entries := s.entries[Count(s) := EntryOf(tx)], entryCount := Some(Count(s) + 1)))
  }

  function Step(s: Storage, tx: Tx): Storage {
    var r := Run(s, tx);
    if r.Ok? then r.value else s
  }

  /** The storage after the first `n` transactions of a new log. */
  function After(txs: seq<Tx>, n: nat): Storage
    requires n <= |txs|
  {
    Runs.After(Step, FRESH, txs, n)
  }

  /** The entries stored at indices from `lo` up to `hi`, in order, skipping missing ones. */
  function Present(s: Storage, lo: nat, hi: nat): seq<LogEntry>
    requires lo <= hi <= MAX_U64
    decreases hi - lo
  {
    if lo == hi then []
    else Present(s, lo, hi - 1) + if hi - 1 in s.entries then [s.entries[hi - 1]] else []
  }

  /** Where a page of at most `limit` entries from `start` ends. */
  function PageEnd(s: Storage, start: u64, limit: nat): u64 {
    if start + limit <= Count(s) then start + limit else if start <= Count(s) then Count(s) else start
  }

  function Page(s: Storage, start: u64, limit: nat): seq<LogEntry> {
    Present(s, start, PageEnd(s, start, limit))
  }

  // ---- The contract ----------------------------------------------------------------------------------------

  class Contract {
    var admin: Option<Address>
    var paused: bool
    var entries: map<u64, LogEntry>
    var entryCount: Option<u64>
    var installed: Option<WasmHash>

    constructor ()
      ensures Snapshot() == FRESH
    {
      admin, paused, entries, entryCount, installed := None, false, map[], None, None;
    }

    function Snapshot(): Storage
      reads this
    {
      Storage(admin, paused, entries, entryCount, installed)
    }

    ghost predicate Meets(r: Outcome<(), Error>, spec: Result)
      reads this
    {
      match spec
      case Ok(s) => r == Ok(()) && Snapshot() == s
      case Err(e) => r == Err(e)
      case Trap => r == Trap
    }

    method Invoke(tx: Tx) returns (r: Outcome<(), Error>)
      modifies this
      ensures Meets(r, Run(old(Snapshot()), tx))
      ensures Snapshot() == Step(old(Snapshot()), tx)
    {
      var saved := Snapshot();
      match tx.call {
        case Initialize(adm) =>
          if admin.Some? { return Err(AlreadyInitialized); }
          if adm !in tx.auth { return Trap; }
          admin := Some(adm);
          entryCount := Some(0);
          return Ok(());
        case SetPaused(adm, pause) =>
          if adm !in tx.auth { return Trap; }
          if admin.None? { return Err(NotInitialized); }
          if admin.value != adm { return Err(NotAuthorized); }
          paused := pause;
          return Ok(());
        case Upgrade(adm, code) =>
          if adm !in tx.auth { return Trap; }
          if admin.None? { return Err(NotInitialized); }
          if admin.value != adm { return Err(NotAuthorized); }
          installed := Some(code);
          return Ok(());
        case Record(source, kind, subject, detail) =>
          r := RecordEntry(tx.ledger, tx.auth, source, kind, subject, detail);
          if !r.Ok? {
            entries, entryCount := saved.entries, saved.entryCount;
          }
      }
    }

    /** `record`: the entry is written before the counter is advanced, which may overflow. */
    method RecordEntry(ledger: u32, auth: set<Address>, source: Address, kind: string, subject: Address, detail: seq<bv8>)
      returns (r: Outcome<(), Error>)
      modifies this`entries, this`entryCount
      ensures Meets(r, Run(old(Snapshot()), Tx(ledger, auth, Record(source, kind, subject, detail))))
    {
      if paused { return Err(ContractPaused); }
      if admin.None? { return Err(NotInitialized); }
      if |detail| > MAX_DETAIL_LEN { return Err(DetailTooLong); }
      if source !in auth { return Trap; }
      var index: u64 := if entryCount.Some? then entryCount.value else 0;
      entries := entries[index := LogEntry(source, kind, subject, detail, ledger)];
      if index == MAX_U64 { return Trap; }
      entryCount := Some(index + 1);
      return Ok(());
    }

    method ListEntries(start: u64, limit: u32) returns (r: Outcome<seq<LogEntry>, Error>)
      ensures r == if limit > 100 then Err(PageTooLarge) else Ok(Page(Snapshot(), start, limit))
    {
      if limit > MAX_PAGE_SIZE { return Err(PageTooLarge); }
      var count: u64 := if entryCount.Some? then entryCount.value else 0;
      var page := [];
      var index: int := start;
      var collected := 0;
      while collected < limit && index < count
        invariant 0 <= collected <= limit && index == start + collected
        invariant index <= if start <= count then count else start
        invariant page == Present(Snapshot(), start, index)
      {
        if index in entries {
          page := page + [entries[index]];
        }
        index := index + 1;
        collected := collected + 1;
      }
      return Ok(page);
    }

    /** `get_entries` clamps instead of refusing. */
    method GetEntries(start: u64, count: u32) returns (page: seq<LogEntry>)
      ensures page == Page(Snapshot(), start, if count < 100 then count else 100)
    {
      var r := ListEntries(start, if count < MAX_PAGE_SIZE then count else MAX_PAGE_SIZE);
      return r.value;
    }
  }

  // ---- Over runs -------------------------------------------------------------------------------------------

  /** Exactly the indices below the count hold entries, and nothing is held before initialisation. */
  ghost predicate Dense(s: Storage) {
    && (forall i: u64 :: i in s.entries <==> i < Count(s))
    && (s.admin.None? ==> Count(s) == 0)
  }

  /** The log as a sequence. */
  function Log(s: Storage): (log: seq<LogEntry>)
    requires Dense(s)
    ensures |log| == Count(s)
  {
    seq(Count(s), i requires 0 <= i < Count(s) => s.entries[i])
  }

  predicate Succeeded(txs: seq<Tx>, i: nat)
    requires i < |txs|
  {
    Run(After(txs, i), txs[i]).Ok?
  }

  /** The entries of the successful `record` calls among the first `n` transactions, in order. */
  function Recorded(txs: seq<Tx>, n: nat): seq<LogEntry>
    requires n <= |txs|
  {
    if n == 0 then []
    else Recorded(txs, n - 1) + if txs[n - 1].call.Record? && Succeeded(txs, n - 1) then [EntryOf(txs[n - 1])] else []
  }

  lemma StepAppends(s: Storage, tx: Tx)
    requires Dense(s)
    ensures Dense(Step(s, tx))
    ensures Log(Step(s, tx)) == Log(s) + if tx.call.Record? && Run(s, tx).Ok? then [EntryOf(tx)] else []
  {
    if tx.call.Record? && Run(s, tx).Ok? {
      assert forall i: u64 :: i in Step(s, tx).entries <==> i in s.entries || i == Count(s);
    }
  }

  /** In every run the log is dense and is exactly the successful records in order. */
  lemma {:induction false} LogIsTheRecords(txs: seq<Tx>, n: nat)
    requires n <= |txs|
    ensures Dense(After(txs, n)) && Log(After(txs, n)) == Recorded(txs, n)
  {
    if n > 0 {
      LogIsTheRecords(txs, n - 1);
      StepAppends(After(txs, n - 1), txs[n - 1]);
    }
  }

  lemma {:induction false} RecordsGrow(txs: seq<Tx>, m: nat, n: nat)
    requires m <= n <= |txs|
    ensures Recorded(txs, m) <= Recorded(txs, n)
    decreases n
  {
    hide After, Run;
    if m < n {
      RecordsGrow(txs, m, n - 1);
    }
  }

  /** Nothing written is ever changed or removed. */
  lemma {:induction false} AppendOnly(txs: seq<Tx>, m: nat, n: nat)
    requires m <= n <= |txs|
    ensures Dense(After(txs, m)) && Dense(After(txs, n))
    ensures Log(After(txs, m)) <= Log(After(txs, n))
  {
    hide After, Dense, Log, Recorded;
    LogIsTheRecords(txs, m);
    LogIsTheRecords(txs, n);
    RecordsGrow(txs, m, n);
  }

  /** Ledger stamps never decrease with the index, as the ledger never does. */
  lemma {:induction false} StampsAscend(txs: seq<Tx>, n: nat)
    requires n <= |txs|
    requires forall i, j :: 0 <= i < j < |txs| ==> txs[i].ledger <= txs[j].ledger
    ensures forall i, j :: 0 <= i < j < |Recorded(txs, n)| ==> Recorded(txs, n)[i].ledger <= Recorded(txs, n)[j].ledger
    ensures n > 0 ==> forall i :: 0 <= i < |Recorded(txs, n)| ==> Recorded(txs, n)[i].ledger <= txs[n - 1].ledger
  {
    if n > 0 {
      StampsAscend(txs, n - 1);
      forall i | 0 <= i < |Recorded(txs, n)|
        ensures Recorded(txs, n)[i].ledger <= txs[n - 1].ledger
      {
        if i < |Recorded(txs, n - 1)| {
          assert Recorded(txs, n)[i] == Recorded(txs, n - 1)[i];
          assert txs[n - 2].ledger <= txs[n - 1].ledger;
        }
      }
    }
  }

  // ---- Paging ----------------------------------------------------------------------------------------------

  lemma {:induction false} PresentIsSlice(s: Storage, lo: nat, hi: nat)
    requires Dense(s) && lo <= hi <= Count(s)
    ensures Present(s, lo, hi) == Log(s)[lo..hi]
    decreases hi - lo
  {
    if lo < hi {
      PresentIsSlice(s, lo, hi - 1);
    }
  }

  /** A reader's paging: successive pages from `start` until one comes back short. */
  function ReadFrom(s: Storage, start: u64, size: nat): seq<LogEntry>
    requires Dense(s) && 1 <= size && start <= Count(s)
    decreases Count(s) - start
  {
    PresentIsSlice(s, start, PageEnd(s, start, size));
    var page := Page(s, start, size);
    if |page| < size then page else page + ReadFrom(s, start + size, size)
  }

  lemma {:induction false} PagesFrom(s: Storage, start: u64, size: nat)
    requires Dense(s) && 1 <= size && start <= Count(s)
    ensures ReadFrom(s, start, size) == Log(s)[start..]
    decreases Count(s) - start
  {
    PresentIsSlice(s, start, PageEnd(s, start, size));
    if start + size <= Count(s) {
      PagesFrom(s, start + size, size);
      assert Log(s)[start..] == Log(s)[start..start + size] + Log(s)[start + size..];
    }
  }

  /** In every reachable state and for every permitted page size, paging from 0 yields the whole log in order. */
  lemma PagingReadsEverything(txs: seq<Tx>, n: nat, size: u32)
    requires n <= |txs| && 1 <= size <= MAX_PAGE_SIZE
    ensures Dense(After(txs, n)) && ReadFrom(After(txs, n), 0, size) == Recorded(txs, n)
  {
    LogIsTheRecords(txs, n);
    PagesFrom(After(txs, n), 0, size);
  }

  // ---- Paging while the log grows --------------------------------------------------------------------------

  /** What a reader has read, and after how many transactions it read the first short page, if it did. */
  datatype Reading = Reading(entries: seq<LogEntry>, finishedAt: Option<nat>)

  lemma FullPageFits(txs: seq<Tx>, n: nat, start: u64, size: nat)
    requires n <= |txs| && start <= Count(After(txs, n))
    ensures Dense(After(txs, n))
    ensures var log := Log(After(txs, n));
      if start + size <= |log| then Page(After(txs, n), start, size) == log[start..start + size]
      else Page(After(txs, n), start, size) == log[start..]
  {
    LogIsTheRecords(txs, n);
    PresentIsSlice(After(txs, n), start, PageEnd(After(txs, n), start, size));
  }

  /** `times[k]` is how many transactions precede the reading of page `k`; a reader does not go back in time. */
  predicate IsSchedule(txs: seq<Tx>, times: seq<nat>) {
    times == [] ||
    (times[0] <= |txs| && (|times| > 1 ==> times[0] <= times[1]) && IsSchedule(txs, times[1..]))
  }

  lemma {:induction false} ScheduleAscends(txs: seq<Tx>, times: seq<nat>)
    requires IsSchedule(txs, times) && times != []
    ensures times[0] <= times[|times| - 1] <= |txs|
  {
    if |times| > 1 {
      ScheduleAscends(txs, times[1..]);
    }
  }

  /** Successive pages from `start`, each read in the state of its time, until one is short or the times run out. */
  function ReadWhileGrowing(txs: seq<Tx>, times: seq<nat>, start: u64, size: nat): Reading
    requires IsSchedule(txs, times)
    requires times != [] ==> start <= Count(After(txs, times[0]))
  {
    if times == [] then Reading([], None)
    else
      FullPageFits(txs, times[0], start, size);
      var page := Page(After(txs, times[0]), start, size);
      if |page| < size then Reading(page, Some(times[0]))
      else
        CountGrows(txs, times);
        var rest := ReadWhileGrowing(txs, times[1..], start + size, size);
        Reading(page + rest.entries, rest.finishedAt)
  }

  lemma CountGrows(txs: seq<Tx>, times: seq<nat>)
    requires IsSchedule(txs, times) && times != []
    ensures IsSchedule(txs, times[1..])
    ensures |times| > 1 ==> Count(After(txs, times[0])) <= Count(After(txs, times[1]))
  {
    if |times| > 1 {
      AppendOnly(txs, times[0], times[1]);
    }
  }

  lemma PageOfRecords(txs: seq<Tx>, n: nat, start: u64, size: nat)
    requires n <= |txs| && start <= Count(After(txs, n))
    ensures var log, page := Recorded(txs, n), Page(After(txs, n), start, size);
      && start <= |log| == Count(After(txs, n))
      && if start + size <= |log| then page == log[start..start + size] && |page| == size
         else page == log[start..] && |page| < size
  {
    FullPageFits(txs, n, start, size);
    LogIsTheRecords(txs, n);
  }

  lemma JoinSlices<T>(early: seq<T>, late: seq<T>, start: nat, mid: nat, end: nat)
    requires early <= late && start <= mid <= |early| && mid <= end <= |late|
    ensures early[start..mid] + late[mid..end] == late[start..end]
  {
  }

  lemma JoinSuffix<T>(early: seq<T>, late: seq<T>, start: nat, mid: nat)
    requires early <= late && start <= mid <= |early|
    ensures early[start..mid] + late[mid..] == late[start..]
  {
  }

  /** How many entries `pages` full pages hold. */
  function Capacity(pages: nat, size: nat): nat {
    if pages == 0 then 0 else size + Capacity(pages - 1, size)
  }

  lemma {:induction false} CapacityIsProduct(pages: nat, size: nat)
    ensures Capacity(pages, size) == pages * size
  {
    if pages > 0 {
      CapacityIsProduct(pages - 1, size);
    }
  }

  /** What `r` must be for `pages` pages from `start`, the first and last read at times `first` and `last`: the log
      from `start` on as it was at the first short page, or that many full pages. */
  ghost predicate IsReading(r: Reading, txs: seq<Tx>, first: nat, last: nat, pages: nat, start: u64, size: nat) {
    && first <= last <= |txs|
    && if r.finishedAt.Some? then
         && first <= r.finishedAt.value <= last
         && start <= |Recorded(txs, r.finishedAt.value)| && r.entries == Recorded(txs, r.finishedAt.value)[start..]
       else
         && |r.entries| == Capacity(pages, size)
         && start + |r.entries| <= |Recorded(txs, last)|
         && r.entries == Recorded(txs, last)[start..start + |r.entries|]
  }

  /** One page read at `n`: the whole reading if it is short, and a reading of one page if it is full. */
  lemma SinglePage(txs: seq<Tx>, n: nat, last: nat, pages: nat, start: u64, size: nat)
    requires n <= last <= |txs| && start <= Count(After(txs, n))
    ensures var page := Page(After(txs, n), start, size);
      if |page| < size then IsReading(Reading(page, Some(n)), txs, n, last, pages, start, size)
      else
        && IsReading(Reading(page, None), txs, n, n, 1, start, size)
        && start + size <= |Recorded(txs, n)| && start + size <= MAX_U64
        && page == Recorded(txs, n)[start..start + size]
  {
    PageOfRecords(txs, n, start, size);
    assert Capacity(1, size) == size;
  }

  /** Any page of a reachable log: the records from `start` up to the limit or the end, and nothing past the end. */
  lemma PageIsSlice(txs: seq<Tx>, n: nat, start: u64, limit: nat)
    requires n <= |txs|
    ensures var log, page := Recorded(txs, n), Page(After(txs, n), start, limit);
      if start >= |log| then page == []
      else page == log[start..if start + limit <= |log| then start + limit else |log|]
  {
    LogIsTheRecords(txs, n);
    if start <= Count(After(txs, n)) {
      PageOfRecords(txs, n, start, limit);
    }
    hide After, Recorded;
  }

  lemma FirstPage(txs: seq<Tx>, times: seq<nat>, start: u64, size: nat)
    requires IsSchedule(txs, times) && times != []
    requires start <= Count(After(txs, times[0]))
    ensures var page, r := Page(After(txs, times[0]), start, size), ReadWhileGrowing(txs, times, start, size);
      if |page| < size then r == Reading(page, Some(times[0]))
      else
        && start + size <= MAX_U64 && |page| == size
        && if |times| == 1 then r == Reading(page, None)
           else
             && IsSchedule(txs, times[1..]) && times[1..][0] == times[1]
             && start + size <= Count(After(txs, times[1]))
             && var rest := ReadWhileGrowing(txs, times[1..], start + size, size);
                r == Reading(page + rest.entries, rest.finishedAt)
  {
    PageOfRecords(txs, times[0], start, size);
    CountGrows(txs, times);
    hide After, Recorded, Count, Page;
  }

  lemma {:induction false} ReadingFrom(txs: seq<Tx>, times: seq<nat>, start: u64, size: nat)
    requires IsSchedule(txs, times) && times != []
    requires start <= Count(After(txs, times[0]))
    ensures IsReading(ReadWhileGrowing(txs, times, start, size), txs, times[0], times[|times| - 1], |times|, start, size)
  {
    hide ReadWhileGrowing, After, Recorded, Count, Page, Capacity, IsReading;
    ScheduleAscends(txs, times);
    SinglePage(txs, times[0], times[|times| - 1], |times|, start, size);
    FirstPage(txs, times, start, size);
    if |Page(After(txs, times[0]), start, size)| == size && |times| > 1 {
      assert IsSchedule(txs, times[1..]) && times[1..][0] == times[1];
      var rest := ReadWhileGrowing(txs, times[1..], start + size, size);
      ReadingFrom(txs, times[1..], start + size, size);
      ReadingStep(txs, times[0], times[1], times[|times| - 1], |times| - 1, start, size, rest);
    }
  }

  /** A full page in front of a reading of the later times. */
  lemma ReadingStep(txs: seq<Tx>, first: nat, second: nat, last: nat, pages: nat, start: u64, size: nat, rest: Reading)
    requires first <= second <= |txs|
    requires start + size <= |Recorded(txs, first)| && start + size <= MAX_U64
    requires IsReading(rest, txs, second, last, pages, start + size, size)
    ensures var page := Recorded(txs, first)[start..start + size];
      IsReading(Reading(page + rest.entries, rest.finishedAt), txs, first, last, pages + 1, start, size)
  {
    hide Recorded, Capacity;
    if rest.finishedAt.Some? {
      RecordsGrow(txs, first, rest.finishedAt.value);
      JoinSuffix(Recorded(txs, first), Recorded(txs, rest.finishedAt.value), start, start + size);
    } else {
      RecordsGrow(txs, first, last);
      assert Capacity(pages + 1, size) == size + Capacity(pages, size) by { CapacityStep(pages, size); }
      JoinSlices(Recorded(txs, first), Recorded(txs, last), start, start + size, start + size + |rest.entries|);
    }
  }

  lemma CapacityStep(pages: nat, size: nat)
    ensures Capacity(pages + 1, size) == size + Capacity(pages, size)
  {
  }

  /** Records appended between pages neither lose nor repeat an entry: a reader that starts at 0 and reaches a short
      page holds exactly the log of that moment, and it has reached one if its pages could hold more than the log. */
  lemma PagingReadsGrowingLog(txs: seq<Tx>, times: seq<nat>, size: u32)
    requires IsSchedule(txs, times) && times != [] && 1 <= size <= MAX_PAGE_SIZE
    ensures var r, last := ReadWhileGrowing(txs, times, 0, size), times[|times| - 1];
      && last <= |txs|
      && (r.finishedAt.Some? ==> r.finishedAt.value <= last && r.entries == Recorded(txs, r.finishedAt.value))
      && (r.finishedAt.None? ==> r.entries <= Recorded(txs, last))
      && (|times| * size > |Recorded(txs, last)| ==> r.finishedAt.Some?)
  {
    ReadingFrom(txs, times, 0, size);
    CapacityIsProduct(|times|, size);
    hide ReadWhileGrowing, Recorded;
  }
}
