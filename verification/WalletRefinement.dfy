/** The machine with its batch, caches and database refines the reference machine: memory is the
    database overlaid by the batch, and cache-then-database lookups are lookups in the history. */
module WalletRefinement {
  import opened WalletTypes
  import opened Accounts
  import opened Ledger
  import opened EventSourcing
  import opened WalletStore
  import opened WalletMachine
  import Conservation

  // ---------- what the database holds ----------

  /** No command id occurs twice among the events from `first` on. */
  ghost predicate Unique(h: seq<Event>, first: nat) {
    forall i, j | 0 <= i < j < |h| && first <= i + 1 :: h[i].header.commandId != h[j].header.commandId
  }

  /** `d` maps exactly the command ids of the events from `first` on to their sequence numbers. */
  ghost predicate DedupIs(d: map<Id, nat>, h: seq<Event>, first: nat) {
    && (forall c <- d :: Lookup(h, first, c) == Some(d[c]))
    && (forall c: Id :: Lookup(h, first, c).Some? ==> c in d)
  }

  /** `events` holds exactly the events numbered `lo` to the end of the history. */
  ghost predicate EventsAre(events: map<nat, Event>, h: seq<Event>, lo: nat) {
    && (forall n: nat :: n in events <==> 1 <= lo <= n <= |h|)
    && (forall n <- events :: events[n] == h[n - 1])
  }

  function AtLeastOne(n: nat): nat { if n == 0 then 1 else n }

  /** A database that holds the history `h`, of which everything below `First` was collected. */
  ghost predicate DbOk(d: Db, h: seq<Event>) {
    && Last(d) == |h| && First(d) <= |h| && INITIAL_APPLIED_INDEX <= Applied(d)
    && EventsAre(d.events, h, AtLeastOne(First(d)))
    && DedupIs(d.dedup, h, First(d))
    && Unique(h, First(d))
    && Numbered(h)
    && AccountsOk(d.data)
    && Live(d.data) == Fold(h)
  }

  // ---------- what memory holds ----------

  ghost predicate CachesOk(m: Machine, h: seq<Event>) {
    && EventsAre(m.eventCache, h, Last(m.db) + 1)
    && DedupIs(m.seqNumCache, h, Last(m.db) + 1)
  }

  ghost predicate BatchOk(m: Machine) {
    MachineOps(m.wb) && DedupOf(m.wb) == m.seqNumCache && EventsOf(m.wb) == m.eventCache
  }

  /** Memory against the records the next flush will leave: the live accounts are the same. A
      tombstone may be missing from the records, and a deleted record may be missing from memory. */
  ghost predicate Layered(accounts: AccountMap, records: AccountMap) {
    Live(accounts) == Live(records) && AccountsOk(records)
  }

  ghost predicate AllDeleted(accounts: AccountMap, ids: seq<Id>) {
    forall id <- ids :: id in accounts && accounts[id].state.Deleted?
  }

  ghost predicate Refines(m: Machine, s: State) {
    && m.accounts == s.accounts && m.lastSeqNum == |s.history| && Sound(s)
    && Last(m.db) <= |s.history| && DbOk(m.db, s.history[..Last(m.db)])
    && Unique(s.history, First(m.db))
    && CachesOk(m, s.history)
    && BatchOk(m)
    && Layered(m.accounts, ApplyOps(m.db, m.wb).data)
    && AllDeleted(m.accounts, m.toBeDeleted)
  }

  /** Between entries the batch also carries the two counters. */
  ghost predicate AtBoundary(m: Machine) {
    && Applied(ApplyOps(m.db, m.wb)) == m.appliedIndex && Last(ApplyOps(m.db, m.wb)) == m.lastSeqNum
    && INITIAL_APPLIED_INDEX <= m.appliedIndex && m.flushedIndex <= m.appliedIndex
    && (m.wb == [] ==> m.toBeDeleted == [])
  }

  // ---------- lookups ----------

  lemma {:induction false} LookupSplit(h: seq<Event>, first: nat, p: nat, c: Id)
    requires p <= |h| && first <= p + 1
    ensures Lookup(h, first, c)
         == if Lookup(h, p + 1, c).Some? then Lookup(h, p + 1, c) else Lookup(h[..p], first, c)
    decreases |h|
  {
    if p == |h| {
      assert h[..p] == h;
    } else if h[|h| - 1].header.commandId != c {
      var init := h[..|h| - 1];
      LookupSplit(init, first, p, c);
      assert init[..p] == h[..p];
    }
  }

  /** Cache-then-database finds the retained event of a command, and nothing else. */
  lemma SeqNumRefines(m: Machine, s: State, c: Id)
    requires Refines(m, s)
    ensures GetSeqNum(m, c) == Lookup(s.history, First(m.db), c)
  {
    LookupSplit(s.history, First(m.db), Last(m.db), c);
  }

  lemma EventRefines(m: Machine, s: State, n: nat)
    requires Refines(m, s) && AtLeastOne(First(m.db)) <= n <= |s.history|
    ensures GetEvent(m, n) == Some(s.history[n - 1])
  {
  }

  // ---------- one command ----------

  lemma {:induction false} WriteEachIs(m: Machine, isDelete: bool, writes: seq<Account>)
    ensures var m' := WriteEach(m, isDelete, writes);
            && m'.accounts == WriteAll(m.accounts, writes)
            && m' == m.(accounts := m'.accounts, wb := m'.wb, toBeDeleted := m'.toBeDeleted)
  {
    if writes != [] { WriteEachIs(m, isDelete, writes[..|writes| - 1]); }
  }

  lemma WriteBatchOk(m: Machine, isDelete: bool, a: Account)
    requires BatchOk(m)
    ensures BatchOk(Write(m, isDelete, a))
  {
    ApplyOpsSnoc(EMPTY_DB, m.wb, DataOp(isDelete, a));
  }

  lemma {:induction false} WriteEachBatchOk(m: Machine, isDelete: bool, writes: seq<Account>)
    requires BatchOk(m)
    ensures BatchOk(WriteEach(m, isDelete, writes))
  {
    hide BatchOk, Write;
    if writes != [] {
      WriteEachBatchOk(m, isDelete, writes[..|writes| - 1]);
      WriteBatchOk(WriteEach(m, isDelete, writes[..|writes| - 1]), isDelete, writes[|writes| - 1]);
    }
  }

  lemma {:induction false} WriteEachDeletes(m: Machine, isDelete: bool, writes: seq<Account>, id: Id)
    requires id in WriteEach(m, isDelete, writes).toBeDeleted
    ensures id in m.toBeDeleted || (isDelete && exists w <- writes :: w.id == id)
  {
    if writes != [] {
      var init, w := writes[..|writes| - 1], writes[|writes| - 1];
      assert writes == init + [w];
      if id in WriteEach(m, isDelete, init).toBeDeleted { WriteEachDeletes(m, isDelete, init, id); }
    }
  }

  lemma ApplyOpsSnoc(db: Db, ops: seq<Op>, op: Op)
    ensures ApplyOps(db, ops + [op]) == ApplyOp(ApplyOps(db, ops), op)
  {
    assert (ops + [op])[..|ops|] == ops;
  }

  lemma WriteLayered(accounts: AccountMap, db: Db, isDelete: bool, a: Account)
    requires Layered(accounts, db.data) && WellFormed(a) && (isDelete ==> a.state.Deleted?)
    ensures Layered(accounts[a.id := a], ApplyOp(db, DataOp(isDelete, a)).data)
  {
    LiveAccount(accounts, a);
    LiveAccount(db.data, a);
    assert isDelete ==> Live(db.data - {a.id}) == Live(db.data) - {a.id};
  }

  /** Writing accounts keeps memory and the overlaid records in step. */
  lemma {:induction false} WriteEachLayered(m: Machine, isDelete: bool, writes: seq<Account>)
    requires Layered(m.accounts, ApplyOps(m.db, m.wb).data)
    requires forall w <- writes :: WellFormed(w) && (isDelete ==> w.state.Deleted?)
    ensures var m' := WriteEach(m, isDelete, writes);
            Layered(m'.accounts, ApplyOps(m'.db, m'.wb).data)
  {
    hide Layered, ApplyOp, WellFormed;
    if writes != [] {
      var init, w := writes[..|writes| - 1], writes[|writes| - 1];
      WriteEachLayered(m, isDelete, init);
      var m1 := WriteEach(m, isDelete, init);
      WriteEachIs(m, isDelete, init);
      ApplyOpsSnoc(m1.db, m1.wb, DataOp(isDelete, w));
      WriteLayered(m1.accounts, ApplyOps(m1.db, m1.wb), isDelete, w);
    }
  }

  /** A tombstone is never brought back to life, and a delete leaves one. */
  lemma NoDelete(accounts: AccountMap, request: Request)
    requires Handle(accounts, request).Ok? && (request.Transfer? || request.BatchBalanceOperation?)
    ensures !Handle(accounts, request).value.isDelete
  {
    hide IncreaseEach;
  }

  lemma TombstonesStay(accounts: AccountMap, request: Request, w: Account)
    requires AccountsOk(accounts) && Handle(accounts, request).Ok? && w in Handle(accounts, request).value.writes
    ensures w.id in accounts && accounts[w.id].state.Deleted? ==> w.state.Deleted?
    ensures Handle(accounts, request).value.isDelete ==> w.state.Deleted?
  {
    hide HandleTransfer, HandleBatch;
    match request
    case Transfer(_, _, _) =>
      Conservation.TransferNeedsNormal(accounts, request, w);
      NoDelete(accounts, request);
    case BatchBalanceOperation(specs) =>
      Conservation.BatchNeedsNormal(accounts, specs, w);
      NoDelete(accounts, request);
    case ReserveFunds(_, _, _) => HoldsBalanceOnly(accounts, request);
    case ReleaseFunds(_, _, _) => HoldsBalanceOnly(accounts, request);
    case _ =>
  }

  lemma WritesKeepTombstones(m: Machine, request: Request)
    requires AccountsOk(m.accounts) && AllDeleted(m.accounts, m.toBeDeleted) && Handle(m.accounts, request).Ok?
    ensures var effect := Handle(m.accounts, request).value;
            var m' := WriteEach(m, effect.isDelete, effect.writes);
            AllDeleted(m'.accounts, m'.toBeDeleted)
  {
    var effect := Handle(m.accounts, request).value;
    forall w | w in effect.writes
      ensures w.id in m.accounts && m.accounts[w.id].state.Deleted? ==> w.state.Deleted?
      ensures effect.isDelete ==> w.state.Deleted?
    {
      TombstonesStay(m.accounts, request, w);
    }
    hide Handle;
    WriteEachIs(m, effect.isDelete, effect.writes);
    var m' := WriteEach(m, effect.isDelete, effect.writes);
    forall id | id in m'.toBeDeleted ensures id in m'.accounts && m'.accounts[id].state.Deleted? {
      WriteEachDeletes(m, effect.isDelete, effect.writes, id);
      Conservation.WriteAllAt(m.accounts, effect.writes, id);
    }
  }

  lemma LookupSnoc(h: seq<Event>, e: Event, first: nat, c: Id)
    requires first <= |h| + 1
    ensures Lookup(h + [e], first, c) == if e.header.commandId == c then Some(|h| + 1) else Lookup(h, first, c)
  {
    assert (h + [e])[..|h|] == h;
  }

  lemma RecordBatch(m: Machine, e: Event)
    requires BatchOk(m)
    ensures BatchOk(RecordEvent(m, e))
    ensures ApplyOps(m.db, RecordEvent(m, e).wb).data == ApplyOps(m.db, m.wb).data
  {
    var wb := RecordEvent(m, e).wb;
    var dedup, event := PutDedup(e.header.commandId, m.lastSeqNum), PutEvent(m.lastSeqNum, e);
    forall db: Db ensures ApplyOps(db, wb) == ApplyOp(ApplyOp(ApplyOps(db, m.wb), dedup), event) {
      ApplyOpsSnoc(db, m.wb, dedup);
      ApplyOpsSnoc(db, m.wb + [dedup], event);
      assert wb == m.wb + [dedup] + [event];
    }
  }

  lemma RecordedDedup(cache: map<Id, nat>, h: seq<Event>, h': seq<Event>, lo: nat, e: Event)
    requires DedupIs(cache, h, lo)
    requires forall c: Id :: Lookup(h', lo, c) == if e.header.commandId == c then Some(|h| + 1) else Lookup(h, lo, c)
    ensures DedupIs(cache[e.header.commandId := |h| + 1], h', lo)
  {
    hide Lookup;
  }

  lemma RecordCaches(m: Machine, h: seq<Event>, e: Event)
    requires CachesOk(m, h) && Last(m.db) <= |h| && m.lastSeqNum == |h| + 1
    ensures CachesOk(RecordEvent(m, e), h + [e])
  {
    hide Lookup, DedupIs, EventsAre;
    var h', lo := h + [e], Last(m.db) + 1;
    forall c: Id ensures Lookup(h', lo, c) == if e.header.commandId == c then Some(|h| + 1) else Lookup(h, lo, c) {
      LookupSnoc(h, e, lo, c);
    }
    RecordedDedup(m.seqNumCache, h, h', lo, e);
    RecordedEvents(m.eventCache, h, lo, e);
  }

  lemma RecordedEvents(events: map<nat, Event>, h: seq<Event>, lo: nat, e: Event)
    requires EventsAre(events, h, lo) && 1 <= lo <= |h| + 1
    ensures EventsAre(events[|h| + 1 := e], h + [e], lo)
  {
  }

  lemma UniqueSnoc(h: seq<Event>, e: Event, first: nat)
    requires Unique(h, first) && Lookup(h, first, e.header.commandId).None?
    ensures Unique(h + [e], first)
  {
  }

  /** The machine just before a fresh command's event is recorded. */
  lemma FreshWrites(m: Machine, s: State, request: Request)
    requires Refines(m, s) && Handle(s.accounts, request).Ok?
    ensures var effect := Handle(s.accounts, request).value;
            var m1 := WriteEach(m.(lastSeqNum := m.lastSeqNum + 1), effect.isDelete, effect.writes);
            && m1.accounts == WriteAll(s.accounts, effect.writes)
            && m1.lastSeqNum == |s.history| + 1 && m1.db == m.db && m1.sent == m.sent
            && CachesOk(m1, s.history) && BatchOk(m1)
            && Layered(m1.accounts, ApplyOps(m1.db, m1.wb).data)
            && AllDeleted(m1.accounts, m1.toBeDeleted)
  {
    var effect := Handle(s.accounts, request).value;
    var m0 := m.(lastSeqNum := m.lastSeqNum + 1);
    EffectWellFormed(s.accounts, request);
    assert forall w <- effect.writes :: WellFormed(w) && (effect.isDelete ==> w.state.Deleted?) by {
      forall w | w in effect.writes ensures effect.isDelete ==> w.state.Deleted? {
        TombstonesStay(m.accounts, request, w);
      }
    }
    WritesKeepTombstones(m0, request);
    hide Handle, Layered, AllDeleted, EventsAre, DedupIs, DbOk, Sound;
    WriteEachLayered(m0, effect.isDelete, effect.writes);
    WriteEachIs(m0, effect.isDelete, effect.writes);
    WriteEachBatchOk(m0, effect.isDelete, effect.writes);
  }

  lemma FreshShape(m: Machine, s: State, position: Position, cmd: Command)
    requires GetSeqNum(m, cmd.id).None? && Lookup(s.history, First(m.db), cmd.id).None?
    requires m.accounts == s.accounts && m.lastSeqNum == |s.history| && Handle(s.accounts, cmd.request).Ok?
    ensures var effect := Handle(s.accounts, cmd.request).value;
            var m1 := WriteEach(m.(lastSeqNum := m.lastSeqNum + 1), effect.isDelete, effect.writes);
            var event := BuildEvent(|s.history| + 1, position, cmd, effect.payload);
            && Exec(m, position, cmd) == Send(RecordEvent(m1, event), position, Ok(event))
            && Run(s, First(m.db), position, cmd)
               == (State(WriteAll(s.accounts, effect.writes), s.history + [event]), Ok(event))
  {
    hide Handle;
    var effect := Handle(s.accounts, cmd.request).value;
    WriteEachIs(m.(lastSeqNum := m.lastSeqNum + 1), effect.isDelete, effect.writes);
  }

  /** A fresh command that succeeds: memory, batch, caches and history move together. */
  lemma FreshRefines(m: Machine, s: State, position: Position, cmd: Command)
    requires Refines(m, s)
    requires GetSeqNum(m, cmd.id).None? && Lookup(s.history, First(m.db), cmd.id).None?
    requires Handle(s.accounts, cmd.request).Ok?
    ensures Refines(Exec(m, position, cmd), Run(s, First(m.db), position, cmd).0)
    ensures Exec(m, position, cmd).sent
         == m.sent + [Sent(position, Run(s, First(m.db), position, cmd).1)]
    ensures Exec(m, position, cmd).db == m.db
  {
    hide Handle, Exec, Run, WriteEach, Sound, Layered, AllDeleted, DbOk, Lookup, GetSeqNum;
    RunSound(s, First(m.db), position, cmd);
    FreshWrites(m, s, cmd.request);
    FreshShape(m, s, position, cmd);
    var effect := Handle(s.accounts, cmd.request).value;
    var m1 := WriteEach(m.(lastSeqNum := m.lastSeqNum + 1), effect.isDelete, effect.writes);
    var event := BuildEvent(|s.history| + 1, position, cmd, effect.payload);
    UniqueSnoc(s.history, event, First(m.db));
    RecordBatch(m1, event);
    RecordCaches(m1, s.history, event);
    hide CachesOk, BatchOk, Unique;
    assert (s.history + [event])[..Last(m.db)] == s.history[..Last(m.db)];
  }

  /** A duplicate or a failing command: only an answer is sent. */
  lemma QuietRefines(m: Machine, s: State, position: Position, cmd: Command)
    requires Refines(m, s)
    requires Lookup(s.history, First(m.db), cmd.id).Some? || Handle(s.accounts, cmd.request).Err?
    ensures Run(s, First(m.db), position, cmd).0 == s
    ensures Exec(m, position, cmd) == Send(m, position, Run(s, First(m.db), position, cmd).1)
  {
    hide Handle, Sound, CachesOk, BatchOk, Layered, AllDeleted, DbOk, Unique, GetSeqNum, GetEvent;
    SeqNumRefines(m, s, cmd.id);
    var n := Lookup(s.history, First(m.db), cmd.id);
    if n.Some? { EventRefines(m, s, n.value); }
  }

  lemma SendRefines(m: Machine, s: State, position: Position, response: Response)
    requires Refines(m, s)
    ensures Refines(Send(m, position, response), s)
  {
    hide Sound, EventsAre, DedupIs, MachineOps, Layered, AllDeleted, DbOk, Unique, ApplyOps;
  }

  /** Every command: the machine answers and moves as the reference machine does. */
  lemma ExecRefines(m: Machine, s: State, position: Position, cmd: Command)
    requires Refines(m, s)
    ensures Refines(Exec(m, position, cmd), Run(s, First(m.db), position, cmd).0)
    ensures Exec(m, position, cmd).sent
         == m.sent + [Sent(position, Run(s, First(m.db), position, cmd).1)]
    ensures Exec(m, position, cmd).db == m.db
  {
    hide Handle, Exec, Run, Lookup, GetSeqNum, Sound, CachesOk, BatchOk, Layered, AllDeleted, DbOk, Unique;
    if Lookup(s.history, First(m.db), cmd.id).Some? || Handle(s.accounts, cmd.request).Err? {
      QuietRefines(m, s, position, cmd);
      SendRefines(m, s, position, Run(s, First(m.db), position, cmd).1);
    } else {
      SeqNumRefines(m, s, cmd.id);
      FreshRefines(m, s, position, cmd);
    }
  }

  // ---------- entries ----------

  ghost function SentAt(index: nat, out: seq<Response>): seq<Sent> {
    seq(|out|, i requires 0 <= i < |out| => Sent(Position(index, i), out[i]))
  }

  lemma {:induction false} ExecPrefixRefines(m: Machine, s: State, index: nat, cmds: seq<Command>, k: nat)
    requires Refines(m, s) && k <= |cmds|
    ensures var (s', out) := RunPrefix(s, First(m.db), index, cmds, k);
            var m' := ExecPrefix(m, index, cmds, k);
            && Refines(m', s') && m'.sent == m.sent + SentAt(index, out) && |out| == k
            && m'.db == m.db && m'.appliedIndex == m.appliedIndex && m'.flushedIndex == m.flushedIndex
            && m.wb <= m'.wb
  {
    hide Exec, Run, Refines;
    if k > 0 {
      ExecPrefixRefines(m, s, index, cmds, k - 1);
      var (s1, out) := RunPrefix(s, First(m.db), index, cmds, k - 1);
      var m1 := ExecPrefix(m, index, cmds, k - 1);
      ExecRefines(m1, s1, Position(index, k - 1), cmds[k - 1]);
      ExecFrame(m1, Position(index, k - 1), cmds[k - 1]);
      var out' := RunPrefix(s, First(m.db), index, cmds, k).1;
      assert SentAt(index, out') == SentAt(index, out) + [Sent(Position(index, k - 1), out'[k - 1])];
    } else {
      assert m.sent + SentAt(index, []) == m.sent;
    }
  }

  lemma ExecFrame(m: Machine, position: Position, cmd: Command)
    ensures var m' := Exec(m, position, cmd);
            m'.appliedIndex == m.appliedIndex && m'.flushedIndex == m.flushedIndex && m.wb <= m'.wb
  {
    hide Handle;
    if GetSeqNum(m, cmd.id).None? && Handle(m.accounts, cmd.request).Ok? {
      var effect := Handle(m.accounts, cmd.request).value;
      WriteEachIs(m.(lastSeqNum := m.lastSeqNum + 1), effect.isDelete, effect.writes);
      WriteEachGrows(m.(lastSeqNum := m.lastSeqNum + 1), effect.isDelete, effect.writes);
    }
  }

  lemma {:induction false} WriteEachGrows(m: Machine, isDelete: bool, writes: seq<Account>)
    ensures m.wb <= WriteEach(m, isDelete, writes).wb
  {
    if writes != [] { WriteEachGrows(m, isDelete, writes[..|writes| - 1]); }
  }

  lemma FinishRefines(m: Machine, s: State, index: nat)
    requires Refines(m, s) && INITIAL_APPLIED_INDEX <= index && m.flushedIndex <= index
    ensures Refines(FinishEntry(m, index), s) && AtBoundary(FinishEntry(m, index))
  {
    hide ApplyOps, Sound, CachesOk, BatchOk, Layered, AllDeleted, DbOk, Unique;
    FinishOverlay(m, index);
    FinishBatch(m, index);
    SameCaches(m, FinishEntry(m, index), s.history);
  }

  lemma FinishOverlay(m: Machine, index: nat)
    ensures var d, d' := ApplyOps(m.db, m.wb), ApplyOps(m.db, FinishEntry(m, index).wb);
            d'.data == d.data && Applied(d') == index && Last(d') == m.lastSeqNum
  {
    hide ApplyOps;
    var applied, last := PutApplied(index), PutLast(m.lastSeqNum);
    ApplyOpsSnoc(m.db, m.wb, applied);
    ApplyOpsSnoc(m.db, m.wb + [applied], last);
    assert FinishEntry(m, index).wb == m.wb + [applied] + [last];
  }

  lemma FinishBatch(m: Machine, index: nat)
    requires BatchOk(m)
    ensures BatchOk(FinishEntry(m, index))
  {
    var applied, last := PutApplied(index), PutLast(m.lastSeqNum);
    assert FinishEntry(m, index).wb == m.wb + [applied] + [last];
    ApplyOpsSnoc(EMPTY_DB, m.wb, applied);
    ApplyOpsSnoc(EMPTY_DB, m.wb + [applied], last);
    hide ApplyOps;
  }

  lemma SameCaches(m: Machine, m': Machine, h: seq<Event>)
    requires CachesOk(m, h) && m'.db == m.db && m'.eventCache == m.eventCache && m'.seqNumCache == m.seqNumCache
    ensures CachesOk(m', h)
  {
    hide EventsAre, DedupIs;
  }

  /** Applying an entry answers its commands in order, as the reference machine does. */
  lemma EntryRefines(m: Machine, s: State, cmds: seq<Command>)
    requires Refines(m, s) && AtBoundary(m)
    ensures var index := m.appliedIndex + 1;
            var (s', out) := RunEntry(s, First(m.db), index, cmds);
            var m' := ApplyEntry(m, cmds);
            && Refines(m', s') && AtBoundary(m') && m'.appliedIndex == index && m'.db == m.db
            && |out| == |cmds| && m'.sent == m.sent + SentAt(index, out) && m'.flushedIndex == m.flushedIndex
  {
    hide Refines, ExecPrefix, RunPrefix;
    ExecPrefixRefines(m, s, m.appliedIndex + 1, cmds, |cmds|);
    FinishRefines(ExecPrefix(m, m.appliedIndex + 1, cmds, |cmds|),
                  RunEntry(s, First(m.db), m.appliedIndex + 1, cmds).0, m.appliedIndex + 1);
  }

  // ---------- flush and recovery ----------

  lemma FlushEvents(d: Db, h: seq<Event>, p: nat, cache: map<nat, Event>)
    requires p <= |h| && First(d) <= p && EventsAre(d.events, h[..p], AtLeastOne(First(d)))
    requires EventsAre(cache, h, p + 1)
    ensures EventsAre(d.events + cache, h, AtLeastOne(First(d)))
  {
  }

  lemma FlushDedup(d: Db, h: seq<Event>, p: nat, cache: map<Id, nat>)
    requires p <= |h| && First(d) <= p && DedupIs(d.dedup, h[..p], First(d)) && DedupIs(cache, h, p + 1)
    ensures DedupIs(d.dedup + cache, h, First(d))
  {
    var first, lo, h0 := First(d), p + 1, h[..p];
    forall c: Id
      ensures Lookup(h, first, c) == if Lookup(h, lo, c).Some? then Lookup(h, lo, c) else Lookup(h0, first, c)
    {
      LookupSplit(h, first, p, c);
    }
    hide Lookup;
  }

  /** A flush leaves in the database exactly the history so far. */
  lemma FlushDb(m: Machine, s: State)
    requires Refines(m, s) && AtBoundary(m)
    ensures DbOk(ApplyOps(m.db, m.wb), s.history)
    ensures First(ApplyOps(m.db, m.wb)) == First(m.db) && Applied(ApplyOps(m.db, m.wb)) == m.appliedIndex
  {
    var p := Last(m.db);
    Overlay(m.db, m.wb);
    FlushEvents(m.db, s.history, p, m.eventCache);
    FlushDedup(m.db, s.history, p, m.seqNumCache);
    hide ApplyOps, EventsAre, DedupIs, Unique, Fold, Live, AccountsOk;
  }

  lemma RecoverRefines(d: Db, h: seq<Event>, sent: seq<Sent>)
    requires DbOk(d, h)
    ensures Refines(Recover(d, sent), State(d.data, h)) && AtBoundary(Recover(d, sent))
  {
    assert h[..Last(d)] == h;
    assert ApplyOps(d, []) == d && ApplyOps(EMPTY_DB, []) == EMPTY_DB;
    var lo := |h| + 1;
    assert forall c: Id :: Lookup(h, lo, c).None?;
  }

  /** Dropping the tombstones leaves the live accounts alone. */
  lemma ForgetTombstones(accounts: AccountMap, ids: seq<Id>)
    requires AllDeleted(accounts, ids) && AccountsOk(accounts)
    ensures Live(Forget(accounts, ids)) == Live(accounts) && AccountsOk(Forget(accounts, ids))
  {
  }

  /** A flush is durable: a machine that recovers from what it wrote is the flushed machine, with the
      same live accounts. */
  lemma FlushIsDurable(m: Machine, s: State)
    requires Refines(m, s) && AtBoundary(m)
    ensures var f := Flush(m);
            var r := Recover(f.db, m.sent);
            && r == f.(accounts := r.accounts) && Live(r.accounts) == Live(f.accounts)
            && f.flushedIndex == m.appliedIndex && f.wb == [] && f.toBeDeleted == []
  {
    FlushRefines(m, s);
    hide ApplyOps, DbOk, CachesOk, Sound, Unique;
  }

  /** Flushing loses no live account and forgets no retained event. */
  lemma FlushRefines(m: Machine, s: State)
    requires Refines(m, s) && AtBoundary(m)
    ensures Refines(Flush(m), State(Flush(m).accounts, s.history)) && AtBoundary(Flush(m))
    ensures Live(Flush(m).accounts) == Live(m.accounts)
  {
    hide EventsAre, DedupIs, Unique, Fold, Live, AccountsOk, Forget, DbOk, CachesOk, BatchOk;
    FlushDb(m, s);
    ForgetTombstones(m.accounts, m.toBeDeleted);
    var d := ApplyOps(m.db, m.wb);
    RecoverRefines(d, s.history, m.sent);
    assert Refines(Recover(d, m.sent), State(d.data, s.history));
    hide ApplyOps;
    FlushedSame(Recover(d, m.sent), Flush(m), s.history);
  }

  /** Caches and batch of a machine that has just recovered are those of one that has just flushed. */
  lemma FlushedSame(r: Machine, f: Machine, h: seq<Event>)
    requires CachesOk(r, h) && BatchOk(r) && r.db == f.db && r.wb == f.wb
    requires r.seqNumCache == f.seqNumCache && r.eventCache == f.eventCache
    ensures CachesOk(f, h) && BatchOk(f)
  {
    hide EventsAre, DedupIs;
  }
}
