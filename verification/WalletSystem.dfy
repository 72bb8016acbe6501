/** The wallet under every schedule of commands, flushes, garbage-collection batches and crashes. */
module WalletSystem {
  import opened WalletTypes
  import opened Accounts
  import opened Ledger
  import opened EventSourcing
  import opened Conservation
  import opened WalletStore
  import opened WalletMachine
  import opened WalletRefinement
  import opened EventLogGc

  /** The committed log: entry `i` has raft index `6 + i`. */
  type Log = seq<seq<Command>>

  /** A scan whose deletions have not been written yet. */
  datatype PendingGc = PendingGc(from: nat, to: nat, ops: seq<Op>)

  /** `offset` is the next command of the entry being applied, `history` every event that took
      effect, `versions` every state the database went through: no write is synced, so a crash may
      fall back to any of them. */
  datatype System = System(m: Machine, offset: nat, history: seq<Event>, versions: seq<Db>, gc: Option<PendingGc>)

  const INITIAL: System := System(Recover(EMPTY_DB, []), 0, [], [EMPTY_DB], None)

  /** The collector takes no lock: its scans and writes fall between any two commands. */
  datatype Action =
    | Execute
    | Finish
    | FlushBatch
    | ScanEvents(to: nat)
    | WriteGc
    | Crash(version: nat)

  function EntryNumber(m: Machine): int { m.appliedIndex - INITIAL_APPLIED_INDEX }

  /** The commands of the entry after the last applied one. */
  function Current(log: Log, m: Machine): seq<Command> {
    if 0 <= EntryNumber(m) < |log| then log[EntryNumber(m)] else []
  }

  function NextPosition(sys: System): Position { Position(sys.m.appliedIndex + 1, sys.offset) }

  predicate Enabled(log: Log, sys: System, action: Action) {
    match action
    case Execute => sys.offset < |Current(log, sys.m)|
    case Finish => 0 <= EntryNumber(sys.m) < |log| && sys.offset == |Current(log, sys.m)|
    case FlushBatch => sys.offset == 0 && sys.m.flushedIndex < sys.m.appliedIndex
    case ScanEvents(to) => sys.gc.None? && AtLeastOne(First(sys.m.db)) <= to <= Last(sys.m.db)
    case WriteGc => sys.gc.Some?
    case Crash(v) => v < |sys.versions|
  }

  /** What the next command of the entry does to the reference machine. */
  function Outcome(log: Log, sys: System): (State, Response)
    requires Enabled(log, sys, Execute)
  {
    Run(State(sys.m.accounts, sys.history), First(sys.m.db), NextPosition(sys), Current(log, sys.m)[sys.offset])
  }

  function Step(log: Log, sys: System, action: Action): System
    requires Enabled(log, sys, action)
  {
    var m := sys.m;
    match action
    case Execute =>
      sys.(m := Exec(m, NextPosition(sys), Current(log, m)[sys.offset]), offset := sys.offset + 1,
           history := Outcome(log, sys).0.history)
    case Finish =>
      sys.(m := FinishEntry(m, m.appliedIndex + 1), offset := 0)
    case FlushBatch =>
      sys.(m := Flush(m), versions := sys.versions + [Flush(m).db])
    case ScanEvents(to) =>
      var from := AtLeastOne(First(m.db));
      sys.(gc := Some(PendingGc(from, to, GcBatch(m.db.events, from, to))))
    case WriteGc =>
      var db := ApplyOps(m.db, sys.gc.value.ops);
      sys.(m := m.(db := db), versions := sys.versions + [db], gc := None)
    case Crash(v) =>
      var db := sys.versions[v];
      System(Recover(db, m.sent), 0, if Last(db) <= |sys.history| then sys.history[..Last(db)] else sys.history,
             sys.versions[..v + 1], None)
  }

  /** The system after a schedule, if every action of it was enabled in turn. */
  ghost function After(log: Log, actions: seq<Action>): Option<System> {
    if actions == [] then Some(INITIAL)
    else
      match After(log, actions[..|actions| - 1])
      case None => None
      case Some(sys) =>
        var action := actions[|actions| - 1];
        if Enabled(log, sys, action) then Some(Step(log, sys, action)) else None
  }

  // ---------- the invariant ----------

  ghost predicate VersionOk(log: Log, d: Db, h: seq<Event>) {
    && Last(d) <= |h| && DbOk(d, h[..Last(d)])
    && Applied(d) - INITIAL_APPLIED_INDEX <= |log|
  }

  ghost predicate VersionsOk(log: Log, sys: System) {
    && sys.versions != [] && sys.versions[|sys.versions| - 1] == sys.m.db
    && (forall i | 0 <= i < |sys.versions| :: VersionOk(log, sys.versions[i], sys.history))
    && (forall i, j | 0 <= i <= j < |sys.versions| :: Last(sys.versions[i]) <= Last(sys.versions[j]))
  }

  ghost predicate GcOk(sys: System) {
    sys.gc.Some? ==>
      var g := sys.gc.value;
      && g.from == AtLeastOne(First(sys.m.db)) <= g.to <= Last(sys.m.db)
      && g.ops == GcBatch(sys.m.db.events, g.from, g.to)
  }

  predicate InLog(log: Log, p: Position) {
    INITIAL_APPLIED_INDEX < p.logIndex <= INITIAL_APPLIED_INDEX + |log|
    && p.offset < |log[p.logIndex - INITIAL_APPLIED_INDEX - 1]|
  }

  function CommandAt(log: Log, p: Position): Command
    requires InLog(log, p)
  {
    log[p.logIndex - INITIAL_APPLIED_INDEX - 1][p.offset]
  }

  /** Inside the log; between two entries the batch also carries the two counters. */
  ghost predicate PlaceOk(log: Log, sys: System) {
    && 0 <= EntryNumber(sys.m) <= |log| && sys.m.flushedIndex <= sys.m.appliedIndex
    && sys.offset <= |Current(log, sys.m)|
    && (sys.offset == 0 ==> AtBoundary(sys.m))
  }

  ghost predicate Inv(log: Log, sys: System) {
    && Refines(sys.m, State(sys.m.accounts, sys.history))
    && PlaceOk(log, sys)
    && AlwaysBalanced(sys.history)
    && VersionsOk(log, sys)
    && GcOk(sys)
  }

  // ---------- answers ----------

  lemma TransferErrors(accounts: AccountMap, request: Request)
    requires request.Transfer? && Handle(accounts, request).Err?
    ensures var e := Handle(accounts, request).error; !e.MissingEvent? && !e.Timeout?
  {
  }

  lemma HoldErrors(accounts: AccountMap, request: Request)
    requires (request.ReserveFunds? || request.ReleaseFunds?) && Handle(accounts, request).Err?
    ensures var e := Handle(accounts, request).error; !e.MissingEvent? && !e.Timeout?
  {
  }

  lemma HandleErrors(accounts: AccountMap, request: Request)
    requires Handle(accounts, request).Err?
    ensures var e := Handle(accounts, request).error; !e.MissingEvent? && !e.Timeout?
  {
    hide HandleTransfer, IncreaseEach, HandleReserve, HandleRelease;
    match request
    case Transfer(_, _, _) => TransferErrors(accounts, request);
    case BatchBalanceOperation(specs) => BatchErrors(accounts, specs);
    case ReserveFunds(_, _, _) => HoldErrors(accounts, request);
    case ReleaseFunds(_, _, _) => HoldErrors(accounts, request);
    case _ =>
  }

  lemma {:induction false} BatchErrors(accounts: AccountMap, specs: seq<BalanceSpec>)
    requires IncreaseEach(accounts, specs).Err?
    ensures var e := IncreaseEach(accounts, specs).error; !e.MissingEvent? && !e.Timeout?
  {
    if specs != [] && IncreaseEach(accounts, specs[..|specs| - 1]).Err? { BatchErrors(accounts, specs[..|specs| - 1]); }
  }

  /** An answer to `cmd` in state `s`: the event of the command itself, the retained event of its id,
      a conflict with that event's type, or the error of handling the request here and now. */
  ghost predicate AnswerTo(s: State, first: nat, position: Position, cmd: Command, response: Response) {
    var n, h := Lookup(s.history, first, cmd.id), Handle(s.accounts, cmd.request);
    match response
    case Ok(e) =>
      && e.header.commandId == cmd.id && SameKind(cmd.request, e.payload)
      && (if n.Some? then e == s.history[n.value - 1]
          else h.Ok? && e == BuildEvent(|s.history| + 1, position, cmd, h.value.payload))
    case Err(e) =>
      if n.Some? then e == ConflictDedupId(cmd.id) && !SameKind(cmd.request, s.history[n.value - 1].payload)
      else h == Err(e) && !e.MissingEvent? && !e.Timeout?
  }

  lemma RunAnswers(s: State, first: nat, position: Position, cmd: Command)
    ensures AnswerTo(s, first, position, cmd, Run(s, first, position, cmd).1)
  {
    hide Handle, SameKind;
    if Handle(s.accounts, cmd.request).Err? { HandleErrors(s.accounts, cmd.request); }
    else { PayloadKind(s.accounts, cmd.request); }
  }

  // ---------- steps ----------

  lemma HistoryGrows(log: Log, sys: System, h: seq<Event>)
    requires VersionsOk(log, sys) && sys.history <= h
    ensures VersionsOk(log, sys.(history := h))
  {
    hide VersionOk;
    forall i | 0 <= i < |sys.versions| ensures VersionOk(log, sys.versions[i], h) {
      assert VersionOk(log, sys.versions[i], sys.history);
      VersionGrows(log, sys.versions[i], sys.history, h);
    }
  }

  lemma VersionGrows(log: Log, d: Db, h: seq<Event>, h': seq<Event>)
    requires VersionOk(log, d, h) && h <= h'
    ensures VersionOk(log, d, h')
  {
    hide DbOk;
    assert h'[..Last(d)] == h[..Last(d)];
  }

  /** A command moves machine and reference machine alike and answers once. */
  lemma ExecuteIs(log: Log, sys: System)
    requires Inv(log, sys) && Enabled(log, sys, Execute)
    ensures var sys' := Step(log, sys, Execute);
            && Outcome(log, sys).0 == State(sys'.m.accounts, sys'.history)
            && Refines(sys'.m, State(sys'.m.accounts, sys'.history))
            && sys'.m.db == sys.m.db && sys'.m.appliedIndex == sys.m.appliedIndex
            && sys'.m.flushedIndex == sys.m.flushedIndex
            && sys'.m.sent == sys.m.sent + [Sent(NextPosition(sys), Outcome(log, sys).1)]
            && sys.history <= sys'.history
  {
    hide Refines, Exec, Run, AlwaysBalanced, VersionsOk, GcOk, Sound;
    var m, s, cmd := sys.m, State(sys.m.accounts, sys.history), Current(log, sys.m)[sys.offset];
    ExecRefines(m, s, NextPosition(sys), cmd);
    ExecFrame(m, NextPosition(sys), cmd);
    RefinesAccounts(m, s);
    RefinesAccounts(Exec(m, NextPosition(sys), cmd), Outcome(log, sys).0);
    RunSound(s, First(m.db), NextPosition(sys), cmd);
  }

  lemma ExecuteKeepsInv(log: Log, sys: System)
    requires Inv(log, sys) && Enabled(log, sys, Execute)
    ensures Inv(log, Step(log, sys, Execute))
  {
    hide Refines, AtBoundary, Exec, Run, AlwaysBalanced, GcBatch, VersionOk, Sound;
    ExecuteIs(log, sys);
    var m, s := sys.m, State(sys.m.accounts, sys.history);
    RefinesAccounts(m, s);
    RunBalanced(s, First(m.db), NextPosition(sys), Current(log, m)[sys.offset]);
    HistoryGrows(log, sys, Step(log, sys, Execute).history);
  }

  lemma FinishKeepsInv(log: Log, sys: System)
    requires Inv(log, sys) && Enabled(log, sys, Finish)
    ensures Inv(log, Step(log, sys, Finish))
  {
    hide Refines, AtBoundary, AlwaysBalanced, GcBatch, VersionOk;
    FinishRefines(sys.m, State(sys.m.accounts, sys.history), sys.m.appliedIndex + 1);
  }

  lemma RefinesAccounts(m: Machine, s: State)
    requires Refines(m, s)
    ensures s.accounts == m.accounts && Last(m.db) <= |s.history| && m.lastSeqNum == |s.history|
    ensures DbOk(m.db, s.history[..Last(m.db)]) && Sound(s)
  {
  }

  lemma InvRefines(log: Log, sys: System)
    requires Inv(log, sys)
    ensures Refines(sys.m, State(sys.m.accounts, sys.history)) && (sys.offset == 0 ==> AtBoundary(sys.m))
    ensures Sound(State(sys.m.accounts, sys.history))
  {
    RefinesAccounts(sys.m, State(sys.m.accounts, sys.history));
  }

  lemma NewVersion(log: Log, sys: System, m: Machine)
    requires VersionsOk(log, sys) && VersionOk(log, m.db, sys.history) && Last(sys.m.db) <= Last(m.db)
    ensures VersionsOk(log, sys.(m := m, versions := sys.versions + [m.db]))
  {
    hide VersionOk;
  }

  /** A flush leaves a pending collection valid: it only adds events above the scanned range. */
  lemma FlushKeepsGc(sys: System)
    requires Refines(sys.m, State(sys.m.accounts, sys.history)) && AtBoundary(sys.m) && GcOk(sys)
    ensures GcOk(sys.(m := Flush(sys.m)))
  {
    if sys.gc.Some? {
      hide Refines, AtBoundary, ApplyOps, DbOk, EventsAre, DedupIs, GcBatch;
      var m, g := sys.m, sys.gc.value;
      FlushDb(m, State(m.accounts, sys.history));
      RefinesDb(m, State(m.accounts, sys.history));
      var d := ApplyOps(m.db, m.wb);
      DbParts(d, sys.history);
      DbParts(m.db, sys.history[..Last(m.db)]);
      SameEvents(d, m.db, sys.history, g.from, g.to);
      ScanFrame(m.db.events, d.events, g.from, g.to);
    }
  }

  /** Two databases of one history hold the same events below the last number of the older. */
  lemma SameEvents(d: Db, d0: Db, h: seq<Event>, from: nat, to: nat)
    requires 1 <= from && to <= Last(d0) <= |h|
    requires EventsAre(d.events, h, from) && EventsAre(d0.events, h[..Last(d0)], from)
    ensures forall n: nat | from <= n < to :: n in d0.events && n in d.events && d.events[n] == d0.events[n]
  {
  }

  lemma FlushKeepsInv(log: Log, sys: System)
    requires Inv(log, sys) && Enabled(log, sys, FlushBatch)
    ensures Inv(log, Step(log, sys, FlushBatch))
  {
    hide Refines, AtBoundary, AlwaysBalanced, GcBatch, VersionsOk, ApplyOps, DbOk, EventsAre, DedupIs;
    var m := sys.m;
    FlushRefines(m, State(m.accounts, sys.history));
    FlushKeepsGc(sys);
    FlushDb(m, State(m.accounts, sys.history));
    DbParts(ApplyOps(m.db, m.wb), sys.history);
    RefinesAccounts(m, State(m.accounts, sys.history));
    assert sys.history[..|sys.history|] == sys.history;
    assert Last(ApplyOps(m.db, m.wb)) == |sys.history|;
    NewVersion(log, sys, Flush(m));
  }

  lemma ScanKeepsInv(log: Log, sys: System, to: nat)
    requires Inv(log, sys) && Enabled(log, sys, ScanEvents(to))
    ensures Inv(log, Step(log, sys, ScanEvents(to)))
  {
    hide Refines, AtBoundary, AlwaysBalanced, VersionOk, GcBatch;
  }

  lemma WriteGcKeepsInv(log: Log, sys: System)
    requires Inv(log, sys) && Enabled(log, sys, WriteGc)
    ensures Inv(log, Step(log, sys, WriteGc))
  {
    hide Refines, AtBoundary, AlwaysBalanced, ApplyOps, DbOk, GcBatch;
    var m, g := sys.m, sys.gc.value;
    GcRefines(m, State(m.accounts, sys.history), g.from, g.to);
    RefinesAccounts(m, State(m.accounts, sys.history));
    GcKeepsDb(m.db, sys.history[..Last(m.db)], g.from, g.to);
    var m' := m.(db := ApplyOps(m.db, g.ops));
    NewVersion(log, sys, m');
  }

  lemma CrashKeepsInv(log: Log, sys: System, v: nat)
    requires Inv(log, sys) && Enabled(log, sys, Crash(v))
    ensures Inv(log, Step(log, sys, Crash(v)))
  {
    hide Refines, AtBoundary, Balanced, DbOk;
    var sys', d := Step(log, sys, Crash(v)), sys.versions[v];
    var h := sys'.history;
    assert VersionOk(log, d, sys.history);
    RecoverRefines(d, h, sys.m.sent);
    assert forall k | 0 <= k <= |h| :: h[..k] == sys.history[..k];
    forall i | 0 <= i < |sys'.versions| ensures VersionOk(log, sys'.versions[i], h) {
      assert VersionOk(log, sys.versions[i], sys.history);
      assert Last(sys.versions[i]) <= Last(d);
    }
    hide VersionOk;
  }

  lemma StepKeepsInv(log: Log, sys: System, action: Action)
    requires Inv(log, sys) && Enabled(log, sys, action)
    ensures Inv(log, Step(log, sys, action))
  {
    hide Inv, Enabled, Step;
    match action
    case Execute => ExecuteKeepsInv(log, sys);
    case Finish => FinishKeepsInv(log, sys);
    case FlushBatch => FlushKeepsInv(log, sys);
    case ScanEvents(to) => ScanKeepsInv(log, sys, to);
    case WriteGc => WriteGcKeepsInv(log, sys);
    case Crash(v) => CrashKeepsInv(log, sys, v);
  }

  lemma InitialInv(log: Log)
    ensures Inv(log, INITIAL)
  {
    assert Live(map[]) == map[];
    RecoverRefines(EMPTY_DB, [], []);
  }

  lemma {:induction false} EveryRunIsSafe(log: Log, actions: seq<Action>)
    requires After(log, actions).Some?
    ensures Inv(log, After(log, actions).value)
  {
    hide Inv, Enabled, Step;
    if actions == [] {
      InitialInv(log);
    } else {
      EveryRunIsSafe(log, actions[..|actions| - 1]);
      StepKeepsInv(log, After(log, actions[..|actions| - 1]).value, actions[|actions| - 1]);
    }
  }
}
