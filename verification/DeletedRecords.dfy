/** Deleted accounts leave the store, except those that get a new limit before the next flush. */
module DeletedRecords {
  import opened WalletTypes
  import opened Decimals
  import opened Accounts
  import opened Ledger
  import opened EventSourcing
  import opened Conservation
  import opened WalletStore
  import opened WalletMachine
  import opened WalletRefinement
  import opened EventLogGc
  import opened WalletSystem
  import opened Transparency
  import opened TombstoneTiming

  // ---------- when a deleted record is in the store ----------

  /** The last event that names the account is a new limit for it as a deleted account. */
  ghost predicate Revived(h: seq<Event>, id: Id) {
    h != [] &&
    var e := h[|h| - 1];
    if Names(e, id) then e.payload.AccountConfigUpdated? && e.payload.account.state.Deleted?
    else Revived(h[..|h| - 1], id)
  }

  ghost predicate RecordsAre(records: AccountMap, h: seq<Event>) {
    forall id: Id :: id in Tombstones(records) <==> Revived(h, id)
  }

  /** A request puts a deleted record exactly when it is a new limit for a deleted account. */
  lemma PutsDeleted(accounts: AccountMap, request: Request, w: Account)
    requires AccountsOk(accounts) && Handle(accounts, request).Ok? && w in Handle(accounts, request).value.writes
    ensures var effect := Handle(accounts, request).value;
            !effect.isDelete && w.state.Deleted?
            <==> effect.payload.AccountConfigUpdated? && effect.payload.account.state.Deleted?
  {
    match request
    case Transfer(_, _, _) =>
    case BatchBalanceOperation(specs) => IncreaseEachAt(accounts, specs);
    case ReserveFunds(_, _, _) => HoldsBalanceOnly(accounts, request);
    case ReleaseFunds(_, _, _) => HoldsBalanceOnly(accounts, request);
    case _ =>
  }

  /** The record of `id` after a batch of writes. */
  lemma {:induction false} WriteEachRecord(m: Machine, isDelete: bool, writes: seq<Account>, id: Id)
    ensures var m' := WriteEach(m, isDelete, writes);
            var records, records' := ApplyOps(m.db, m.wb).data, ApplyOps(m'.db, m'.wb).data;
            if exists w <- writes :: w.id == id then
              if isDelete then id !in records' else id in records' && records'[id] in writes
            else (id in records' <==> id in records) && (id in records ==> records'[id] == records[id])
  {
    if writes != [] {
      var init, w := writes[..|writes| - 1], writes[|writes| - 1];
      assert writes == init + [w];
      WriteEachRecord(m, isDelete, init, id);
      var m1 := WriteEach(m, isDelete, init);
      WriteEachIs(m, isDelete, init);
      ApplyOpsSnoc(m1.db, m1.wb, DataOp(isDelete, w));
      hide ApplyOps;
    }
  }

  lemma RevivedSnoc(h: seq<Event>, e: Event, id: Id)
    ensures Revived(h + [e], id) <==>
      if Names(e, id) then e.payload.AccountConfigUpdated? && e.payload.account.state.Deleted? else Revived(h, id)
  {
    assert (h + [e])[..|h|] == h;
  }

  lemma FreshRecord(m: Machine, s: State, position: Position, cmd: Command, id: Id)
    requires Sound(s) && m.accounts == s.accounts && Handle(s.accounts, cmd.request).Ok?
    requires id in Tombstones(ApplyOps(m.db, m.wb).data) <==> Revived(s.history, id)
    ensures var effect := Handle(s.accounts, cmd.request).value;
            var m' := WriteEach(m, effect.isDelete, effect.writes);
            var event := BuildEvent(|s.history| + 1, position, cmd, effect.payload);
            id in Tombstones(ApplyOps(m'.db, m'.wb).data) <==> Revived(s.history + [event], id)
  {
    var effect := Handle(s.accounts, cmd.request).value;
    var event := BuildEvent(|s.history| + 1, position, cmd, effect.payload);
    WritesAreNamed(s.accounts, cmd.request, event.header, id);
    forall w | w in effect.writes
      ensures !effect.isDelete && w.state.Deleted?
              <==> effect.payload.AccountConfigUpdated? && effect.payload.account.state.Deleted?
    {
      PutsDeleted(s.accounts, cmd.request, w);
    }
    hide Handle, Names, ApplyOps, Revived, WriteEach;
    WriteEachRecord(m, effect.isDelete, effect.writes, id);
    RevivedSnoc(s.history, event, id);
  }

  lemma ExecRecords(m: Machine, s: State, position: Position, cmd: Command)
    requires Refines(m, s) && RecordsAre(ApplyOps(m.db, m.wb).data, s.history)
    ensures var m' := Exec(m, position, cmd);
            RecordsAre(ApplyOps(m'.db, m'.wb).data, Run(s, First(m.db), position, cmd).0.history)
  {
    hide Refines, Handle, Exec, Run, WriteEach, ApplyOps, Revived, Lookup, GetSeqNum;
    RefinesAccounts(m, s);
    SeqNumRefines(m, s, cmd.id);
    if Lookup(s.history, First(m.db), cmd.id).Some? || Handle(s.accounts, cmd.request).Err? {
      QuietRefines(m, s, position, cmd);
    } else {
      FreshShape(m, s, position, cmd);
      var effect := Handle(s.accounts, cmd.request).value;
      var m0 := m.(lastSeqNum := m.lastSeqNum + 1);
      var m1 := WriteEach(m0, effect.isDelete, effect.writes);
      var event := BuildEvent(|s.history| + 1, position, cmd, effect.payload);
      RecordData(m1, event);
      WriteEachIs(m0, effect.isDelete, effect.writes);
      forall id: Id ensures id in Tombstones(ApplyOps(m1.db, m1.wb).data) <==> Revived(s.history + [event], id) {
        FreshRecord(m0, s, position, cmd, id);
      }
    }
  }

  // ---------- over every run ----------

  ghost predicate VersionRecords(d: Db, h: seq<Event>) {
    Last(d) <= |h| && RecordsAre(d.data, h[..Last(d)])
  }

  ghost predicate RecordsInv(sys: System) {
    && RecordsAre(ApplyOps(sys.m.db, sys.m.wb).data, sys.history)
    && forall i | 0 <= i < |sys.versions| :: VersionRecords(sys.versions[i], sys.history)
  }

  lemma VersionsStay(sys: System, h: seq<Event>)
    requires sys.history <= h && forall i | 0 <= i < |sys.versions| :: VersionRecords(sys.versions[i], sys.history)
    ensures forall i | 0 <= i < |sys.versions| :: VersionRecords(sys.versions[i], h)
  {
    hide RecordsAre;
    forall i | 0 <= i < |sys.versions| ensures VersionRecords(sys.versions[i], h) {
      var d := sys.versions[i];
      assert VersionRecords(d, sys.history);
      assert h[..Last(d)] == sys.history[..Last(d)];
    }
  }

  lemma ExecuteRecords(log: Log, sys: System)
    requires Inv(log, sys) && Enabled(log, sys, Execute) && RecordsInv(sys)
    ensures RecordsInv(Step(log, sys, Execute))
  {
    hide Inv, Exec, Run, RecordsAre, ApplyOps, VersionRecords, Refines;
    InvRefines(log, sys);
    ExecuteIs(log, sys);
    ExecRecords(sys.m, State(sys.m.accounts, sys.history), NextPosition(sys), Current(log, sys.m)[sys.offset]);
    VersionsStay(sys, Step(log, sys, Execute).history);
  }

  lemma FlushRecords(log: Log, sys: System)
    requires Inv(log, sys) && Enabled(log, sys, FlushBatch) && RecordsInv(sys)
    ensures RecordsInv(Step(log, sys, FlushBatch))
  {
    hide Inv, RecordsAre, ApplyOps, Refines, AtBoundary, EventsAre, DedupIs, Unique, Live, Fold;
    InvRefines(log, sys);
    FlushDb(sys.m, State(sys.m.accounts, sys.history));
    var d := ApplyOps(sys.m.db, sys.m.wb);
    EmptyBatch(d);
    assert sys.history[..Last(d)] == sys.history;
    assert VersionRecords(d, sys.history);
    hide VersionRecords;
  }

  lemma WriteGcRecords(log: Log, sys: System)
    requires Inv(log, sys) && Enabled(log, sys, WriteGc) && RecordsInv(sys)
    ensures RecordsInv(Step(log, sys, WriteGc))
  {
    hide RecordsAre, ApplyOps, Refines, AtBoundary, AlwaysBalanced, GcBatch, DbOk, VersionOk;
    var m, g := sys.m, sys.gc.value;
    InvRefines(log, sys);
    RefinesAccounts(m, State(m.accounts, sys.history));
    GcRefines(m, State(m.accounts, sys.history), g.from, g.to);
    GcKeepsDb(m.db, sys.history[..Last(m.db)], g.from, g.to);
    assert VersionRecords(m.db, sys.history);
    assert VersionRecords(ApplyOps(m.db, g.ops), sys.history);
    hide VersionRecords;
  }

  lemma CrashRecords(log: Log, sys: System, v: nat)
    requires Inv(log, sys) && Enabled(log, sys, Crash(v)) && RecordsInv(sys)
    ensures RecordsInv(Step(log, sys, Crash(v)))
  {
    hide RecordsAre, ApplyOps, Refines, AtBoundary, AlwaysBalanced, VersionOk, GcOk;
    var d, sys' := sys.versions[v], Step(log, sys, Crash(v));
    EmptyBatch(d);
    assert VersionRecords(d, sys.history);
    forall i | 0 <= i <= v ensures VersionRecords(sys.versions[i], sys'.history) {
      assert VersionRecords(sys.versions[i], sys.history) && Last(sys.versions[i]) <= Last(d);
      assert sys'.history[..Last(sys.versions[i])] == sys.history[..Last(sys.versions[i])];
    }
    hide VersionRecords;
  }

  lemma StepRecords(log: Log, sys: System, action: Action)
    requires Inv(log, sys) && Enabled(log, sys, action) && RecordsInv(sys)
    ensures RecordsInv(Step(log, sys, action))
  {
    hide Inv;
    match action
    case Execute => hide RecordsInv, Step; ExecuteRecords(log, sys);
    case Finish => FinishData(sys.m, sys.m.appliedIndex + 1);
    case FlushBatch => hide RecordsInv, Step; FlushRecords(log, sys);
    case ScanEvents(_) =>
    case WriteGc => hide RecordsInv, Step; WriteGcRecords(log, sys);
    case Crash(v) => hide RecordsInv, Step; CrashRecords(log, sys, v);
  }

  lemma InitialRecords()
    ensures RecordsInv(INITIAL)
  {
    EmptyBatch(EMPTY_DB);
    assert Tombstones(map[]) == {};
  }

  lemma {:induction false} EveryRunRecords(log: Log, actions: seq<Action>)
    requires After(log, actions).Some?
    ensures RecordsInv(After(log, actions).value)
  {
    hide Inv, Enabled, Step, RecordsInv;
    if actions == [] {
      InitialRecords();
    } else {
      EveryRunRecords(log, actions[..|actions| - 1]);
      EveryRunIsSafe(log, actions[..|actions| - 1]);
      StepRecords(log, After(log, actions[..|actions| - 1]).value, actions[|actions| - 1]);
    }
  }

  /** In every reachable state, the store with its batch, and every version of the store, holds a
      deleted record of an account exactly when the last event naming the account is a new limit
      accepted while it was deleted. */
  lemma DeletedRecordsExactly(log: Log, actions: seq<Action>, id: Id, v: nat)
    requires After(log, actions).Some? && v < |After(log, actions).value.versions|
    ensures var sys := After(log, actions).value;
            && (id in Tombstones(ApplyOps(sys.m.db, sys.m.wb).data) <==> Revived(sys.history, id))
            && Last(sys.versions[v]) <= |sys.history|
            && (id in Tombstones(sys.versions[v].data) <==> Revived(sys.history[..Last(sys.versions[v])], id))
  {
    hide After, Revived, ApplyOps, Tombstones;
    EveryRunRecords(log, actions);
    assert VersionRecords(After(log, actions).value.versions[v], After(log, actions).value.history);
  }

  /** The command that does it: a fresh new limit leaves a deleted record exactly when memory holds
      the account as a tombstone, or does not know it and there was such a record before. */
  lemma ConfigUpdateRevivesRecord(log: Log, actions: seq<Action>)
    requires After(log, actions).Some? && Enabled(log, After(log, actions).value, Execute)
    requires var sys := After(log, actions).value;
             var cmd := Current(log, sys.m)[sys.offset];
             cmd.request.UpdateAccountConfig? && GetSeqNum(sys.m, cmd.id).None?
    ensures var sys := After(log, actions).value;
            var m, m' := sys.m, Step(log, sys, Execute).m;
            var id := Current(log, m)[sys.offset].request.account;
            id in Tombstones(ApplyOps(m'.db, m'.wb).data) <==>
              if id in m.accounts then m.accounts[id].state.Deleted? else id in Tombstones(ApplyOps(m.db, m.wb).data)
  {
    hide After, Inv, Exec, ApplyOps, Revived, Refines, Lookup, GetSeqNum;
    var sys := After(log, actions).value;
    var s, cmd := State(sys.m.accounts, sys.history), Current(log, sys.m)[sys.offset];
    EveryRunIsSafe(log, actions);
    EveryRunRecords(log, actions);
    InvRefines(log, sys);
    StepRecords(log, sys, Execute);
    ExecuteIs(log, sys);
    SeqNumRefines(sys.m, s, cmd.id);
    var id := cmd.request.account;
    if id in s.accounts {
      var a := SetBalanceLimit(s.accounts[id], cmd.request.limit);
      var e := BuildEvent(|s.history| + 1, NextPosition(sys), cmd, AccountConfigUpdated(a));
      assert Outcome(log, sys).0.history == s.history + [e];
      RevivedSnoc(s.history, e, id);
    }
  }

  // ---------- a run that leaves one ----------

  /** Create an account, delete it and give it a limit, in one entry. */
  function ReviveLog(x: Id, limit: BalanceLimit): Log {
    [[Command([1], 0, CreateAccount(x)), Command([2], 0, DeleteAccount(x)),
      Command([3], 0, UpdateAccountConfig(x, limit))]]
  }

  lemma ReviveHistory(x: Id, limit: BalanceLimit)
    ensures var s := RunPrefix(EMPTY, 0, 6, ReviveLog(x, limit)[0], 3).0;
            && Revived(s.history, x)
            && x in s.accounts && s.accounts[x].state.Deleted?
  {
    var cmds := ReviveLog(x, limit)[0];
    var s1 := RunPrefix(EMPTY, 0, 6, cmds, 1).0;
    var s2 := RunPrefix(EMPTY, 0, 6, cmds, 2).0;
    assert s1 == Run(EMPTY, 0, Position(6, 0), cmds[0]).0 by { assert RunPrefix(EMPTY, 0, 6, cmds, 0) == (EMPTY, []); }
    WriteOne(map[], New(x));
    assert s1.accounts == map[x := New(x)] && |s1.history| == 1 && s1.history[0].header.commandId == [1];
    assert s2 == Run(s1, 0, Position(6, 1), cmds[1]).0;
    RunDelete(s1, x, 6, 1);
    LimitOnDeleted(s2, x, limit);
  }

  lemma LimitOnDeleted(s: State, x: Id, limit: BalanceLimit)
    requires s.accounts == map[x := New(x).(state := Deleted)] && |s.history| == 2
    requires s.history[0].header.commandId == [1] && s.history[1].header.commandId == [2]
    ensures var s' := Run(s, 0, Position(6, 2), ReviveLog(x, limit)[0][2]).0;
            Revived(s'.history, x) && x in s'.accounts && s'.accounts[x].state.Deleted?
  {
    var cmd := ReviveLog(x, limit)[0][2];
    var a := SetBalanceLimit(s.accounts[x], limit);
    assert s.history[0].header.commandId != [3] && s.history[1].header.commandId != [3];
    WriteOne(s.accounts, a);
    var e := BuildEvent(3, Position(6, 2), cmd, AccountConfigUpdated(a));
    assert Run(s, 0, Position(6, 2), cmd).0 == State(s.accounts[x := a], s.history + [e]);
    RevivedSnoc(s.history, e, x);
  }

  /** After the flush the store holds the deleted record, though memory has dropped the account. */
  lemma DeletedRecordSurvives(x: Id, limit: BalanceLimit)
    ensures var log, actions := ReviveLog(x, limit), Executes(3) + [Finish] + [FlushBatch];
            && After(log, actions).Some?
            && var m := After(log, actions).value.m;
               x in Tombstones(m.db.data) && x !in m.accounts
  {
    hide After, Inv, RunPrefix, Run, ExecPrefix, Exec, Revived, Executes, ApplyOps, Refines, AtBoundary;
    var log := ReviveLog(x, limit);
    assert After(log, []) == Some(INITIAL) by { NoActions(log); }
    InitialInv(log);
    EntryRun(log, [], INITIAL);
    assert [] + Executes(3) == Executes(3);
    var sys := Whole(log, INITIAL);
    ReviveHistory(x, limit);
    InvRefines(log, INITIAL);
    EntryRefines(INITIAL.m, State(map[], []), log[0]);
    AfterSnoc(log, Executes(3) + [Finish], FlushBatch);
    var actions := Executes(3) + [Finish] + [FlushBatch];
    EveryRunRecords(log, actions);
    EmptyBatch(Flush(sys.m).db);
    ReviveForgets(log, x, limit);
  }

  lemma NoActions(log: Log)
    ensures After(log, []) == Some(INITIAL)
  {
  }

  lemma ReviveForgets(log: Log, x: Id, limit: BalanceLimit)
    requires log == ReviveLog(x, limit)
    ensures x !in Flush(Whole(log, INITIAL).m).accounts
  {
    hide Inv, RunPrefix, Run, ExecPrefix, Exec, Refines, AtBoundary, Marked;
    InitialInv(log);
    InvRefines(log, INITIAL);
    var m, s := INITIAL.m, State(map[], []);
    InitialMarked();
    PrefixMarks(m, s, 6, log[0], 3);
    ExecPrefixRefines(m, s, 6, log[0], 3);
    var m1, s1 := ExecPrefix(m, 6, log[0], 3), RunPrefix(s, First(m.db), 6, log[0], 3).0;
    RefinesAccounts(m1, s1);
    RefinesLayered(m1, s1);
    ForgetMarked(m1);
    ReviveHistory(x, limit);
  }

  lemma InitialMarked()
    ensures Marked(INITIAL.m)
  {
  }

  // ---------- and after a restart ----------

  /** A tombstone in memory that no flush will drop. */
  ghost predicate Stuck(m: Machine, id: Id) {
    id in m.accounts && m.accounts[id].state.Deleted? && id !in m.toBeDeleted
  }

  lemma OnlyLiveAreDeleted(accounts: AccountMap, request: Request, w: Account)
    requires AccountsOk(accounts) && Handle(accounts, request).Ok? && w in Handle(accounts, request).value.writes
    requires Handle(accounts, request).value.isDelete
    ensures w.id in accounts && !accounts[w.id].state.Deleted?
  {
  }

  lemma ExecStuck(m: Machine, s: State, position: Position, cmd: Command, id: Id)
    requires Refines(m, s) && Stuck(m, id)
    ensures Stuck(Exec(m, position, cmd), id)
  {
    hide Refines;
    RefinesAccounts(m, s);
    if GetSeqNum(m, cmd.id).None? && Handle(m.accounts, cmd.request).Ok? {
      var effect := Handle(m.accounts, cmd.request).value;
      var m0 := m.(lastSeqNum := m.lastSeqNum + 1);
      forall w | w in effect.writes && w.id == id ensures w.state.Deleted? && !effect.isDelete {
        TombstonesStay(m.accounts, cmd.request, w);
        if effect.isDelete { OnlyLiveAreDeleted(m.accounts, cmd.request, w); }
      }
      hide Handle;
      WriteEachIs(m0, effect.isDelete, effect.writes);
      WriteAllAt(m.accounts, effect.writes, id);
      if id in WriteEach(m0, effect.isDelete, effect.writes).toBeDeleted {
        WriteEachDeletes(m0, effect.isDelete, effect.writes, id);
      }
    }
  }

  lemma StuckStep(log: Log, sys: System, action: Action, id: Id)
    requires Inv(log, sys) && Enabled(log, sys, action) && Stuck(sys.m, id) && !action.Crash?
    ensures Stuck(Step(log, sys, action).m, id)
  {
    hide Inv, Exec, Run, Refines;
    InvRefines(log, sys);
    if action.Execute? {
      ExecStuck(sys.m, State(sys.m.accounts, sys.history), NextPosition(sys), Current(log, sys.m)[sys.offset], id);
    }
  }

  /** A restart from a store with a deleted record brings the account back as a tombstone no flush
      drops: from then on, without another crash, it is never created again. */
  lemma {:induction false} RefusedForGood(log: Log, actions: seq<Action>, v: nat, more: seq<Action>, id: Id)
    requires After(log, actions).Some? && v < |After(log, actions).value.versions|
    requires id in Tombstones(After(log, actions).value.versions[v].data)
    requires After(log, actions + [Crash(v)] + more).Some? && forall i | 0 <= i < |more| :: !more[i].Crash?
    ensures var m := After(log, actions + [Crash(v)] + more).value.m;
            Stuck(m, id) && Handle(m.accounts, CreateAccount(id)) == Err(AccountAlreadyExist(id))
    decreases |more|
  {
    hide Inv, Step, Enabled;
    var start := actions + [Crash(v)];
    if more == [] {
      assert start + [] == start && start[..|actions|] == actions;
      RestartSticks(log, After(log, actions).value, v, id);
    } else {
      var init, action := more[..|more| - 1], more[|more| - 1];
      assert (start + more)[..|start + more| - 1] == start + init;
      RefusedForGood(log, actions, v, init, id);
      EveryRunIsSafe(log, start + init);
      StuckStep(log, After(log, start + init).value, action, id);
    }
  }

  lemma RestartSticks(log: Log, sys: System, v: nat, id: Id)
    requires Enabled(log, sys, Crash(v)) && id in Tombstones(sys.versions[v].data)
    ensures Stuck(Step(log, sys, Crash(v)).m, id)
  {
  }
}
