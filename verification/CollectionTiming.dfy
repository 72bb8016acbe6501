/** A collection between two commands of one entry: a command id is a duplicate before it and takes
    effect again after it. */
module CollectionTiming {
  import opened WalletTypes
  import opened Accounts
  import opened Ledger
  import opened EventSourcing
  import opened WalletStore
  import opened WalletMachine
  import opened WalletRefinement
  import opened EventLogGc
  import opened WalletSystem
  import opened Transparency

  /** A command that always succeeds and writes nothing. */
  function Empty(id: nat): Command
    requires id < 256
  {
    Command([id as uint8], 0, BatchBalanceOperation([]))
  }

  const REPEATS: Log := [[Empty(1), Empty(2)], [Empty(1), Empty(1)]]

  const FIRST_ENTRY: seq<Action> := Executes(2) + [Finish] + [FlushBatch]

  /** What an empty batch does to a state. */
  lemma EmptyBatchRuns(s: State, first: nat, position: Position, cmd: Command)
    requires cmd.request == BatchBalanceOperation([])
    ensures var n := Lookup(s.history, first, cmd.id);
            var (s', r) := Run(s, first, position, cmd);
            if n.Some? then s' == s && r == MatchEvent(cmd, s.history[n.value - 1])
            else
              && |s'.history| == |s.history| + 1 && s'.history[..|s.history|] == s.history
              && s'.history[|s.history|].header.commandId == cmd.id
              && s'.history[|s.history|].payload.BatchBalanceOperationEvent?
              && r == Ok(s'.history[|s.history|])
  {
    hide Lookup, MatchEvent;
  }

  lemma EmptyRuns(s: State, first: nat, position: Position)
    requires Lookup(s.history, first, [1]).None?
    ensures var (s', r) := Run(s, first, position, Empty(1));
            && |s'.history| == |s.history| + 1 && s'.history[..|s.history|] == s.history
            && s'.history[|s.history|].header.commandId == [1]
            && r == Ok(s'.history[|s.history|])
  {
    hide Run, Lookup;
    EmptyBatchRuns(s, first, position, Empty(1));
  }

  lemma FirstHistory()
    ensures var s := RunPrefix(EMPTY, 0, 6, REPEATS[0], 2).0;
            && |s.history| == 2 && s.history[0].header.commandId == [1] && s.history[1].header.commandId == [2]
            && s.history[0].payload.BatchBalanceOperationEvent?
  {
    hide Run;
    var cmds := REPEATS[0];
    var s1 := RunPrefix(EMPTY, 0, 6, cmds, 1).0;
    assert RunPrefix(EMPTY, 0, 6, cmds, 0) == (EMPTY, []);
    EmptyBatchRuns(EMPTY, 0, Position(6, 0), cmds[0]);
    assert |s1.history| == 1 && s1.history[0].header.commandId == [1];
    EmptyBatchRuns(s1, 0, Position(6, 1), cmds[1]);
  }

  /** The first entry applied and flushed. */
  lemma Flushed() returns (sys: System)
    ensures After(REPEATS, FIRST_ENTRY) == Some(sys) && Inv(REPEATS, sys)
    ensures sys.offset == 0 && sys.m.appliedIndex == 6 && sys.gc.None?
    ensures First(sys.m.db) == 0 && Last(sys.m.db) == 2 && |sys.history| == 2
    ensures sys.history[0].header.commandId == [1] && sys.history[1].header.commandId == [2]
    ensures sys.history[0].payload.BatchBalanceOperationEvent?
  {
    hide After, Inv, RunPrefix, ExecPrefix, Refines, AtBoundary, ApplyOps, Executes, EventsAre, DedupIs, Unique;
    assert After(REPEATS, []) == Some(INITIAL) by { Start(); }
    InitialInv(REPEATS);
    EntryRun(REPEATS, [], INITIAL);
    assert [] + Executes(2) == Executes(2);
    var one := Whole(REPEATS, INITIAL);
    InvRefines(REPEATS, INITIAL);
    InvRefines(REPEATS, one);
    EntryRefines(INITIAL.m, State(map[], []), REPEATS[0]);
    FirstHistory();
    AfterSnoc(REPEATS, Executes(2) + [Finish], FlushBatch);
    sys := Step(REPEATS, one, FlushBatch);
    EveryRunIsSafe(REPEATS, FIRST_ENTRY);
    FlushDb(one.m, State(one.m.accounts, one.history));
  }

  lemma Start()
    ensures After(REPEATS, []) == Some(INITIAL)
  {
  }

  /** The id of the first command, looked up before and after its event is collected. */
  lemma Numbers(h: seq<Event>)
    requires |h| == 2 && h[0].header.commandId == [1] && h[1].header.commandId == [2]
    ensures Lookup(h, 0, [1]) == Some(1) && Lookup(h, 2, [1]).None?
  {
    assert h[..1][0] == h[0];
  }

  const AFTER_DUPLICATE: seq<Action> := FIRST_ENTRY + [Execute]

  const AFTER_COLLECTION: seq<Action> := AFTER_DUPLICATE + [ScanEvents(2)] + [WriteGc]

  /** The first command of the second entry: it is answered with the recorded event. */
  lemma Answered() returns (sys: System)
    ensures After(REPEATS, AFTER_DUPLICATE) == Some(sys) && Inv(REPEATS, sys)
    ensures sys.offset == 1 && sys.m.appliedIndex == 6 && sys.gc.None?
    ensures First(sys.m.db) == 0 && Last(sys.m.db) == 2 && |sys.history| == 2
    ensures sys.history[0].header.commandId == [1] && sys.history[1].header.commandId == [2]
    ensures sys.m.sent != [] && sys.m.sent[|sys.m.sent| - 1].response == Ok(sys.history[0])
  {
    hide After, Inv, Exec, Run, Executes, Lookup;
    var before := Flushed();
    AfterSnoc(REPEATS, FIRST_ENTRY, Execute);
    EveryRunIsSafe(REPEATS, AFTER_DUPLICATE);
    ExecuteIs(REPEATS, before);
    EmptyBatchRuns(State(before.m.accounts, before.history), 0, NextPosition(before), Empty(1));
    Numbers(before.history);
    sys := Step(REPEATS, before, Execute);
  }

  /** Then the collector deletes that event. */
  lemma CollectedNext() returns (sys: System)
    ensures After(REPEATS, AFTER_COLLECTION) == Some(sys) && Inv(REPEATS, sys)
    ensures sys.offset == 1 && sys.m.appliedIndex == 6
    ensures First(sys.m.db) == 2 && |sys.history| == 2
    ensures sys.history[0].header.commandId == [1] && sys.history[1].header.commandId == [2]
    ensures sys.m.sent != [] && sys.m.sent[|sys.m.sent| - 1].response == Ok(sys.history[0])
  {
    hide After, Inv, Refines, ApplyOps, GcBatch, Executes;
    var before := Answered();
    AfterSnoc(REPEATS, AFTER_DUPLICATE, ScanEvents(2));
    AfterSnoc(REPEATS, AFTER_DUPLICATE + [ScanEvents(2)], WriteGc);
    EveryRunIsSafe(REPEATS, AFTER_COLLECTION);
    InvRefines(REPEATS, before);
    GcRefines(before.m, State(before.m.accounts, before.history), 1, 2);
    sys := Step(REPEATS, Step(REPEATS, before, ScanEvents(2)), WriteGc);
  }

  /** In the second entry the first command is answered with the recorded event; then the collector
      deletes that event, and the second command, with the same id, takes effect again. */
  lemma DuplicateThenEffect()
    ensures var actions := AFTER_COLLECTION + [Execute];
            && After(REPEATS, actions).Some?
            && var sys := After(REPEATS, actions).value;
               && |sys.history| == 3 && sys.history[0].header.commandId == sys.history[2].header.commandId
               && |sys.m.sent| >= 2 && sys.m.sent[|sys.m.sent| - 2].response == Ok(sys.history[0])
               && sys.m.sent[|sys.m.sent| - 1].response == Ok(sys.history[2])
  {
    hide After, Inv, Exec, Run, Executes, Step, Lookup;
    var before := CollectedNext();
    assert Current(REPEATS, before.m) == [Empty(1), Empty(1)];
    hide Current, REPEATS, Empty, AFTER_COLLECTION;
    AfterSnoc(REPEATS, AFTER_COLLECTION, Execute);
    ExecuteIs(REPEATS, before);
    Numbers(before.history);
    EmptyRuns(State(before.m.accounts, before.history), 2, NextPosition(before));
  }

  // ---------- a collection between the two reads of one lookup ----------

  /** In every reachable state with a scan waiting to be written: if it is written after the next
      command, a duplicate, has looked up its sequence number and before it reads the event, the
      unwrap fails if and only if the scan covers that number. */
  lemma RaceFailsExactly(log: Log, actions: seq<Action>, cmd: Command)
    requires After(log, actions).Some?
    requires var sys := After(log, actions).value; sys.gc.Some? && GetSeqNum(sys.m, cmd.id).Some?
    ensures var sys := After(log, actions).value;
            var n := GetSeqNum(sys.m, cmd.id).value;
            AnswerDuplicate(Step(log, sys, WriteGc).m, cmd, n) == Err(MissingEvent) <==> n < sys.gc.value.to
  {
    hide After, Refines, ApplyOps, GcBatch, GetSeqNum, AnswerDuplicate, PlaceOk, VersionsOk;
    EveryRunIsSafe(log, actions);
    var sys := After(log, actions).value;
    RacingLookup(sys.m, State(sys.m.accounts, sys.history), cmd, sys.gc.value.from, sys.gc.value.to);
  }

  /** And such a state is reached: the second entry is next, its first command is a duplicate of the
      event the waiting scan collects. */
  lemma RaceIsReachable()
    ensures var actions := FIRST_ENTRY + [ScanEvents(2)];
            && After(REPEATS, actions).Some?
            && var sys := After(REPEATS, actions).value;
               && sys.gc.Some? && Enabled(REPEATS, sys, Execute)
               && var cmd := Current(REPEATS, sys.m)[sys.offset];
                  && GetSeqNum(sys.m, cmd.id) == Some(1)
                  && AnswerDuplicate(Step(REPEATS, sys, WriteGc).m, cmd, 1) == Err(MissingEvent)
  {
    hide After, Inv, Refines, ApplyOps, GcBatch, GetSeqNum, AnswerDuplicate, Executes, Lookup;
    var before := Flushed();
    AfterSnoc(REPEATS, FIRST_ENTRY, ScanEvents(2));
    InvRefines(REPEATS, before);
    SeqNumRefines(before.m, State(before.m.accounts, before.history), [1]);
    Numbers(before.history);
    RaceFailsExactly(REPEATS, FIRST_ENTRY + [ScanEvents(2)], Empty(1));
  }
}
