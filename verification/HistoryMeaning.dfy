/** What the history of every run records: each event is that of the command at its position, tells
    what the command did, and no position of the log has two. */
module HistoryMeaning {
  import opened WalletTypes
  import opened Decimals
  import opened Accounts
  import opened Ledger
  import opened EventSourcing
  import opened RequestMeaning
  import opened Conservation
  import opened WalletStore
  import opened WalletMachine
  import opened WalletRefinement
  import opened EventLogGc
  import opened WalletSystem
  import B = MessageBroker

  // ---------- one event ----------

  /** Accounts `m` and `m'`, tombstones included, before and after event `i`. */
  ghost predicate Explains(h: seq<Event>, i: nat, m: AccountMap, m': AccountMap)
    requires i < |h|
  {
    && AccountsOk(m) && Live(m) == Fold(h[..i]) && Live(m') == Fold(h[..i + 1])
    && Means(m, m', h[i].request, h[i].payload)
  }

  /** Event `i` carries its number, the position, id, time and request of a command of the log, and
      what that request means. */
  ghost predicate Recorded(log: Log, h: seq<Event>, i: nat)
    requires i < |h|
  {
    var header := h[i].header;
    && header.seqNum == i + 1
    && InLog(log, header.position)
    && CommandAt(log, header.position) == Command(header.commandId, header.time, h[i].request)
    && exists m, m' :: Explains(h, i, m, m')
  }

  ghost predicate AllRecorded(log: Log, h: seq<Event>) { forall i | 0 <= i < |h| :: Recorded(log, h, i) }

  /** Positions grow along the history, and all lie before `next`. */
  ghost predicate InLogOrder(h: seq<Event>, next: Position) {
    && (forall i, j | 0 <= i < j < |h| :: B.Before(h[i].header.position, h[j].header.position))
    && (forall i | 0 <= i < |h| :: B.Before(h[i].header.position, next))
  }

  /** A database is not behind the events it counts. */
  ghost predicate Caught(h: seq<Event>, d: Db) {
    forall i | 0 <= i < Last(d) && i < |h| :: h[i].header.position.logIndex <= Applied(d)
  }

  ghost predicate HistoryOk(log: Log, sys: System) {
    && AllRecorded(log, sys.history)
    && InLogOrder(sys.history, NextPosition(sys))
    && forall v | 0 <= v < |sys.versions| :: Caught(sys.history, sys.versions[v])
  }

  // ---------- executing a command ----------

  /** One command on a sound state: nothing, or one event more that tells what it did. */
  lemma RunMeans(s: State, first: nat, position: Position, cmd: Command)
    requires Sound(s)
    ensures var s' := Run(s, first, position, cmd).0;
            || s' == s
            || (&& |s'.history| == |s.history| + 1 && s.history <= s'.history
                && var e := s'.history[|s.history|];
                   && e.header == EventHeader(|s.history| + 1, position, cmd.id, cmd.time) && e.request == cmd.request
                   && Means(s.accounts, s'.accounts, cmd.request, e.payload))
  {
    hide Handle, Lookup, Means, WriteAll, MatchEvent;
    RequestExactly(s.accounts, cmd.request);
  }

  lemma RecordedLonger(log: Log, h: seq<Event>, h': seq<Event>, i: nat)
    requires i < |h| && Recorded(log, h, i) && h <= h'
    ensures Recorded(log, h', i)
  {
    var m, m' :| Explains(h, i, m, m');
    assert h'[..i] == h[..i] && h'[..i + 1] == h[..i + 1];
    assert Explains(h', i, m, m');
  }

  lemma RecordedShorter(log: Log, h: seq<Event>, n: nat, i: nat)
    requires i < n <= |h| && Recorded(log, h, i)
    ensures Recorded(log, h[..n], i)
  {
    var m, m' :| Explains(h, i, m, m');
    assert h[..n][..i] == h[..i] && h[..n][..i + 1] == h[..i + 1];
    assert Explains(h[..n], i, m, m');
  }

  lemma ExecuteRecords(log: Log, sys: System)
    requires Inv(log, sys) && HistoryOk(log, sys) && Enabled(log, sys, Execute)
    ensures AllRecorded(log, Step(log, sys, Execute).history)
  {
    hide Inv, Run, Exec, Recorded, Means, Sound, Refines, InLogOrder, Caught;
    var sys' := Step(log, sys, Execute);
    var s, h, h' := State(sys.m.accounts, sys.history), sys.history, sys'.history;
    InvRefines(log, sys);
    ExecuteIs(log, sys);
    RefinesAccounts(sys'.m, State(sys'.m.accounts, h'));
    var cmd := Current(log, sys.m)[sys.offset];
    RunMeans(s, First(sys.m.db), NextPosition(sys), cmd);
    hide Step;
    forall i | 0 <= i < |h'| ensures Recorded(log, h', i) {
      if i < |h| { RecordedLonger(log, h, h', i); } else { NewIsRecorded(log, sys, sys'); }
    }
  }

  lemma NewIsRecorded(log: Log, sys: System, sys': System)
    requires Inv(log, sys) && Enabled(log, sys, Execute)
    requires Sound(State(sys.m.accounts, sys.history)) && Sound(State(sys'.m.accounts, sys'.history))
    requires |sys'.history| == |sys.history| + 1 && sys.history <= sys'.history
    requires var e, cmd := sys'.history[|sys.history|], Current(log, sys.m)[sys.offset];
             && e.header == EventHeader(|sys.history| + 1, NextPosition(sys), cmd.id, cmd.time)
             && e.request == cmd.request && Means(sys.m.accounts, sys'.m.accounts, cmd.request, e.payload)
    ensures Recorded(log, sys'.history, |sys.history|)
  {
    hide Means, Fold, Live, AccountsOk, Refines, AlwaysBalanced, VersionsOk, GcOk, AtBoundary;
    var n := |sys.history|;
    assert sys'.history[..n] == sys.history && sys'.history[..n + 1] == sys'.history;
    assert Explains(sys'.history, n, sys.m.accounts, sys'.m.accounts);
  }

  lemma ExecuteOrders(log: Log, sys: System)
    requires Inv(log, sys) && HistoryOk(log, sys) && Enabled(log, sys, Execute)
    ensures var sys' := Step(log, sys, Execute);
            && InLogOrder(sys'.history, NextPosition(sys'))
            && forall v | 0 <= v < |sys'.versions| :: Caught(sys'.history, sys'.versions[v])
  {
    hide Run, Exec, Recorded, Means, Refines, AlwaysBalanced, GcOk, DbOk;
    InvRefines(log, sys);
    ExecuteIs(log, sys);
    var sys', cmd := Step(log, sys, Execute), Current(log, sys.m)[sys.offset];
    RunMeans(State(sys.m.accounts, sys.history), First(sys.m.db), NextPosition(sys), cmd);
    forall v | 0 <= v < |sys.versions| ensures Caught(sys'.history, sys.versions[v]) {
      assert VersionOk(log, sys.versions[v], sys.history);
      assert Caught(sys.history, sys.versions[v]);
    }
  }

  // ---------- the other steps ----------

  lemma FlushCatchesUp(log: Log, sys: System)
    requires Inv(log, sys) && HistoryOk(log, sys) && Enabled(log, sys, FlushBatch)
    ensures HistoryOk(log, Step(log, sys, FlushBatch))
  {
    hide Refines, AlwaysBalanced, GcOk, DbOk, ApplyOps, VersionsOk, Recorded;
    FlushDb(sys.m, State(sys.m.accounts, sys.history));
    assert Caught(sys.history, Flush(sys.m).db);
  }

  lemma GcCatchesUp(log: Log, sys: System)
    requires Inv(log, sys) && HistoryOk(log, sys) && Enabled(log, sys, WriteGc)
    ensures HistoryOk(log, Step(log, sys, WriteGc))
  {
    hide Refines, AlwaysBalanced, DbOk, ApplyOps, AtBoundary, Recorded, GcBatch, VersionOk;
    RefinesAccounts(sys.m, State(sys.m.accounts, sys.history));
    var g, d' := sys.gc.value, Step(log, sys, WriteGc).m.db;
    GcKeepsDb(sys.m.db, sys.history[..Last(sys.m.db)], g.from, g.to);
    assert Caught(sys.history, sys.versions[|sys.versions| - 1]);
    assert Caught(sys.history, d');
  }

  lemma CrashCatchesUp(log: Log, sys: System, v: nat)
    requires Inv(log, sys) && HistoryOk(log, sys) && Enabled(log, sys, Crash(v))
    ensures HistoryOk(log, Step(log, sys, Crash(v)))
  {
    hide Refines, AlwaysBalanced, DbOk, AtBoundary, Recorded, GcOk;
    var sys', d := Step(log, sys, Crash(v)), sys.versions[v];
    assert VersionOk(log, d, sys.history) && Caught(sys.history, d);
    forall i | 0 <= i < |sys'.history| ensures Recorded(log, sys'.history, i) {
      RecordedShorter(log, sys.history, Last(d), i);
    }
    forall w | 0 <= w < |sys'.versions| ensures Caught(sys'.history, sys'.versions[w]) {
      assert Caught(sys.history, sys.versions[w]);
    }
  }

  lemma StepRecords(log: Log, sys: System, action: Action)
    requires Inv(log, sys) && HistoryOk(log, sys) && Enabled(log, sys, action)
    ensures HistoryOk(log, Step(log, sys, action))
  {
    hide Inv, Recorded, Caught, Exec, Run;
    match action
    case Execute => ExecuteRecords(log, sys); ExecuteOrders(log, sys);
    case Finish =>
    case FlushBatch => FlushCatchesUp(log, sys);
    case ScanEvents(_) =>
    case WriteGc => GcCatchesUp(log, sys);
    case Crash(v) => CrashCatchesUp(log, sys, v);
  }

  lemma {:induction false} EveryRunRecords(log: Log, actions: seq<Action>)
    requires After(log, actions).Some?
    ensures HistoryOk(log, After(log, actions).value)
  {
    if actions != [] {
      hide Inv, HistoryOk, Enabled, Step;
      EveryRunRecords(log, actions[..|actions| - 1]);
      EveryRunIsSafe(log, actions[..|actions| - 1]);
      StepRecords(log, After(log, actions[..|actions| - 1]).value, actions[|actions| - 1]);
    }
  }

  // ---------- theorems ----------

  /** In every reachable state, event `n` of the history has number `n`, carries the id, the time and
      the request of the command at its position in the log, and tells what that request means for
      the accounts before and after it. */
  lemma EventsAreTrue(log: Log, actions: seq<Action>, n: nat) returns (m: AccountMap, m': AccountMap)
    requires After(log, actions).Some? && 1 <= n <= |After(log, actions).value.history|
    ensures var h := After(log, actions).value.history;
            var e := h[n - 1];
            && e.header.seqNum == n && InLog(log, e.header.position)
            && CommandAt(log, e.header.position) == Command(e.header.commandId, e.header.time, e.request)
            && Live(m) == Fold(h[..n - 1]) && Live(m') == Fold(h[..n])
            && Means(m, m', e.request, e.payload)
  {
    hide After, Means;
    EveryRunRecords(log, actions);
    var h := After(log, actions).value.history;
    assert Recorded(log, h, n - 1);
    m, m' :| Explains(h, n - 1, m, m');
  }

  /** Whatever crashes and is applied again, no two events of a history are of one log position, and
      they come in log order. */
  lemma OncePerPosition(log: Log, actions: seq<Action>, i: nat, j: nat)
    requires After(log, actions).Some? && i < j < |After(log, actions).value.history|
    ensures var h := After(log, actions).value.history;
            B.Before(h[i].header.position, h[j].header.position)
  {
    hide After;
    EveryRunRecords(log, actions);
  }

  // ---------- limits ----------

  /** The limit an account has by the requests of the history: the one last set while it was there,
      none since it was created, deleted or never heard of. */
  ghost function LimitOf(h: seq<Event>, id: Id): Option<BalanceLimit> {
    if h == [] then None
    else
      var init, request := h[..|h| - 1], h[|h| - 1].request;
      if request == CreateAccount(id) || request == DeleteAccount(id) then None
      else if request.UpdateAccountConfig? && request.account == id then
        if id in Fold(init) then Some(request.limit) else None
      else LimitOf(init, id)
  }

  ghost predicate LimitsAre(h: seq<Event>, id: Id) {
    LimitOf(h, id) == if id in Fold(h) then Fold(h)[id].config.limit else None
  }

  /** How one request changes whether an account is there and which limit it has. */
  lemma LimitChange(m: AccountMap, m': AccountMap, request: Request, payload: Payload, id: Id)
    requires Means(m, m', request, payload)
    ensures var live, live' := Live(m), Live(m');
            if request == CreateAccount(id) then id in live' && live'[id].config.limit == None
            else if request == DeleteAccount(id) then id !in live'
            else if request.UpdateAccountConfig? && request.account == id then
              (id in live <==> id in live') && (id in live' ==> live'[id].config.limit == Some(request.limit))
            else if id in live then id in live' && live'[id].config.limit == live[id].config.limit
            else id in live' ==> live'[id].config.limit == None
  {
    hide Says, Admits;
    if request.BatchBalanceOperation? {
      BatchLimit(m, m', request.specs, id);
    }
  }

  lemma BatchLimit(m: AccountMap, m': AccountMap, specs: seq<BalanceSpec>, id: Id)
    requires Accepted(m, BatchBalanceOperation(specs)) && Changed(m, m', BatchBalanceOperation(specs))
    ensures var live, live' := Live(m), Live(m');
            if id in live then id in live' && live'[id].config.limit == live[id].config.limit
            else id in live' ==> live'[id].config.limit == None
  {
    if id in Named(specs) {
      var i := LastFor(specs, id);
      assert Moved(m, id, m'[id], Value(specs[i].amount), Reservations(m, id));
      assert MayMove(m, specs[i].account, Value(specs[i].amount));
    }
  }

  lemma {:induction false} LastFor(specs: seq<BalanceSpec>, id: Id) returns (i: nat)
    requires id in Named(specs)
    ensures i < |specs| && specs[i].account == id && IsLast(specs, i)
  {
    var n := |specs| - 1;
    if specs[n].account == id {
      i := n;
    } else {
      var j :| 0 <= j < |specs| && specs[j].account == id;
      assert specs[..n][j].account == id;
      i := LastFor(specs[..n], id);
    }
  }

  lemma {:induction false} RecordedLimits(log: Log, h: seq<Event>, id: Id)
    requires AllRecorded(log, h)
    ensures LimitsAre(h, id)
  {
    if h != [] {
      hide Recorded, LimitsAre;
      var n := |h| - 1;
      forall i | 0 <= i < n ensures Recorded(log, h[..n], i) { RecordedShorter(log, h, n, i); }
      RecordedLimits(log, h[..n], id);
      assert Recorded(log, h, n);
      LimitsNext(log, h, id);
    }
  }

  lemma LimitsNext(log: Log, h: seq<Event>, id: Id)
    requires h != [] && Recorded(log, h, |h| - 1) && LimitsAre(h[..|h| - 1], id)
    ensures LimitsAre(h, id)
  {
    hide Means, Live, Fold, AccountsOk;
    var n := |h| - 1;
    assert h[..n + 1] == h;
    var m, m' :| Explains(h, n, m, m');
    LimitChange(m, m', h[n].request, h[n].payload, id);
  }

  /** In every reachable state a live account has exactly the limit last set for it while it was
      there; and a balance operation since then has left the available amount inside that limit. */
  lemma LimitsAreThoseSet(log: Log, actions: seq<Action>, id: Id)
    requires After(log, actions).Some? && id in Live(After(log, actions).value.m.accounts)
    ensures var sys := After(log, actions).value;
            var a, limit := sys.m.accounts[id], LimitOf(sys.history, id);
            && a.config.limit == limit
            && (limit.Some? && LimitInForce(sys.history, id) ==>
                  a.balance.available.Number? && Admits(limit.value, Value(a.balance.available)))
  {
    hide After, Refines, VersionsOk, GcOk, PlaceOk, LimitInForce, LimitOf;
    EveryRunIsSafe(log, actions);
    EveryRunRecords(log, actions);
    var sys := After(log, actions).value;
    RefinesAccounts(sys.m, State(sys.m.accounts, sys.history));
    RecordedLimits(log, sys.history, id);
    assert sys.history[..|sys.history|] == sys.history && Balanced(sys.history);
  }
}
