/** Does it matter when the wallet flushes or crashes? Exactly for the logs in which a fresh
    command reaches an account deleted by an earlier entry. */
module Transparency {
  import opened WalletTypes
  import opened Accounts
  import opened Ledger
  import opened EventSourcing
  import opened WalletStore
  import opened WalletMachine
  import opened WalletRefinement
  import opened WalletSystem
  import Conservation

  // ---------- the canonical run ----------

  /** The reference run that drops tombstones after every entry. */
  ghost function Canon(log: Log, k: nat): State
    requires k <= |log|
    decreases k, 0
  {
    if k == 0 then EMPTY
    else var s := EntryEnd(log, k - 1); State(Live(s.accounts), s.history)
  }

  /** The state at the end of entry `k`, tombstones included. */
  ghost function EntryEnd(log: Log, k: nat): State
    requires k < |log|
    decreases k, 1
  {
    RunEntry(Canon(log, k), 0, INITIAL_APPLIED_INDEX + k + 1, log[k]).0
  }

  ghost function CanonOut(log: Log, k: nat): seq<Response>
    requires k < |log|
  {
    RunEntry(Canon(log, k), 0, INITIAL_APPLIED_INDEX + k + 1, log[k]).1
  }

  /** The state the canonical run executes command `j` of entry `k` in. */
  ghost function Before(log: Log, k: nat, j: nat): State
    requires k < |log| && j <= |log[k]|
  {
    RunPrefix(Canon(log, k), 0, INITIAL_APPLIED_INDEX + k + 1, log[k], j).0
  }

  function Size(log: Log, k: nat): nat { if k < |log| then |log[k]| else 0 }

  /** The state of the canonical run before command `j` of entry `k`, or at the end of the log. */
  ghost function At(log: Log, k: nat, j: nat): State
    requires k <= |log| && j <= Size(log, k)
  {
    if k < |log| then Before(log, k, j) else Canon(log, k)
  }

  /** The accounts deleted by the first `k` entries. */
  ghost function Dead(log: Log, k: nat): set<Id>
    requires k <= |log|
  {
    if k == 0 then {} else Dead(log, k - 1) + Tombstones(EntryEnd(log, k - 1).accounts)
  }

  // ---------- the condition ----------

  function TouchedSpecs(accounts: AccountMap, specs: seq<BalanceSpec>): set<Id> {
    if specs == [] then {}
    else
      var init := specs[..|specs| - 1];
      TouchedSpecs(accounts, init)
      + (if IncreaseEach(accounts, init).Ok? then {specs[|specs| - 1].account} else {})
  }

  /** The accounts whose records decide the outcome of a request. */
  function Touched(accounts: AccountMap, request: Request): set<Id> {
    match request
    case Transfer(amount, source, dest) =>
      {dest} + (if IncreaseBalanceBy(GetOrCreate(accounts, dest), amount).Ok? then {source} else {})
    case BatchBalanceOperation(specs) => TouchedSpecs(accounts, specs)
    case _ => {request.account}
  }

  const REFUSED: Error := InvalidAccountState(Deleted)

  /** The request reaches a dead account, and no account it reaches is deleted as it stands. */
  predicate Sensitive(accounts: AccountMap, request: Request, dead: set<Id>) {
    Touched(accounts, request) * dead != {} && Touched(accounts, request) * Tombstones(accounts) == {}
  }

  /** A balance operation is refused for a deleted account exactly when it reaches one. */
  lemma {:induction false} RefusedSpecs(accounts: AccountMap, specs: seq<BalanceSpec>)
    ensures IncreaseEach(accounts, specs) == Err(REFUSED)
            <==> TouchedSpecs(accounts, specs) * Tombstones(accounts) != {}
  {
    if specs != [] {
      var init, id := specs[..|specs| - 1], specs[|specs| - 1].account;
      RefusedSpecs(accounts, init);
      assert GetOrCreate(accounts, id).state.Deleted? <==> id in Tombstones(accounts);
      if IncreaseEach(accounts, init).Ok? {
        var touched, dead := TouchedSpecs(accounts, specs), Tombstones(accounts);
        assert touched * dead == {id} * dead;
        assert id in dead <==> touched * dead != {} by { if id in dead { assert id in touched * dead; } }
      } else {
        assert TouchedSpecs(accounts, specs) == TouchedSpecs(accounts, init);
      }
    }
  }

  lemma RefusedExactly(accounts: AccountMap, request: Request)
    requires AccountsOk(accounts) && (request.Transfer? || request.BatchBalanceOperation?)
    ensures Handle(accounts, request) == Err(REFUSED) <==> Touched(accounts, request) * Tombstones(accounts) != {}
  {
    match request
    case BatchBalanceOperation(specs) => RefusedSpecs(accounts, specs);
    case Transfer(amount, source, dest) =>
      GetOrCreateOk(accounts, source);
      GetOrCreateOk(accounts, dest);
      assert GetOrCreate(accounts, dest).state.Deleted? <==> dest in Tombstones(accounts);
      assert GetOrCreate(accounts, source).state.Deleted? <==> source in Tombstones(accounts);
      var touched := Touched(accounts, request);
      assert dest in touched;
      assert touched * Tombstones(accounts) != {} <==>
        dest in Tombstones(accounts) || (source in touched && source in Tombstones(accounts)) by {
        if dest in Tombstones(accounts) { assert dest in touched * Tombstones(accounts); }
        if source in touched && source in Tombstones(accounts) { assert source in touched * Tombstones(accounts); }
      }
  }

  ghost predicate CleanCommand(log: Log, k: nat, j: nat)
    requires k < |log| && j < |log[k]|
  {
    var s, cmd := Before(log, k, j), log[k][j];
    Lookup(s.history, 0, cmd.id).None? ==> !Sensitive(s.accounts, cmd.request, Dead(log, k))
  }

  /** No fresh command of the log reaches an account that an earlier entry deleted. */
  ghost predicate CleanLog(log: Log) {
    forall k, j | 0 <= k < |log| && 0 <= j < |log[k]| :: CleanCommand(log, k, j)
  }

  ghost predicate CleanUpTo(log: Log, k: nat, j: nat)
    requires k <= |log|
  {
    && (forall k', j' | 0 <= k' < k && 0 <= j' < |log[k']| :: CleanCommand(log, k', j'))
    && (k < |log| ==> j <= |log[k]| && forall j' | 0 <= j' < j :: CleanCommand(log, k, j'))
  }

  // ---------- maps that differ in tombstones only ----------

  /** `a` is `c` plus, possibly, tombstones of dead accounts. */
  ghost predicate Rel(a: AccountMap, c: AccountMap, dead: set<Id>) {
    && (forall id | id !in dead :: (id in a <==> id in c) && (id in a ==> a[id] == c[id]))
    && (forall id <- a :: id in dead ==> a[id].state.Deleted?)
    && (forall id <- c :: id !in dead)
  }

  lemma {:induction false} SpecsRel(a: AccountMap, c: AccountMap, dead: set<Id>, specs: seq<BalanceSpec>)
    requires Rel(a, c, dead)
    ensures || IncreaseEach(a, specs) == IncreaseEach(c, specs)
            || (TouchedSpecs(c, specs) * dead != {} && IncreaseEach(a, specs) == Err(REFUSED))
    ensures dead <= a.Keys && TouchedSpecs(c, specs) * dead != {} ==> IncreaseEach(a, specs) == Err(REFUSED)
  {
    if specs != [] {
      var init, spec := specs[..|specs| - 1], specs[|specs| - 1];
      SpecsRel(a, c, dead, init);
      var touched := TouchedSpecs(c, init);
      assert touched <= TouchedSpecs(c, specs);
      if touched * dead != {} {
        var x :| x in touched * dead;
        assert x in TouchedSpecs(c, specs) * dead;
      } else {
        SpecRel(a, c, dead, spec);
        if spec.account in TouchedSpecs(c, specs) && spec.account in dead {
          assert spec.account in TouchedSpecs(c, specs) * dead;
        }
        assert IncreaseEach(c, init).Err? ==> TouchedSpecs(c, specs) == touched;
        assert spec.account !in dead ==> TouchedSpecs(c, specs) * dead == {};
      }
    }
  }

  /** One spec, on a dead account or not. */
  lemma SpecRel(a: AccountMap, c: AccountMap, dead: set<Id>, spec: BalanceSpec)
    requires Rel(a, c, dead)
    ensures var ra := IncreaseBalanceBy(GetOrCreate(a, spec.account), spec.amount);
            var rc := IncreaseBalanceBy(GetOrCreate(c, spec.account), spec.amount);
            && (spec.account !in dead || spec.account !in a ==> ra == rc)
            && (spec.account in dead && spec.account in a ==> ra == Err(REFUSED))
  {
  }

  lemma TransferRel(a: AccountMap, c: AccountMap, dead: set<Id>, request: Request)
    requires Rel(a, c, dead) && AccountsOk(a) && AccountsOk(c) && request.Transfer?
    ensures || Handle(a, request) == Handle(c, request)
            || (Touched(c, request) * dead != {} && Handle(a, request) == Err(REFUSED))
    ensures dead <= a.Keys && Touched(c, request) * dead != {} ==> Handle(a, request) == Err(REFUSED)
  {
    var Transfer(amount, source, dest) := request;
    GetOrCreateOk(a, source);
    GetOrCreateOk(a, dest);
    GetOrCreateOk(c, source);
    GetOrCreateOk(c, dest);
    assert source !in dead ==> GetOrCreate(a, source) == GetOrCreate(c, source);
    assert dest !in dead ==> GetOrCreate(a, dest) == GetOrCreate(c, dest);
  }

  lemma SingleSensitive(c: AccountMap, dead: set<Id>, request: Request)
    requires !request.Transfer? && !request.BatchBalanceOperation? && forall id <- c :: id !in dead
    ensures request.account in dead ==> Sensitive(c, request, dead)
  {
    if request.account in dead { assert request.account in Touched(c, request) * dead; }
  }

  /** An insensitive request cannot tell the two maps apart. */
  lemma HandleRel(a: AccountMap, c: AccountMap, dead: set<Id>, request: Request)
    requires Rel(a, c, dead) && AccountsOk(a) && AccountsOk(c) && !Sensitive(c, request, dead)
    ensures Handle(a, request) == Handle(c, request)
  {
    match request
    case Transfer(_, _, _) => TransferRel(a, c, dead, request); RefusedExactly(c, request);
    case BatchBalanceOperation(specs) => SpecsRel(a, c, dead, specs); RefusedExactly(c, request);
    case _ => SingleSensitive(c, dead, request);
  }

  /** A sensitive request can, if the tombstones are still there. */
  lemma HandleDiffers(a: AccountMap, c: AccountMap, dead: set<Id>, request: Request)
    requires Rel(a, c, dead) && AccountsOk(a) && AccountsOk(c) && dead <= a.Keys && Sensitive(c, request, dead)
    ensures Handle(a, request).Ok? ==> Handle(c, request).Err?
    ensures Handle(a, request).Err? && Handle(c, request).Err? ==> Handle(a, request).error != Handle(c, request).error
  {
    hide HandleTransfer, IncreaseEach, TouchedSpecs, HandleReserve, HandleRelease, HandleCreate, HandleLock,
         HandleUnlock, HandleDelete, HandleUpdateConfig, Tombstones;
    match request
    case Transfer(_, _, _) => TransferRel(a, c, dead, request); RefusedExactly(c, request);
    case BatchBalanceOperation(specs) => SpecsRel(a, c, dead, specs); RefusedExactly(c, request);
    case _ => SingleDiffers(a, c, dead, request);
  }

  lemma SingleDiffers(a: AccountMap, c: AccountMap, dead: set<Id>, request: Request)
    requires !request.Transfer? && !request.BatchBalanceOperation?
    requires Rel(a, c, dead) && AccountsOk(a) && AccountsOk(c) && dead <= a.Keys && Sensitive(c, request, dead)
    ensures Handle(a, request).Ok? ==> Handle(c, request).Err?
    ensures Handle(a, request).Err? && Handle(c, request).Err? ==> Handle(a, request).error != Handle(c, request).error
  {
    hide Reserve, ReleaseAll, PartialRelease, Lock, Unlock, Delete;
    var id := request.account;
    assert id in dead && id in a && id !in c;
    DeletedIsFinal(a[id], if request.ReserveFunds? || request.ReleaseFunds? then request.reservation else [],
                   if request.ReserveFunds? || request.ReleaseFunds? then request.amount else Text(""));
    DeletedTransitions(a[id]);
  }

  lemma DeletedTransitions(a: Account)
    requires a.state.Deleted?
    ensures Lock(a).Err? && !Lock(a).error.AccountNotExist?
    ensures Unlock(a).Err? && !Unlock(a).error.AccountNotExist?
    ensures Delete(a).Err? && !Delete(a).error.AccountNotExist?
  {
  }

  /** What a request writes are accounts it touched, none of them dead. */
  lemma WritesTouched(c: AccountMap, dead: set<Id>, request: Request, w: Account)
    requires AccountsOk(c) && Handle(c, request).Ok? && !Sensitive(c, request, dead)
    requires w in Handle(c, request).value.writes && forall id <- c :: id !in dead
    ensures w.id !in dead
  {
    if request.Transfer? || request.BatchBalanceOperation? { RefusedExactly(c, request); }
    else { SingleSensitive(c, dead, request); }
    assert Touched(c, request) * dead == {};
    WritesAreTouched(c, request, w);
    hide Touched, Handle;
    assert w.id !in Touched(c, request) * dead;
  }

  lemma WritesAreTouched(c: AccountMap, request: Request, w: Account)
    requires AccountsOk(c) && Handle(c, request).Ok? && w in Handle(c, request).value.writes
    ensures w.id in Touched(c, request)
  {
    match request
    case Transfer(_, _, _) => Conservation.TransferWrites(c, request);
    case BatchBalanceOperation(specs) =>
      var ups := IncreaseEach(c, specs).value;
      var i :| 0 <= i < |ups| && AccountsOf(ups)[i] == w;
      Conservation.BatchAccounts(c, specs, i);
      AllTouched(c, specs, i);
    case _ => Conservation.SingleWrites(c, request);
  }

  lemma {:induction false} AllTouched(c: AccountMap, specs: seq<BalanceSpec>, i: nat)
    requires IncreaseEach(c, specs).Ok? && i < |specs|
    ensures specs[i].account in TouchedSpecs(c, specs)
  {
    if i < |specs| - 1 { AllTouched(c, specs[..|specs| - 1], i); }
  }

  lemma {:induction false} WriteRel(a: AccountMap, c: AccountMap, dead: set<Id>, writes: seq<Account>)
    requires Rel(a, c, dead) && forall w <- writes :: w.id !in dead
    ensures Rel(WriteAll(a, writes), WriteAll(c, writes), dead)
    ensures a.Keys <= WriteAll(a, writes).Keys
  {
    if writes != [] { WriteRel(a, c, dead, writes[..|writes| - 1]); }
  }

  // ---------- related runs ----------

  lemma RunRel(a: State, c: State, dead: set<Id>, position: Position, cmd: Command)
    requires Sound(a) && Sound(c) && a.history == c.history && Rel(a.accounts, c.accounts, dead)
    requires Lookup(c.history, 0, cmd.id).None? ==> !Sensitive(c.accounts, cmd.request, dead)
    ensures var (a', ra) := Run(a, 0, position, cmd);
            var (c', rc) := Run(c, 0, position, cmd);
            && ra == rc && a'.history == c'.history && Rel(a'.accounts, c'.accounts, dead)
            && a.accounts.Keys <= a'.accounts.Keys
  {
    if Lookup(c.history, 0, cmd.id).None? {
      HandleRel(a.accounts, c.accounts, dead, cmd.request);
      if Handle(c.accounts, cmd.request).Ok? {
        var writes := Handle(c.accounts, cmd.request).value.writes;
        forall w | w in writes ensures w.id !in dead { WritesTouched(c.accounts, dead, cmd.request, w); }
        hide Handle;
        WriteRel(a.accounts, c.accounts, dead, writes);
      }
    }
  }

  lemma {:induction false} PrefixRel(log: Log, k: nat, j: nat, a: State)
    requires k < |log| && j <= |log[k]| && CleanUpTo(log, k, j)
    requires Sound(a) && Sound(Canon(log, k)) && a.history == Canon(log, k).history
    requires Rel(a.accounts, Canon(log, k).accounts, Dead(log, k))
    ensures var index := INITIAL_APPLIED_INDEX + k + 1;
            var (a', ra) := RunPrefix(a, 0, index, log[k], j);
            var (c', rc) := RunPrefix(Canon(log, k), 0, index, log[k], j);
            && Sound(a') && Sound(c') && |ra| == j && ra == rc && a'.history == c'.history
            && Rel(a'.accounts, c'.accounts, Dead(log, k))
            && a.accounts.Keys <= a'.accounts.Keys
  {
    hide Run, Sound, Rel, Dead, Canon;
    if j > 0 {
      var index := INITIAL_APPLIED_INDEX + k + 1;
      PrefixRel(log, k, j - 1, a);
      var a1 := RunPrefix(a, 0, index, log[k], j - 1).0;
      var c1 := RunPrefix(Canon(log, k), 0, index, log[k], j - 1).0;
      assert c1 == Before(log, k, j - 1);
      assert CleanCommand(log, k, j - 1);
      RunRel(a1, c1, Dead(log, k), Position(index, j - 1), log[k][j - 1]);
      RunSound(a1, 0, Position(index, j - 1), log[k][j - 1]);
      RunSound(c1, 0, Position(index, j - 1), log[k][j - 1]);
    }
  }

  /** At the end of an entry the newly deleted accounts join the dead. */
  lemma EndRel(a: AccountMap, c: AccountMap, dead: set<Id>)
    requires Rel(a, c, dead)
    ensures Rel(a, Live(c), dead + Tombstones(c))
    ensures Tombstones(a) <= dead + Tombstones(c)
    ensures dead <= a.Keys ==> dead + Tombstones(c) <= a.Keys
  {
  }

  lemma {:induction false} CanonSound(log: Log, k: nat)
    requires k <= |log|
    ensures Sound(Canon(log, k))
  {
    if k == 0 {
      EmptyIsSound();
    } else {
      CanonSound(log, k - 1);
      RunPrefixSound(Canon(log, k - 1), 0, INITIAL_APPLIED_INDEX + k, log[k - 1], |log[k - 1]|);
      hide RunEntry, Fold, Sound;
      SoundLive(EntryEnd(log, k - 1));
    }
  }

  lemma SoundLive(s: State)
    requires Sound(s)
    ensures Sound(State(Live(s.accounts), s.history))
  {
    hide Fold;
    assert Live(Live(s.accounts)) == Live(s.accounts);
  }

  lemma {:induction false} CanonGrows(log: Log, i: nat, k: nat)
    requires i <= k <= |log|
    ensures Canon(log, i).history <= Canon(log, k).history
  {
    hide RunPrefix, Sound, Live;
    if i < k {
      CanonGrows(log, i, k - 1);
      CanonSound(log, k - 1);
      RunPrefixSound(Canon(log, k - 1), 0, INITIAL_APPLIED_INDEX + k, log[k - 1], |log[k - 1]|);
    }
  }

  // ---------- every schedule of a clean log agrees ----------

  /** A schedule without garbage collection. */
  ghost predicate NoGc(actions: seq<Action>) {
    forall i | 0 <= i < |actions| :: !actions[i].ScanEvents? && !actions[i].WriteGc?
  }

  ghost predicate AgreedAnswer(log: Log, o: Sent) {
    && InLog(log, o.position)
    && var out := CanonOut(log, o.position.logIndex - INITIAL_APPLIED_INDEX - 1);
       o.position.offset < |out| && o.response == out[o.position.offset]
  }

  /** A database written by a schedule of a clean log. */
  ghost predicate CleanDb(log: Log, d: Db) {
    var k := Applied(d) - INITIAL_APPLIED_INDEX;
    && 0 <= k <= |log| && First(d) == 0
    && Last(d) == |Canon(log, k).history|
    && Rel(d.data, Canon(log, k).accounts, Dead(log, k))
  }

  ghost predicate CleanSystem(log: Log, sys: System) {
    var m, k := sys.m, EntryNumber(sys.m);
    && Inv(log, sys)
    && 0 <= k <= |log| && sys.offset <= Size(log, k) && First(m.db) == 0 && sys.gc.None?
    && sys.history == At(log, k, sys.offset).history
    && Rel(m.accounts, At(log, k, sys.offset).accounts, Dead(log, k))
    && RecordsMarked(m, Dead(log, k))
    && (forall i | 0 <= i < |sys.versions| ::
          CleanDb(log, sys.versions[i]) && Applied(sys.versions[i]) <= m.appliedIndex)
    && (forall i, j | 0 <= i <= j < |sys.versions| :: Applied(sys.versions[i]) <= Applied(sys.versions[j]))
    && (forall i | 0 <= i < |m.sent| :: AgreedAnswer(log, m.sent[i]))
  }

  /** Deleted records enter the batch only for accounts that are tombstones in memory. */
  ghost predicate RecordsMarked(m: Machine, dead: set<Id>) {
    Tombstones(ApplyOps(m.db, m.wb).data) <= dead + Tombstones(m.accounts)
  }

  lemma {:induction false} WriteEachMarked(m: Machine, isDelete: bool, writes: seq<Account>, dead: set<Id>)
    requires RecordsMarked(m, dead)
    requires forall w <- writes :: w.id in m.accounts && m.accounts[w.id].state.Deleted? ==> w.state.Deleted?
    ensures RecordsMarked(WriteEach(m, isDelete, writes), dead)
    ensures Tombstones(m.accounts) <= Tombstones(WriteEach(m, isDelete, writes).accounts)
  {
    var m' := WriteEach(m, isDelete, writes);
    WriteEachIs(m, isDelete, writes);
    forall id | id in Tombstones(m.accounts) ensures id in Tombstones(m'.accounts) {
      Conservation.WriteAllAt(m.accounts, writes, id);
    }
    if writes != [] {
      var init, w := writes[..|writes| - 1], writes[|writes| - 1];
      assert writes == init + [w];
      WriteEachMarked(m, isDelete, init, dead);
      var m1 := WriteEach(m, isDelete, init);
      WriteEachIs(m, isDelete, init);
      WriteOneMarked(m1, m', isDelete, w, dead);
    }
  }

  lemma WriteOneMarked(m: Machine, m': Machine, isDelete: bool, w: Account, dead: set<Id>)
    requires RecordsMarked(m, dead) && m'.db == m.db && m'.wb == m.wb + [DataOp(isDelete, w)]
    requires Tombstones(m.accounts) - {w.id} <= Tombstones(m'.accounts)
    requires w.state.Deleted? ==> w.id in Tombstones(m'.accounts)
    ensures RecordsMarked(m', dead)
  {
    ApplyOpsSnoc(m.db, m.wb, DataOp(isDelete, w));
    hide ApplyOps;
    var before, after := ApplyOps(m.db, m.wb).data, ApplyOps(m'.db, m'.wb).data;
    forall id | id in Tombstones(after) ensures id in dead + Tombstones(m'.accounts) {
      if id != w.id { assert id in Tombstones(before); }
      else if id in Tombstones(before) && !isDelete { assert after[id] == w; }
    }
  }

  lemma ExecMarked(m: Machine, s: State, position: Position, cmd: Command, dead: set<Id>)
    requires Refines(m, s) && RecordsMarked(m, dead)
    ensures RecordsMarked(Exec(m, position, cmd), dead)
  {
    hide Refines;
    RefinesAccounts(m, s);
    if GetSeqNum(m, cmd.id).None? && Handle(m.accounts, cmd.request).Ok? {
      var effect := Handle(m.accounts, cmd.request).value;
      var m0 := m.(lastSeqNum := m.lastSeqNum + 1);
      forall w | w in effect.writes
        ensures w.id in m.accounts && m.accounts[w.id].state.Deleted? ==> w.state.Deleted?
      {
        TombstonesStay(m.accounts, cmd.request, w);
      }
      hide Handle;
      WriteEachMarked(m0, effect.isDelete, effect.writes, dead);
      var m1 := WriteEach(m0, effect.isDelete, effect.writes);
      RecordData(m1, BuildEvent(m1.lastSeqNum, position, cmd, effect.payload));
    }
  }

  lemma RecordData(m: Machine, e: Event)
    ensures ApplyOps(m.db, RecordEvent(m, e).wb).data == ApplyOps(m.db, m.wb).data
  {
    hide ApplyOps;
    var dedup, event := PutDedup(e.header.commandId, m.lastSeqNum), PutEvent(m.lastSeqNum, e);
    ApplyOpsSnoc(m.db, m.wb, dedup);
    ApplyOpsSnoc(m.db, m.wb + [dedup], event);
    assert RecordEvent(m, e).wb == m.wb + [dedup] + [event];
  }

  lemma FinishData(m: Machine, index: nat)
    ensures ApplyOps(m.db, FinishEntry(m, index).wb).data == ApplyOps(m.db, m.wb).data
  {
    hide ApplyOps;
    var applied, last := PutApplied(index), PutLast(m.lastSeqNum);
    ApplyOpsSnoc(m.db, m.wb, applied);
    ApplyOpsSnoc(m.db, m.wb + [applied], last);
    assert FinishEntry(m, index).wb == m.wb + [applied] + [last];
  }

  // ---------- steps of a clean system ----------

  lemma AgreedEntry(log: Log, sent: seq<Sent>, k: nat)
    requires k < |log| && |CanonOut(log, k)| == |log[k]|
    requires forall i | 0 <= i < |sent| :: AgreedAnswer(log, sent[i])
    ensures var sent' := sent + SentAt(INITIAL_APPLIED_INDEX + k + 1, CanonOut(log, k));
            forall i | 0 <= i < |sent'| :: AgreedAnswer(log, sent'[i])
  {
    hide RunEntry, Canon;
    var index := INITIAL_APPLIED_INDEX + k + 1;
    forall i | 0 <= i < |log[k]| ensures AgreedAnswer(log, SentAt(index, CanonOut(log, k))[i]) {
    }
  }

  lemma AtStart(log: Log, k: nat)
    requires k <= |log|
    ensures At(log, k, 0) == Canon(log, k)
  {
    hide Canon;
  }

  lemma AtNext(log: Log, k: nat, j: nat)
    requires k < |log| && j < |log[k]|
    ensures var index := INITIAL_APPLIED_INDEX + k + 1;
            var (s', r) := Run(At(log, k, j), 0, Position(index, j), log[k][j]);
            && At(log, k, j + 1) == s'
            && |CanonOut(log, k)| == |log[k]| && CanonOut(log, k)[j] == r
  {
    hide Canon, Run;
    AnswerAt(Canon(log, k), 0, INITIAL_APPLIED_INDEX + k + 1, log[k], |log[k]|, j);
  }

  lemma AtSound(log: Log, k: nat, j: nat)
    requires k <= |log| && j <= Size(log, k)
    ensures Sound(At(log, k, j)) && Canon(log, k).history <= At(log, k, j).history
  {
    hide Canon, Sound;
    CanonSound(log, k);
    if k < |log| { RunPrefixSound(Canon(log, k), 0, INITIAL_APPLIED_INDEX + k + 1, log[k], j); }
  }

  lemma ExecuteIsClean(log: Log, sys: System)
    requires CleanLog(log) && CleanSystem(log, sys) && Enabled(log, sys, Execute)
    ensures CleanSystem(log, Step(log, sys, Execute))
  {
    hide Inv, Rel, Dead, Canon, At, ApplyOps, Exec, Run, CleanDb, CanonOut, RecordsMarked, Sound, Refines, AtBoundary,
         Sensitive;
    ExecuteKeepsInv(log, sys);
    var m, k, j := sys.m, EntryNumber(sys.m), sys.offset;
    var s, c, sys' := State(m.accounts, sys.history), At(log, k, j), Step(log, sys, Execute);
    InvRefines(log, sys);
    ExecuteIs(log, sys);
    AtNext(log, k, j);
    AtSound(log, k, j);
    CleanAt(log, k, j);
    RunRel(s, c, Dead(log, k), NextPosition(sys), log[k][j]);
    ExecMarked(m, s, NextPosition(sys), log[k][j], Dead(log, k));
    assert AgreedAnswer(log, Sent(NextPosition(sys), Outcome(log, sys).1));
    hide AgreedAnswer;
    assert forall i | 0 <= i < |sys'.m.sent| :: AgreedAnswer(log, sys'.m.sent[i]);
  }

  lemma CleanAt(log: Log, k: nat, j: nat)
    requires CleanLog(log) && k < |log| && j < |log[k]|
    ensures Lookup(At(log, k, j).history, 0, log[k][j].id).None?
            ==> !Sensitive(At(log, k, j).accounts, log[k][j].request, Dead(log, k))
  {
    hide Canon, Dead, RunPrefix, Sensitive;
    assert CleanCommand(log, k, j);
  }

  lemma FinishIsClean(log: Log, sys: System)
    requires CleanSystem(log, sys) && Enabled(log, sys, Finish)
    ensures CleanSystem(log, Step(log, sys, Finish))
  {
    hide Inv, Rel, Canon, At, ApplyOps, CleanDb, AgreedAnswer, Tombstones, Live, EntryEnd, Dead;
    FinishKeepsInv(log, sys);
    var m, k := sys.m, EntryNumber(sys.m);
    FinishData(m, m.appliedIndex + 1);
    AtEnd(log, k);
    EndRel(m.accounts, EntryEnd(log, k).accounts, Dead(log, k));
    AtStart(log, k + 1);
    CanonNext(log, k);
  }

  lemma AtEnd(log: Log, k: nat)
    requires k < |log|
    ensures At(log, k, |log[k]|) == EntryEnd(log, k)
    ensures Dead(log, k + 1) == Dead(log, k) + Tombstones(EntryEnd(log, k).accounts)
  {
    hide Canon, RunPrefix, Tombstones;
  }

  lemma EntryRelated(log: Log, k: nat, a: State)
    requires k < |log| && CleanUpTo(log, k, |log[k]|)
    requires Sound(a) && a.history == Canon(log, k).history && Rel(a.accounts, Canon(log, k).accounts, Dead(log, k))
    ensures var (a', ra) := RunEntry(a, 0, INITIAL_APPLIED_INDEX + k + 1, log[k]);
            && ra == CanonOut(log, k) && |ra| == |log[k]|
            && a'.history == Canon(log, k + 1).history
            && Rel(a'.accounts, Canon(log, k + 1).accounts, Dead(log, k + 1))
            && Tombstones(a'.accounts) <= Dead(log, k + 1) && Dead(log, k) <= Dead(log, k + 1)
            && (Dead(log, k) <= a.accounts.Keys ==> Dead(log, k + 1) <= a'.accounts.Keys)
  {
    hide Rel, Tombstones, RunPrefix;
    CanonSound(log, k);
    PrefixRel(log, k, |log[k]|, a);
    var a' := RunEntry(a, 0, INITIAL_APPLIED_INDEX + k + 1, log[k]).0;
    EndRel(a'.accounts, EntryEnd(log, k).accounts, Dead(log, k));
  }

  lemma LiveIsCanon(a: AccountMap, c: AccountMap, dead: set<Id>)
    requires Rel(a, c, dead) && Tombstones(c) == {}
    ensures Live(a) == c
  {
    assert forall id <- c :: !c[id].state.Deleted? by {
      forall id | id in c ensures !c[id].state.Deleted? { assert id !in Tombstones(c); }
    }
  }

  lemma CanonHasNoTombstones(log: Log, k: nat)
    requires k <= |log|
    ensures Tombstones(Canon(log, k).accounts) == {}
  {
    hide RunEntry;
  }

  /** Two maps with the same live accounts, the second with dead tombstones only. */
  lemma RelLive(a: AccountMap, d: AccountMap, c: AccountMap, dead: set<Id>)
    requires Rel(a, c, dead) && Live(a) == Live(d) && Tombstones(d) <= dead && Tombstones(c) == {}
    ensures Rel(d, c, dead)
  {
    LiveIsCanon(a, c, dead);
    forall id | id !in dead ensures (id in d <==> id in c) && (id in d ==> d[id] == c[id]) {
      if id in d { assert id !in Tombstones(d); assert id in Live(d); }
      if id in c { assert id in Live(d); }
    }
    forall id | id in d && id in dead ensures d[id].state.Deleted? {
      assert d[id].state.Deleted? || id in Live(d);
    }
  }

  lemma SameLive(a: AccountMap, c: AccountMap, dead: set<Id>)
    requires Rel(a, c, dead)
    ensures Live(a) == Live(c)
  {
  }

  lemma FlushRel(m: Machine, c: AccountMap, dead: set<Id>)
    requires Rel(m.accounts, c, dead) && AllDeleted(m.accounts, m.toBeDeleted) && Tombstones(c) == {}
    ensures Rel(Forget(m.accounts, m.toBeDeleted), c, dead)
  {
    forall id | id in m.toBeDeleted ensures id in dead {
      assert id in dead || id in Tombstones(c);
    }
  }

  lemma FlushIsClean(log: Log, sys: System)
    requires CleanSystem(log, sys) && Enabled(log, sys, FlushBatch)
    ensures CleanSystem(log, Step(log, sys, FlushBatch))
  {
    hide Inv, Rel, Dead, Canon, At, Tombstones, ApplyOps, AgreedAnswer, Refines, AtBoundary, Forget, Live,
         EventsAre, DedupIs, Unique, Numbered, AccountsOk, Fold;
    FlushKeepsInv(log, sys);
    var m, k := sys.m, EntryNumber(sys.m);
    var s, d := State(m.accounts, sys.history), ApplyOps(m.db, m.wb);
    InvRefines(log, sys);
    AtStart(log, k);
    FlushDb(m, s);
    RefinesLayered(m, s);
    CanonHasNoTombstones(log, k);
    DeadRecords(m.accounts, Canon(log, k).accounts, Dead(log, k));
    FlushRel(m, Canon(log, k).accounts, Dead(log, k));
    RelLive(m.accounts, d.data, Canon(log, k).accounts, Dead(log, k));
    EmptyBatch(d);
    var sys' := Step(log, sys, FlushBatch);
    assert CleanDb(log, d);
    assert forall i | 0 <= i < |sys.versions| :: sys'.versions[i] == sys.versions[i];
  }

  lemma EmptyBatch(d: Db)
    ensures ApplyOps(d, []) == d
  {
  }

  lemma RefinesLayered(m: Machine, s: State)
    requires Refines(m, s)
    ensures Live(m.accounts) == Live(ApplyOps(m.db, m.wb).data) && AllDeleted(m.accounts, m.toBeDeleted)
  {
  }

  lemma CrashIsClean(log: Log, sys: System, v: nat)
    requires CleanSystem(log, sys) && Enabled(log, sys, Crash(v))
    ensures CleanSystem(log, Step(log, sys, Crash(v)))
  {
    hide Inv, Rel, Dead, Canon, At, Tombstones, ApplyOps, AgreedAnswer;
    CrashKeepsInv(log, sys, v);
    var sys', d := Step(log, sys, Crash(v)), sys.versions[v];
    assert CleanDb(log, d);
    var k := EntryNumber(sys'.m);
    CanonGrows(log, k, EntryNumber(sys.m));
    AtSound(log, EntryNumber(sys.m), sys.offset);
    AtStart(log, k);
    EmptyBatch(d);
    DeadRecords(d.data, Canon(log, k).accounts, Dead(log, k));
    CanonHasNoTombstones(log, k);
  }

  lemma DeadRecords(a: AccountMap, c: AccountMap, dead: set<Id>)
    requires Rel(a, c, dead)
    ensures Tombstones(a) <= dead + Tombstones(c)
  {
  }

  lemma {:induction false} CleanRun(log: Log, actions: seq<Action>)
    requires CleanLog(log) && NoGc(actions) && After(log, actions).Some?
    ensures CleanSystem(log, After(log, actions).value)
  {
    hide CleanLog, CleanSystem, Step, Enabled;
    if actions == [] {
      InitialIsClean(log);
    } else {
      var init, action := actions[..|actions| - 1], actions[|actions| - 1];
      CleanRun(log, init);
      var sys := After(log, init).value;
      match action
      case Execute => ExecuteIsClean(log, sys);
      case Finish => FinishIsClean(log, sys);
      case FlushBatch => FlushIsClean(log, sys);
      case Crash(v) => CrashIsClean(log, sys, v);
    }
  }

  lemma InitialIsClean(log: Log)
    ensures CleanSystem(log, INITIAL)
  {
    InitialInv(log);
  }

  // ---------- the eager and the lazy schedule ----------

  function Executes(n: nat): seq<Action> { seq(n, i => Execute) }

  /** Flush after every entry. */
  function Eager(log: Log, k: nat): seq<Action>
    requires k <= |log|
  {
    if k == 0 then [] else Eager(log, k - 1) + Executes(|log[k - 1]|) + [Finish] + [FlushBatch]
  }

  /** Never flush. */
  function Lazy(log: Log, k: nat): seq<Action>
    requires k <= |log|
  {
    if k == 0 then [] else Lazy(log, k - 1) + Executes(|log[k - 1]|) + [Finish]
  }

  lemma AfterSnoc(log: Log, actions: seq<Action>, action: Action)
    requires After(log, actions).Some? && Enabled(log, After(log, actions).value, action)
    ensures After(log, actions + [action]) == Some(Step(log, After(log, actions).value, action))
  {
    assert (actions + [action])[..|actions|] == actions;
  }

  /** A whole entry, with nothing in between. */
  ghost function Whole(log: Log, sys: System): System
    requires 0 <= EntryNumber(sys.m) < |log|
  {
    var m, cmds := sys.m, log[EntryNumber(sys.m)];
    sys.(m := ApplyEntry(m, cmds),
         history := RunEntry(State(m.accounts, sys.history), First(m.db), m.appliedIndex + 1, cmds).0.history)
  }

  ghost function Partial(log: Log, sys: System, j: nat): System
    requires 0 <= EntryNumber(sys.m) < |log| && j <= |log[EntryNumber(sys.m)]|
  {
    var m, cmds, index := sys.m, log[EntryNumber(sys.m)], sys.m.appliedIndex + 1;
    sys.(m := ExecPrefix(m, index, cmds, j), offset := j,
         history := RunPrefix(State(m.accounts, sys.history), First(m.db), index, cmds, j).0.history)
  }

  lemma PartialNext(log: Log, sys: System, j: nat)
    requires Inv(log, sys) && sys.offset == 0 && 0 <= EntryNumber(sys.m) < |log| && j < |log[EntryNumber(sys.m)]|
    ensures Enabled(log, Partial(log, sys, j), Execute)
    ensures Step(log, Partial(log, sys, j), Execute) == Partial(log, sys, j + 1)
  {
    hide Inv, Exec, Run, Refines;
    var m, s, cmds, index := sys.m, State(sys.m.accounts, sys.history), log[EntryNumber(sys.m)], sys.m.appliedIndex + 1;
    InvRefines(log, sys);
    ExecPrefixRefines(m, s, index, cmds, j);
    RefinesAccounts(ExecPrefix(m, index, cmds, j), RunPrefix(s, First(m.db), index, cmds, j).0);
  }

  lemma PartialStart(log: Log, sys: System)
    requires 0 <= EntryNumber(sys.m) < |log| && sys.offset == 0
    ensures Partial(log, sys, 0) == sys
  {
  }

  lemma ExecutesSnoc(actions: seq<Action>, j: nat)
    ensures actions + Executes(j + 1) == actions + Executes(j) + [Execute]
    ensures actions + Executes(0) == actions
  {
  }

  lemma {:induction false} ExecutesRun(log: Log, actions: seq<Action>, sys: System, j: nat)
    requires After(log, actions) == Some(sys) && Inv(log, sys) && sys.offset == 0
    requires 0 <= EntryNumber(sys.m) < |log| && j <= |log[EntryNumber(sys.m)]|
    ensures After(log, actions + Executes(j)) == Some(Partial(log, sys, j))
  {
    hide After, Inv, Enabled, Step, Partial, Executes;
    if j == 0 {
      ExecutesSnoc(actions, 0);
      PartialStart(log, sys);
    } else {
      ExecutesRun(log, actions, sys, j - 1);
      ExecutesSnoc(actions, j - 1);
      PartialNext(log, sys, j - 1);
      AfterSnoc(log, actions + Executes(j - 1), Execute);
    }
  }

  lemma PartialEnd(log: Log, sys: System)
    requires Inv(log, sys) && sys.offset == 0 && 0 <= EntryNumber(sys.m) < |log|
    ensures var n := |log[EntryNumber(sys.m)]|;
            && Enabled(log, Partial(log, sys, n), Finish)
            && Step(log, Partial(log, sys, n), Finish) == Whole(log, sys)
  {
    hide Inv, Refines, Exec, Run;
    var cmds := log[EntryNumber(sys.m)];
    InvRefines(log, sys);
    ExecPrefixRefines(sys.m, State(sys.m.accounts, sys.history), sys.m.appliedIndex + 1, cmds, |cmds|);
    hide ExecPrefix, RunPrefix;
  }

  /** Executing an entry's commands one after the other is applying the entry. */
  lemma EntryRun(log: Log, actions: seq<Action>, sys: System)
    requires After(log, actions) == Some(sys) && Inv(log, sys) && sys.offset == 0
    requires 0 <= EntryNumber(sys.m) < |log|
    ensures After(log, actions + Executes(|log[EntryNumber(sys.m)]|) + [Finish]) == Some(Whole(log, sys))
    ensures Inv(log, Whole(log, sys))
  {
    hide After, Inv, Enabled, Step, Partial, Executes, Whole;
    var n := |log[EntryNumber(sys.m)]|;
    ExecutesRun(log, actions, sys, n);
    PartialEnd(log, sys);
    AfterSnoc(log, actions + Executes(n), Finish);
    EveryRunIsSafe(log, actions + Executes(n) + [Finish]);
  }

  // In memory, tombstones come from deletes and are marked for removal until the next flush.

  ghost predicate Marked(m: Machine) { Tombstones(m.accounts) <= set id | id in m.toBeDeleted }

  lemma TombstonesFromDeletes(accounts: AccountMap, request: Request, w: Account)
    requires AccountsOk(accounts) && Handle(accounts, request).Ok? && w in Handle(accounts, request).value.writes
    requires w.state.Deleted?
    ensures Handle(accounts, request).value.isDelete || (w.id in accounts && accounts[w.id].state.Deleted?)
  {
    match request
    case BatchBalanceOperation(specs) =>
      IncreaseEachAt(accounts, specs);
    case ReserveFunds(_, _, _) => HoldsBalanceOnly(accounts, request);
    case ReleaseFunds(_, _, _) => HoldsBalanceOnly(accounts, request);
    case _ =>
  }

  lemma {:induction false} WriteEachMarks(m: Machine, isDelete: bool, writes: seq<Account>, marked: set<Id>)
    requires Tombstones(m.accounts) <= marked <= set id | id in m.toBeDeleted
    requires forall w <- writes :: w.state.Deleted? ==> isDelete || w.id in marked
    ensures Marked(WriteEach(m, isDelete, writes))
    ensures forall id <- m.toBeDeleted :: id in WriteEach(m, isDelete, writes).toBeDeleted
  {
    if writes != [] {
      var init, w := writes[..|writes| - 1], writes[|writes| - 1];
      assert writes == init + [w];
      WriteEachMarks(m, isDelete, init, marked);
      var m1 := WriteEach(m, isDelete, init);
      var m' := Write(m1, isDelete, w);
      forall id | id in Tombstones(m'.accounts) ensures id in m'.toBeDeleted {
        if id != w.id { assert id in Tombstones(m1.accounts); }
        else if !isDelete { assert id in m.toBeDeleted; }
      }
    }
  }

  lemma ExecMarks(m: Machine, s: State, position: Position, cmd: Command)
    requires Refines(m, s) && Marked(m)
    ensures Marked(Exec(m, position, cmd))
  {
    hide Refines;
    RefinesAccounts(m, s);
    if GetSeqNum(m, cmd.id).None? && Handle(m.accounts, cmd.request).Ok? {
      var effect := Handle(m.accounts, cmd.request).value;
      var m0, marked := m.(lastSeqNum := m.lastSeqNum + 1), set id | id in m.toBeDeleted;
      forall w | w in effect.writes && w.state.Deleted? ensures effect.isDelete || w.id in marked {
        TombstonesFromDeletes(m.accounts, cmd.request, w);
        assert effect.isDelete || w.id in Tombstones(m.accounts);
      }
      hide Handle;
      WriteEachMarks(m0, effect.isDelete, effect.writes, marked);
    }
  }

  lemma {:induction false} PrefixMarks(m: Machine, s: State, index: nat, cmds: seq<Command>, k: nat)
    requires Refines(m, s) && Marked(m) && k <= |cmds|
    ensures Marked(ExecPrefix(m, index, cmds, k))
  {
    hide Refines, Marked, Exec;
    if k > 0 {
      PrefixMarks(m, s, index, cmds, k - 1);
      ExecPrefixRefines(m, s, index, cmds, k - 1);
      ExecMarks(ExecPrefix(m, index, cmds, k - 1), RunPrefix(s, First(m.db), index, cmds, k - 1).0,
                Position(index, k - 1), cmds[k - 1]);
    }
  }

  lemma ForgetMarked(m: Machine)
    requires Marked(m) && AllDeleted(m.accounts, m.toBeDeleted)
    ensures Forget(m.accounts, m.toBeDeleted) == Live(m.accounts)
  {
    forall id | id in m.accounts ensures id in m.toBeDeleted <==> m.accounts[id].state.Deleted? {
      assert m.accounts[id].state.Deleted? ==> id in Tombstones(m.accounts);
    }
  }

  ghost predicate EagerAt(log: Log, sys: System, k: nat)
    requires k <= |log|
  {
    && Inv(log, sys) && sys.offset == 0 && EntryNumber(sys.m) == k && First(sys.m.db) == 0
    && sys.m.accounts == Canon(log, k).accounts && sys.history == Canon(log, k).history
    && (forall i | 0 <= i < |sys.m.sent| :: AgreedAnswer(log, sys.m.sent[i]))
    && (forall p: Position | InLog(log, p) && p.logIndex - INITIAL_APPLIED_INDEX <= k ::
          exists i :: 0 <= i < |sys.m.sent| && sys.m.sent[i].position == p)
  }

  /** One entry and one flush of the eager schedule follow the canonical run exactly. */
  lemma EagerStep(log: Log, sys: System, k: nat)
    requires k < |log| && EagerAt(log, sys, k) && Inv(log, Whole(log, sys))
    ensures Enabled(log, Whole(log, sys), FlushBatch)
    ensures EagerAt(log, Step(log, Whole(log, sys), FlushBatch), k + 1)
  {
    hide Inv, Canon, ApplyEntry, RunEntry, AgreedAnswer, Refines, Forget, Live, ApplyOps, Tombstones;
    var m, s := sys.m, State(sys.m.accounts, sys.history);
    var sys1 := Whole(log, sys);
    InvRefines(log, sys);
    EntryRefines(m, s, log[k]);
    FlushKeepsInv(log, sys1);
    CanonNext(log, k);
    AgreedEntry(log, m.sent, k);
    EagerForget(log, m, s, k);
    RefinesAccounts(sys1.m, RunEntry(s, 0, m.appliedIndex + 1, log[k]).0);
    FlushDb(sys1.m, RunEntry(s, 0, m.appliedIndex + 1, log[k]).0);
    AllAnswered(log, m, k);
  }

  lemma CanonNext(log: Log, k: nat)
    requires k < |log|
    ensures Canon(log, k + 1) == State(Live(EntryEnd(log, k).accounts), EntryEnd(log, k).history)
  {
    hide RunEntry, Live;
  }

  lemma EagerForget(log: Log, m: Machine, s: State, k: nat)
    requires k < |log| && Refines(m, s) && AtBoundary(m) && First(m.db) == 0 && s == Canon(log, k)
    requires m.appliedIndex == INITIAL_APPLIED_INDEX + k
    ensures var m' := ApplyEntry(m, log[k]);
            Forget(m'.accounts, m'.toBeDeleted) == Canon(log, k + 1).accounts
  {
    hide Refines, AtBoundary, RunPrefix, ExecPrefix;
    EntryRefines(m, s, log[k]);
    CanonHasNoTombstones(log, k);
    RefinesAccounts(m, s);
    PrefixMarks(m, s, m.appliedIndex + 1, log[k], |log[k]|);
    var m', s' := ApplyEntry(m, log[k]), RunEntry(s, 0, m.appliedIndex + 1, log[k]).0;
    RefinesAccounts(m', s');
    RefinesLayered(m', s');
    ForgetMarked(m');
  }

  lemma AllAnswered(log: Log, m: Machine, k: nat)
    requires k < |log| && |CanonOut(log, k)| == |log[k]|
    requires forall p: Position | InLog(log, p) && p.logIndex - INITIAL_APPLIED_INDEX <= k ::
               exists i :: 0 <= i < |m.sent| && m.sent[i].position == p
    ensures var sent := m.sent + SentAt(INITIAL_APPLIED_INDEX + k + 1, CanonOut(log, k));
            forall p: Position | InLog(log, p) && p.logIndex - INITIAL_APPLIED_INDEX <= k + 1 ::
              exists i :: 0 <= i < |sent| && sent[i].position == p
  {
    hide CanonOut;
    var index := INITIAL_APPLIED_INDEX + k + 1;
    var sent := m.sent + SentAt(index, CanonOut(log, k));
    forall p: Position | InLog(log, p) && p.logIndex - INITIAL_APPLIED_INDEX <= k + 1
      ensures exists i :: 0 <= i < |sent| && sent[i].position == p
    {
      if p.logIndex == index {
        assert sent[|m.sent| + p.offset].position == p;
      } else {
        var i :| 0 <= i < |m.sent| && m.sent[i].position == p;
        assert sent[i].position == p;
      }
    }
  }

  lemma EagerStart(log: Log)
    ensures After(log, []) == Some(INITIAL) && EagerAt(log, INITIAL, 0) && NoGc([])
  {
    InitialInv(log);
    hide Inv, CanonOut;
  }

  lemma {:induction false} EagerRun(log: Log, k: nat)
    requires k <= |log|
    ensures After(log, Eager(log, k)).Some? && EagerAt(log, After(log, Eager(log, k)).value, k) && NoGc(Eager(log, k))
  {
    hide EagerAt, Step, Enabled, After, Whole, Executes, NoGc, Inv, EntryNumber;
    if k == 0 {
      EagerStart(log);
    } else {
      var before, n := Eager(log, k - 1), |log[k - 1]|;
      EagerRun(log, k - 1);
      var sys := After(log, before).value;
      EagerPlace(log, sys, k - 1);
      EntryRun(log, before, sys);
      EagerStep(log, sys, k - 1);
      AfterSnoc(log, before + Executes(n) + [Finish], FlushBatch);
      NoGcEntry(before, n);
    }
  }

  lemma EagerPlace(log: Log, sys: System, k: nat)
    requires k <= |log| && EagerAt(log, sys, k)
    ensures Inv(log, sys) && sys.offset == 0 && EntryNumber(sys.m) == k
  {
  }

  // ---------- the lazy schedule keeps every tombstone ----------

  ghost predicate LazyAt(log: Log, sys: System, k: nat)
    requires k <= |log|
  {
    && Inv(log, sys) && sys.offset == 0 && EntryNumber(sys.m) == k && First(sys.m.db) == 0
    && sys.history == Canon(log, k).history
    && Rel(sys.m.accounts, Canon(log, k).accounts, Dead(log, k))
    && Dead(log, k) <= sys.m.accounts.Keys
  }

  lemma LazyStep(log: Log, sys: System, k: nat)
    requires k < |log| && LazyAt(log, sys, k) && CleanUpTo(log, k, |log[k]|) && Inv(log, Whole(log, sys))
    ensures LazyAt(log, Whole(log, sys), k + 1)
  {
    hide Inv, Canon, Dead, Rel, ApplyEntry, RunPrefix, Refines, Tombstones, CleanCommand, AtBoundary, Sound;
    var m, s := sys.m, State(sys.m.accounts, sys.history);
    InvRefines(log, sys);
    EntryRefines(m, s, log[k]);
    EntryRelated(log, k, s);
    RefinesAccounts(Whole(log, sys).m, RunEntry(s, 0, m.appliedIndex + 1, log[k]).0);
  }

  lemma LazyStart(log: Log)
    ensures After(log, []) == Some(INITIAL) && LazyAt(log, INITIAL, 0) && NoGc([])
  {
    InitialInv(log);
    hide Inv;
  }

  lemma {:induction false} LazyRun(log: Log, k: nat)
    requires k <= |log| && CleanUpTo(log, k, 0)
    ensures After(log, Lazy(log, k)).Some? && LazyAt(log, After(log, Lazy(log, k)).value, k) && NoGc(Lazy(log, k))
  {
    hide LazyAt, Step, Enabled, After, Whole, Executes, NoGc, CleanUpTo, Inv, EntryNumber;
    if k == 0 {
      LazyStart(log);
    } else {
      CleanEarlier(log, k);
      var before, n := Lazy(log, k - 1), |log[k - 1]|;
      LazyRun(log, k - 1);
      var sys := After(log, before).value;
      LazyPlace(log, sys, k - 1);
      EntryRun(log, before, sys);
      LazyStep(log, sys, k - 1);
      NoGcEntry(before, n);
    }
  }

  lemma CleanEarlier(log: Log, k: nat)
    requires 0 < k <= |log| && CleanUpTo(log, k, 0)
    ensures CleanUpTo(log, k - 1, 0) && CleanUpTo(log, k - 1, |log[k - 1]|)
  {
    hide CleanCommand;
  }

  lemma LazyPlace(log: Log, sys: System, k: nat)
    requires k <= |log| && LazyAt(log, sys, k)
    ensures Inv(log, sys) && sys.offset == 0 && EntryNumber(sys.m) == k
  {
  }

  /** The answer to command `j` is the one it gets in the state its predecessors leave. */
  lemma {:induction false} AnswerAt(s: State, first: nat, index: nat, cmds: seq<Command>, k: nat, j: nat)
    requires j < k <= |cmds|
    ensures var out := RunPrefix(s, first, index, cmds, k).1;
            && |out| == k
            && out[j] == Run(RunPrefix(s, first, index, cmds, j).0, first, Position(index, j), cmds[j]).1
    decreases k
  {
    hide Run;
    if j < k - 1 { AnswerAt(s, first, index, cmds, k - 1, j); }
    else if k > 1 { AnswerAt(s, first, index, cmds, k - 1, 0); }
  }

  lemma NoGcEntry(actions: seq<Action>, n: nat)
    requires NoGc(actions)
    ensures NoGc(actions + Executes(n) + [Finish]) && NoGc(actions + Executes(n) + [Finish] + [FlushBatch])
  {
  }

  lemma DifferentAnswers(a: State, c: State, dead: set<Id>, position: Position, cmd: Command)
    requires Sound(a) && Sound(c) && a.history == c.history && Rel(a.accounts, c.accounts, dead)
    requires dead <= a.accounts.Keys
    requires Lookup(c.history, 0, cmd.id).None? && Sensitive(c.accounts, cmd.request, dead)
    ensures Run(a, 0, position, cmd).1 != Run(c, 0, position, cmd).1
  {
    HandleDiffers(a.accounts, c.accounts, dead, cmd.request);
    hide Handle;
  }

  /** At the first unclean command the lazy schedule answers differently from the canonical run. */
  lemma LazyDisagrees(log: Log, k: nat, j: nat)
    requires k < |log| && j < |log[k]| && CleanUpTo(log, k, j) && !CleanCommand(log, k, j)
    ensures After(log, Lazy(log, k + 1)).Some? && NoGc(Lazy(log, k + 1))
    ensures var sent := After(log, Lazy(log, k + 1)).value.m.sent;
            exists i :: 0 <= i < |sent| && sent[i].position == Position(INITIAL_APPLIED_INDEX + k + 1, j)
                        && |CanonOut(log, k)| == |log[k]| && sent[i].response != CanonOut(log, k)[j]
  {
    hide Inv, Canon, Dead, Rel, ApplyEntry, RunPrefix, Refines, AtBoundary, Sound, Run, After, Sensitive;
    assert CleanUpTo(log, k, 0);
    LazyRun(log, k);
    var sys := After(log, Lazy(log, k)).value;
    var m, s, c, index := sys.m, State(sys.m.accounts, sys.history), Canon(log, k), INITIAL_APPLIED_INDEX + k + 1;
    InvRefines(log, sys);
    CanonSound(log, k);
    PrefixRel(log, k, j, s);
    var a1, c1 := RunPrefix(s, 0, index, log[k], j).0, RunPrefix(c, 0, index, log[k], j).0;
    DifferentAnswers(a1, c1, Dead(log, k), Position(index, j), log[k][j]);
    AnswerAt(s, 0, index, log[k], |log[k]|, j);
    AnswerAt(c, 0, index, log[k], |log[k]|, j);
    EntryRefines(m, s, log[k]);
    LazyPlace(log, sys, k);
    EntryRun(log, Lazy(log, k), sys);
    NoGcEntry(Lazy(log, k), |log[k]|);
    var sent' := ApplyEntry(m, log[k]).sent;
    var out := RunEntry(s, 0, index, log[k]).1;
    assert sent'[|m.sent| + j] == SentAt(index, out)[j];
  }

  // ---------- the theorem ----------

  /** Two schedules give the same answers, and at the same command the same history, sequence number
      and live accounts. */
  ghost predicate SameOutcome(x: System, y: System) {
    && (forall i, j | 0 <= i < |x.m.sent| && 0 <= j < |y.m.sent| && x.m.sent[i].position == y.m.sent[j].position ::
          x.m.sent[i].response == y.m.sent[j].response)
    && (x.m.appliedIndex == y.m.appliedIndex && x.offset == y.offset ==>
          && x.history == y.history && x.m.lastSeqNum == y.m.lastSeqNum
          && Live(x.m.accounts) == Live(y.m.accounts))
  }

  /** Without event collection, flush timing and crashes cannot be observed. */
  ghost predicate Transparent(log: Log) {
    forall xs, ys | NoGc(xs) && NoGc(ys) && After(log, xs).Some? && After(log, ys).Some? ::
      SameOutcome(After(log, xs).value, After(log, ys).value)
  }

  lemma CleanSystemIsCanon(log: Log, sys: System)
    requires CleanSystem(log, sys)
    ensures Live(sys.m.accounts) == Live(At(log, EntryNumber(sys.m), sys.offset).accounts)
    ensures sys.m.lastSeqNum == |sys.history|
  {
    hide Inv, At, Dead, Rel, Live, AgreedAnswer, CleanDb, Refines, Tombstones;
    var k := EntryNumber(sys.m);
    SameLive(sys.m.accounts, At(log, k, sys.offset).accounts, Dead(log, k));
    InvRefines(log, sys);
    RefinesAccounts(sys.m, State(sys.m.accounts, sys.history));
  }

  lemma CleanSystemsAgree(log: Log, x: System, y: System)
    requires CleanSystem(log, x) && CleanSystem(log, y)
    ensures SameOutcome(x, y)
  {
    hide Inv, At, Rel, Dead, Live, CanonOut, CleanDb;
    CleanSystemIsCanon(log, x);
    CleanSystemIsCanon(log, y);
    forall i, j | 0 <= i < |x.m.sent| && 0 <= j < |y.m.sent| && x.m.sent[i].position == y.m.sent[j].position
      ensures x.m.sent[i].response == y.m.sent[j].response
    {
      assert AgreedAnswer(log, x.m.sent[i]) && AgreedAnswer(log, y.m.sent[j]);
    }
  }

  /** The first command that is not clean. */
  lemma FirstUnclean(log: Log) returns (k: nat, j: nat)
    requires !CleanLog(log)
    ensures k < |log| && j < |log[k]| && CleanUpTo(log, k, j) && !CleanCommand(log, k, j)
  {
    hide CleanCommand;
    k, j := 0, 0;
    while k < |log|
      invariant k <= |log| && CleanUpTo(log, k, 0)
    {
      j := 0;
      while j < |log[k]|
        invariant j <= |log[k]| && CleanUpTo(log, k, j)
      {
        if !CleanCommand(log, k, j) { return; }
        j := j + 1;
      }
      k := k + 1;
    }
  }

  /** Flush timing and crashes are unobservable exactly for the logs in which no fresh command
      reaches an account deleted by an earlier entry. */
  lemma TransparentExactlyWhenClean(log: Log)
    ensures Transparent(log) <==> CleanLog(log)
  {
    hide CleanCommand, SameOutcome, CleanSystem, After, NoGc;
    if CleanLog(log) {
      forall xs, ys | NoGc(xs) && NoGc(ys) && After(log, xs).Some? && After(log, ys).Some?
        ensures SameOutcome(After(log, xs).value, After(log, ys).value)
      {
        CleanRun(log, xs);
        CleanRun(log, ys);
        CleanSystemsAgree(log, After(log, xs).value, After(log, ys).value);
      }
    } else {
      var k, j := FirstUnclean(log);
      LazyDisagrees(log, k, j);
      EagerRun(log, k + 1);
      EagerAnswers(log, k, j);
      Observed(log, k, j);
    }
  }

  lemma EagerAnswers(log: Log, k: nat, j: nat)
    requires k < |log| && j < |log[k]| && After(log, Eager(log, k + 1)).Some?
    requires EagerAt(log, After(log, Eager(log, k + 1)).value, k + 1)
    ensures var sent := After(log, Eager(log, k + 1)).value.m.sent;
            exists i :: 0 <= i < |sent| && sent[i].position == Position(INITIAL_APPLIED_INDEX + k + 1, j)
                        && j < |CanonOut(log, k)| && sent[i].response == CanonOut(log, k)[j]
  {
    hide After, Inv, Canon, CanonOut;
    var sent, p := After(log, Eager(log, k + 1)).value.m.sent, Position(INITIAL_APPLIED_INDEX + k + 1, j);
    assert InLog(log, p);
    var i :| 0 <= i < |sent| && sent[i].position == p;
    assert AgreedAnswer(log, sent[i]);
  }

  lemma Observed(log: Log, k: nat, j: nat)
    requires k < |log| && j < |log[k]|
    requires NoGc(Eager(log, k + 1)) && NoGc(Lazy(log, k + 1))
    requires After(log, Eager(log, k + 1)).Some? && After(log, Lazy(log, k + 1)).Some?
    requires var sent := After(log, Lazy(log, k + 1)).value.m.sent;
             exists i :: 0 <= i < |sent| && sent[i].position == Position(INITIAL_APPLIED_INDEX + k + 1, j)
                         && |CanonOut(log, k)| == |log[k]| && sent[i].response != CanonOut(log, k)[j]
    requires var sent := After(log, Eager(log, k + 1)).value.m.sent;
             exists i :: 0 <= i < |sent| && sent[i].position == Position(INITIAL_APPLIED_INDEX + k + 1, j)
                         && j < |CanonOut(log, k)| && sent[i].response == CanonOut(log, k)[j]
    ensures !Transparent(log)
  {
    hide After, CanonOut, Eager, Lazy, NoGc, Live;
    var x, y := After(log, Eager(log, k + 1)).value, After(log, Lazy(log, k + 1)).value;
    var p := Position(INITIAL_APPLIED_INDEX + k + 1, j);
    var i :| 0 <= i < |x.m.sent| && x.m.sent[i].position == p && x.m.sent[i].response == CanonOut(log, k)[j];
    var i' :| 0 <= i' < |y.m.sent| && y.m.sent[i'].position == p && y.m.sent[i'].response != CanonOut(log, k)[j];
    assert !SameOutcome(x, y);
  }
}
