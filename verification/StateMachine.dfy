/** The wallet state machine and its apply context as objects updated in place. Every method is
    proved against the machine of `WalletMachine`. */
module StateMachineObjects {
  import opened WalletTypes
  import opened Accounts
  import opened Decimals
  import L = Ledger
  import opened WalletStore
  import W = WalletMachine
  import opened WalletRefinement

  class ApplyContext {
    const batchSize: nat
    var wb: seq<Op>
    var toBeDeleted: seq<Id>
    var flushedAppliedIndex: nat
    var sent: seq<W.Sent>

    constructor (batchSize: nat, appliedIndex: nat)
      ensures this.batchSize == batchSize
      ensures wb == [] && toBeDeleted == [] && flushedAppliedIndex == appliedIndex && sent == []
    {
      this.batchSize := batchSize;
      wb, toBeDeleted, flushedAppliedIndex, sent := [], [], appliedIndex, [];
    }

    method SendEvent(position: L.Position, response: L.Response)
      modifies this`sent
      ensures sent == old(sent) + [W.Sent(position, response)]
    {
      sent := sent + [W.Sent(position, response)];
    }
  }

  /** What the machine becomes once a handled request is committed, and what it answers. */
  ghost function Committed(m: W.Machine, h: Result<L.Effect>): W.Machine {
    match h
    case Err(_) => m
    case Ok(effect) => W.WriteEach(m.(lastSeqNum := m.lastSeqNum + 1), effect.isDelete, effect.writes)
  }

  ghost function PayloadOf(h: Result<L.Effect>): Result<L.Payload> {
    match h
    case Err(e) => Err(e)
    case Ok(effect) => Ok(effect.payload)
  }

  lemma CommitOne(m: W.Machine, isDelete: bool, a: Account)
    ensures W.WriteEach(m, isDelete, [a]) == W.Write(m, isDelete, a)
  {
    assert [a][..0] == [];
  }

  lemma CommitTwo(m: W.Machine, isDelete: bool, a: Account, b: Account)
    ensures W.WriteEach(m, isDelete, [a, b]) == W.Write(W.Write(m, isDelete, a), isDelete, b)
  {
    assert [a, b][..1] == [a];
    CommitOne(m, isDelete, a);
  }

  class StateMachine {
    var accounts: L.AccountMap
    var appliedIndex: nat
    var lastSeqNum: nat
    var seqNumCache: map<Id, nat>
    var eventCache: map<nat, L.Event>
    const rocks: RocksDb

    ghost function Abs(ctx: ApplyContext): W.Machine
      reads this, ctx, rocks
    {
      W.Machine(accounts, appliedIndex, lastSeqNum, seqNumCache, eventCache,
                ctx.wb, ctx.toBeDeleted, ctx.flushedAppliedIndex, ctx.sent, rocks.db)
    }

    /** The context of the recovered machine starts at its applied index. */
    constructor RecoverFromDb(rocks: RocksDb)
      ensures this.rocks == rocks
      ensures accounts == rocks.db.data && appliedIndex == Applied(rocks.db) && lastSeqNum == Last(rocks.db)
      ensures seqNumCache == map[] && eventCache == map[]
    {
      this.rocks := rocks;
      accounts, appliedIndex, lastSeqNum := rocks.db.data, Applied(rocks.db), Last(rocks.db);
      seqNumCache, eventCache := map[], map[];
    }

    static method Recover(rocks: RocksDb, batchSize: nat) returns (sm: StateMachine, ctx: ApplyContext)
      ensures fresh(sm) && fresh(ctx) && sm.rocks == rocks && ctx.batchSize == batchSize
      ensures sm.Abs(ctx) == W.Recover(rocks.db, [])
    {
      sm := new StateMachine.RecoverFromDb(rocks);
      ctx := new ApplyContext(batchSize, sm.appliedIndex);
    }

    function GetEvent(n: nat): Option<L.Event>
      reads this, rocks
    {
      if n in eventCache then Some(eventCache[n])
      else if n in rocks.db.events then Some(rocks.db.events[n]) else None
    }

    function GetSeqNum(id: Id): Option<nat>
      reads this, rocks
    {
      if id in seqNumCache then Some(seqNumCache[id])
      else if id in rocks.db.dedup then Some(rocks.db.dedup[id]) else None
    }

    // ---------- writing accounts ----------

    method UpdateAccount(ctx: ApplyContext, a: Account)
      modifies this`accounts, ctx`wb
      ensures Abs(ctx) == W.Write(old(Abs(ctx)), false, a)
    {
      ctx.wb := ctx.wb + [PutData(a)];
      accounts := accounts[a.id := a];
    }

    method DeleteAccount(ctx: ApplyContext, a: Account)
      modifies this`accounts, ctx`wb, ctx`toBeDeleted
      ensures Abs(ctx) == W.Write(old(Abs(ctx)), true, a)
    {
      ctx.wb := ctx.wb + [DeleteData(a.id)];
      ctx.toBeDeleted := ctx.toBeDeleted + [a.id];
      accounts := accounts[a.id := a];
    }

    // ---------- handlers ----------

    method HandleTransfer(ctx: ApplyContext, amount: Amount, source: Id, dest: Id) returns (r: Result<L.Payload>)
      modifies this`accounts, this`lastSeqNum, ctx`wb
      ensures var h := L.HandleTransfer(old(accounts), amount, source, dest);
              Abs(ctx) == Committed(old(Abs(ctx)), h) && r == PayloadOf(h)
    {
      var src, dst := L.GetOrCreate(accounts, source), L.GetOrCreate(accounts, dest);
      var compatible := CheckAssetClass(src, dst);
      if compatible.Err? { return Err(compatible.error); }
      var newDst := IncreaseBalanceBy(dst, amount);
      if newDst.Err? { return Err(newDst.error); }
      var neg := Neg(amount);  // the amount has parsed, so this succeeds
      var newSrc := IncreaseBalanceBy(src, neg.value);
      if newSrc.Err? { return Err(newSrc.error); }
      lastSeqNum := lastSeqNum + 1;
      CommitTwo(Abs(ctx), false, newDst.value.account, newSrc.value.account);
      UpdateAccount(ctx, newDst.value.account);
      UpdateAccount(ctx, newSrc.value.account);
      r := Ok(L.TransferEvent(newSrc.value.change, newDst.value.change));
    }

    /** All specs are computed before any account is written. */
    method HandleBatch(ctx: ApplyContext, specs: seq<L.BalanceSpec>) returns (r: Result<L.Payload>)
      modifies this`accounts, this`lastSeqNum, ctx`wb
      ensures var h := L.HandleBatch(old(accounts), specs);
              Abs(ctx) == Committed(old(Abs(ctx)), h) && r == PayloadOf(h)
    {
      hide IncreaseBalanceBy, L.IncreaseEach, W.WriteEach, L.GetOrCreate;
      var ups: seq<Increased> := [];
      NothingYet(accounts);
      var i := 0;
      while i < |specs|
        invariant 0 <= i <= |specs|
        invariant L.IncreaseEach(accounts, specs[..i]) == Ok(ups)
        invariant Abs(ctx) == old(Abs(ctx))
      {
        NextIncrease(accounts, specs, i);
        var up := IncreaseBalanceBy(L.GetOrCreate(accounts, specs[i].account), specs[i].amount);
        if up.Err? {
          FirstErrorWins(accounts, specs, i + 1);
          return Err(up.error);
        }
        ups := ups + [up.value];
        i := i + 1;
      }
      assert specs[..i] == specs;
      lastSeqNum := lastSeqNum + 1;
      ghost var m := Abs(ctx);
      var writes, changes := L.AccountsOf(ups), L.ChangesOf(ups);
      i := 0;
      NothingWritten(m);
      while i < |writes|
        invariant 0 <= i <= |writes|
        invariant Abs(ctx) == W.WriteEach(m, false, writes[..i])
      {
        NextWrite(m, writes, i);
        UpdateAccount(ctx, writes[i]);
        i := i + 1;
      }
      assert writes[..i] == writes;
      r := Ok(L.BatchBalanceOperationEvent(changes));
    }

    method HandleReserve(ctx: ApplyContext, account: Id, reservation: Id, amount: Amount) returns (r: Result<L.Payload>)
      modifies this`accounts, this`lastSeqNum, ctx`wb
      ensures var h := L.HandleReserve(old(accounts), account, reservation, amount);
              Abs(ctx) == Committed(old(Abs(ctx)), h) && r == PayloadOf(h)
    {
      hide Reserve;
      var prev := L.MustExist(accounts, account);
      if prev.Err? { return Err(prev.error); }
      var curr := Reserve(prev.value, reservation, amount);
      if curr.Err? { return Err(curr.error); }
      lastSeqNum := lastSeqNum + 1;
      CommitOne(Abs(ctx), false, curr.value);
      UpdateAccount(ctx, curr.value);
      r := Ok(L.ReserveEvent(prev.value.balance, curr.value.balance));
    }

    method HandleRelease(ctx: ApplyContext, account: Id, reservation: Id, amount: Amount) returns (r: Result<L.Payload>)
      modifies this`accounts, this`lastSeqNum, ctx`wb
      ensures var h := L.HandleRelease(old(accounts), account, reservation, amount);
              Abs(ctx) == Committed(old(Abs(ctx)), h) && r == PayloadOf(h)
    {
      hide ReleaseAll, PartialRelease;
      var prev := L.MustExist(accounts, account);
      if prev.Err? { return Err(prev.error); }
      var curr;
      if amount == Text("") { curr := ReleaseAll(prev.value, reservation); }
      else { curr := PartialRelease(prev.value, reservation, amount); }
      if curr.Err? { return Err(curr.error); }
      lastSeqNum := lastSeqNum + 1;
      CommitOne(Abs(ctx), false, curr.value);
      UpdateAccount(ctx, curr.value);
      r := Ok(L.ReleaseEvent(prev.value.balance, curr.value.balance));
    }

    method HandleCreate(ctx: ApplyContext, account: Id) returns (r: Result<L.Payload>)
      modifies this`accounts, this`lastSeqNum, ctx`wb
      ensures var h := L.HandleCreate(old(accounts), account);
              Abs(ctx) == Committed(old(Abs(ctx)), h) && r == PayloadOf(h)
    {
      if account in accounts { return Err(AccountAlreadyExist(account)); }
      var a := New(account);
      lastSeqNum := lastSeqNum + 1;
      CommitOne(Abs(ctx), false, a);
      UpdateAccount(ctx, a);
      r := Ok(L.AccountCreated(a));
    }

    method HandleLock(ctx: ApplyContext, account: Id) returns (r: Result<L.Payload>)
      modifies this`accounts, this`lastSeqNum, ctx`wb
      ensures var h := L.HandleLock(old(accounts), account);
              Abs(ctx) == Committed(old(Abs(ctx)), h) && r == PayloadOf(h)
    {
      var prev := L.MustExist(accounts, account);
      if prev.Err? { return Err(prev.error); }
      var curr := Lock(prev.value);
      if curr.Err? { return Err(curr.error); }
      lastSeqNum := lastSeqNum + 1;
      CommitOne(Abs(ctx), false, curr.value);
      UpdateAccount(ctx, curr.value);
      r := Ok(L.AccountLocked(curr.value));
    }

    method HandleUnlock(ctx: ApplyContext, account: Id) returns (r: Result<L.Payload>)
      modifies this`accounts, this`lastSeqNum, ctx`wb
      ensures var h := L.HandleUnlock(old(accounts), account);
              Abs(ctx) == Committed(old(Abs(ctx)), h) && r == PayloadOf(h)
    {
      var prev := L.MustExist(accounts, account);
      if prev.Err? { return Err(prev.error); }
      var curr := Unlock(prev.value);
      if curr.Err? { return Err(curr.error); }
      lastSeqNum := lastSeqNum + 1;
      CommitOne(Abs(ctx), false, curr.value);
      UpdateAccount(ctx, curr.value);
      r := Ok(L.AccountUnlocked(curr.value));
    }

    method HandleDelete(ctx: ApplyContext, account: Id) returns (r: Result<L.Payload>)
      modifies this`accounts, this`lastSeqNum, ctx`wb, ctx`toBeDeleted
      ensures var h := L.HandleDelete(old(accounts), account);
              Abs(ctx) == Committed(old(Abs(ctx)), h) && r == PayloadOf(h)
    {
      hide CheckEmpty;
      var prev := L.MustExist(accounts, account);
      if prev.Err? { return Err(prev.error); }
      var curr := Delete(prev.value);
      if curr.Err? { return Err(curr.error); }
      lastSeqNum := lastSeqNum + 1;
      CommitOne(Abs(ctx), true, curr.value);
      DeleteAccount(ctx, curr.value);
      r := Ok(L.AccountDeleted(curr.value));
    }

    method HandleUpdateConfig(ctx: ApplyContext, account: Id, limit: BalanceLimit) returns (r: Result<L.Payload>)
      modifies this`accounts, this`lastSeqNum, ctx`wb
      ensures var h := L.HandleUpdateConfig(old(accounts), account, limit);
              Abs(ctx) == Committed(old(Abs(ctx)), h) && r == PayloadOf(h)
    {
      var prev := L.MustExist(accounts, account);
      if prev.Err? { return Err(prev.error); }
      var curr := SetBalanceLimit(prev.value, limit);
      lastSeqNum := lastSeqNum + 1;
      CommitOne(Abs(ctx), false, curr);
      UpdateAccount(ctx, curr);
      r := Ok(L.AccountConfigUpdated(curr));
    }

    method Dispatch(ctx: ApplyContext, request: L.Request) returns (r: Result<L.Payload>)
      modifies this`accounts, this`lastSeqNum, ctx`wb, ctx`toBeDeleted
      ensures var h := L.Handle(old(accounts), request);
              Abs(ctx) == Committed(old(Abs(ctx)), h) && r == PayloadOf(h)
    {
      hide L.HandleTransfer, L.HandleBatch, L.HandleReserve, L.HandleRelease, L.HandleCreate, L.HandleLock,
           L.HandleUnlock, L.HandleDelete, L.HandleUpdateConfig, Committed, PayloadOf;
      match request
      case Transfer(amount, source, dest) => r := HandleTransfer(ctx, amount, source, dest);
      case BatchBalanceOperation(specs) => r := HandleBatch(ctx, specs);
      case ReserveFunds(account, reservation, amount) => r := HandleReserve(ctx, account, reservation, amount);
      case ReleaseFunds(account, reservation, amount) => r := HandleRelease(ctx, account, reservation, amount);
      case CreateAccount(account) => r := HandleCreate(ctx, account);
      case LockAccount(account) => r := HandleLock(ctx, account);
      case UnlockAccount(account) => r := HandleUnlock(ctx, account);
      case DeleteAccount(account) => r := HandleDelete(ctx, account);
      case UpdateAccountConfig(account, limit) => r := HandleUpdateConfig(ctx, account, limit);
    }

    // ---------- commands, entries, flushes ----------

    method UpdateSeqNumAndEvent(ctx: ApplyContext, commandId: Id, event: L.Event)
      requires event.header.commandId == commandId
      modifies this`seqNumCache, this`eventCache, ctx`wb
      ensures Abs(ctx) == W.RecordEvent(old(Abs(ctx)), event)
    {
      ctx.wb := ctx.wb + [PutDedup(commandId, lastSeqNum), PutEvent(lastSeqNum, event)];
      seqNumCache := seqNumCache[commandId := lastSeqNum];
      eventCache := eventCache[lastSeqNum := event];
    }

    /** A duplicate is answered from the recorded event; a fresh command is handled and its event
        recorded and sent. */
    method HandleCommand(ctx: ApplyContext, logIndex: nat, offset: nat, cmd: L.Command)
      modifies this`accounts, this`lastSeqNum, this`seqNumCache, this`eventCache, ctx`wb, ctx`toBeDeleted, ctx`sent
      ensures Abs(ctx) == W.Exec(old(Abs(ctx)), L.Position(logIndex, offset), cmd)
    {
      hide L.Handle;
      var position := L.Position(logIndex, offset);
      var n := GetSeqNum(cmd.id);
      if n.Some? {
        var event := GetEvent(n.value);
        ctx.SendEvent(position, if event.Some? then L.MatchEvent(cmd, event.value) else Err(MissingEvent));
        return;
      }
      var r := Dispatch(ctx, cmd.request);
      match r
      case Err(e) => ctx.SendEvent(position, Err(e));
      case Ok(payload) =>
        var event := L.BuildEvent(lastSeqNum, position, cmd, payload);
        UpdateSeqNumAndEvent(ctx, cmd.id, event);
        ctx.SendEvent(position, Ok(event));
    }

    method ApplyEntry(ctx: ApplyContext, logIndex: nat, cmds: seq<L.Command>)
      requires appliedIndex + 1 == logIndex
      modifies this, ctx`wb, ctx`toBeDeleted, ctx`sent
      ensures Abs(ctx) == W.ApplyEntry(old(Abs(ctx)), cmds)
    {
      hide W.Exec;
      var offset := 0;
      while offset < |cmds|
        invariant 0 <= offset <= |cmds| && appliedIndex + 1 == logIndex
        invariant Abs(ctx) == W.ExecPrefix(old(Abs(ctx)), logIndex, cmds, offset)
      {
        HandleCommand(ctx, logIndex, offset, cmds[offset]);
        offset := offset + 1;
      }
      appliedIndex := logIndex;
      ctx.wb := ctx.wb + [PutApplied(appliedIndex), PutLast(lastSeqNum)];
    }

    /** A full batch flushes at once, a partial one after 100 ms. */
    predicate ShouldFlush(ctx: ApplyContext, idleMs: nat)
      reads this, ctx
    {
      appliedIndex - ctx.flushedAppliedIndex >= ctx.batchSize
      || (appliedIndex > ctx.flushedAppliedIndex && idleMs > 100)
    }

    method Flush(ctx: ApplyContext)
      requires appliedIndex > ctx.flushedAppliedIndex
      modifies this`accounts, this`seqNumCache, this`eventCache, ctx`wb, ctx`toBeDeleted, ctx`flushedAppliedIndex, rocks
      ensures Abs(ctx) == W.Flush(old(Abs(ctx)))
    {
      rocks.Write(ctx.wb);
      ctx.wb := [];
      var ids := ctx.toBeDeleted;
      ctx.toBeDeleted := [];
      var i := 0;
      while i < |ids|
        invariant 0 <= i <= |ids|
        invariant accounts == W.Forget(old(accounts), ids[..i])
        invariant ids == old(ctx.toBeDeleted) && rocks.db == ApplyOps(old(rocks.db), old(ctx.wb))
        invariant ctx.wb == [] && ctx.toBeDeleted == [] && ctx.flushedAppliedIndex == old(ctx.flushedAppliedIndex)
        invariant seqNumCache == old(seqNumCache) && eventCache == old(eventCache)
      {
        accounts := accounts - {ids[i]};
        assert ids[..i + 1] == ids[..i] + [ids[i]];
        i := i + 1;
      }
      assert ids[..i] == ids;
      eventCache, seqNumCache := map[], map[];
      ctx.flushedAppliedIndex := appliedIndex;
    }

    /** One turn of the apply loop over the entries received.  `ok` is false where an assertion of the
        program fails: exactly when an entry is not the one after the applied index, or a batch size
        of zero asks for a flush of nothing. */
    method RunOnce(ctx: ApplyContext, entries: seq<LogEntry>, idleMs: nat) returns (ok: bool)
      requires ctx.flushedAppliedIndex <= appliedIndex
      modifies this, ctx, rocks
      ensures ok <==> InOrder(entries, old(appliedIndex))
                      && (0 < ctx.batchSize || old(ctx.flushedAppliedIndex) < old(appliedIndex) + |entries|)
      ensures ok ==> var m := ApplyAll(old(Abs(ctx)), entries, |entries|);
              var waiting := m.appliedIndex - m.flushedIndex;
              Abs(ctx) == if ctx.batchSize <= waiting || (0 < waiting && 100 < idleMs) then W.Flush(m) else m
      ensures ok ==> ctx.flushedAppliedIndex <= appliedIndex == old(appliedIndex) + |entries|
    {
      hide W.ExecPrefix, W.Forget, ApplyOps;
      var i := 0;
      while i < |entries|
        invariant 0 <= i <= |entries| && appliedIndex == old(appliedIndex) + i
        invariant forall j | 0 <= j < i :: entries[j].index == old(appliedIndex) + 1 + j
        invariant ctx.flushedAppliedIndex == old(ctx.flushedAppliedIndex)
        invariant Abs(ctx) == ApplyAll(old(Abs(ctx)), entries, i)
      {
        if entries[i].index != appliedIndex + 1 { return false; }
        ApplyEntry(ctx, entries[i].index, entries[i].messages);
        i := i + 1;
      }
      if ShouldFlush(ctx, idleMs) {
        if appliedIndex <= ctx.flushedAppliedIndex { return false; }
        Flush(ctx);
      }
      return true;
    }
  }

  datatype LogEntry = LogEntry(index: nat, messages: seq<L.Command>)

  /** Each entry is the one after those applied before it. */
  ghost predicate InOrder(entries: seq<LogEntry>, applied: nat) {
    forall i | 0 <= i < |entries| :: entries[i].index == applied + 1 + i
  }

  ghost function ApplyAll(m: W.Machine, entries: seq<LogEntry>, k: nat): W.Machine
    requires k <= |entries|
  {
    if k == 0 then m else W.ApplyEntry(ApplyAll(m, entries, k - 1), entries[k - 1].messages)
  }

  lemma NothingYet(accounts: L.AccountMap)
    ensures L.IncreaseEach(accounts, []) == Ok([])
  {
  }

  lemma NextIncrease(accounts: L.AccountMap, specs: seq<L.BalanceSpec>, i: nat)
    requires i < |specs| && L.IncreaseEach(accounts, specs[..i]).Ok?
    ensures var up := IncreaseBalanceBy(L.GetOrCreate(accounts, specs[i].account), specs[i].amount);
            L.IncreaseEach(accounts, specs[..i + 1])
            == if up.Ok? then Ok(L.IncreaseEach(accounts, specs[..i]).value + [up.value]) else Err(up.error)
  {
    hide IncreaseBalanceBy;
    assert specs[..i + 1][..i] == specs[..i];
  }

  lemma NothingWritten(m: W.Machine)
    ensures W.WriteEach(m, false, []) == m
  {
  }

  lemma NextWrite(m: W.Machine, writes: seq<Account>, i: nat)
    requires i < |writes|
    ensures W.WriteEach(m, false, writes[..i + 1]) == W.Write(W.WriteEach(m, false, writes[..i]), false, writes[i])
  {
    assert writes[..i + 1][..i] == writes[..i];
  }

  lemma {:induction false} FirstErrorWins(accounts: L.AccountMap, specs: seq<L.BalanceSpec>, k: nat)
    requires k <= |specs| && L.IncreaseEach(accounts, specs[..k]).Err?
    ensures L.IncreaseEach(accounts, specs) == L.IncreaseEach(accounts, specs[..k])
    decreases |specs|
  {
    if k < |specs| {
      assert specs[..|specs| - 1][..k] == specs[..k];
      FirstErrorWins(accounts, specs[..|specs| - 1], k);
    } else {
      assert specs[..k] == specs;
    }
  }
}
