/** What every run of the reference machine keeps: stored accounts are well formed, and the live
    accounts are the fold of the event history. */
module EventSourcing {
  import opened WalletTypes
  import opened Decimals
  import opened Accounts
  import opened Ledger

  ghost predicate AccountsOk(accounts: AccountMap) {
    forall id <- accounts :: accounts[id].id == id && WellFormed(accounts[id])
  }

  /** Sequence numbers are consecutive from 1. */
  ghost predicate Numbered(history: seq<Event>) {
    forall i | 0 <= i < |history| :: history[i].header.seqNum == i + 1
  }

  ghost predicate Sound(s: State) {
    && AccountsOk(s.accounts)
    && Numbered(s.history)
    && Live(s.accounts) == Fold(s.history)
  }

  lemma GetOrCreateOk(accounts: AccountMap, id: Id)
    requires AccountsOk(accounts)
    ensures GetOrCreate(accounts, id).id == id && WellFormed(GetOrCreate(accounts, id))
  {
    NewIsEmpty(id);
  }

  // ---------- batches ----------

  /** A batch succeeds only if each spec does on its own, against the accounts before the batch. */
  lemma {:induction false} IncreaseEachAt(accounts: AccountMap, specs: seq<BalanceSpec>)
    requires IncreaseEach(accounts, specs).Ok?
    ensures var ups := IncreaseEach(accounts, specs).value;
            && |ups| == |specs|
            && forall i | 0 <= i < |specs| ::
                 IncreaseBalanceBy(GetOrCreate(accounts, specs[i].account), specs[i].amount) == Ok(ups[i])
  {
    if specs != [] {
      var init := specs[..|specs| - 1];
      IncreaseEachAt(accounts, init);
      assert forall i | 0 <= i < |init| :: init[i] == specs[i];
    }
  }

  lemma {:induction false} WriteAllOk(accounts: AccountMap, writes: seq<Account>)
    requires AccountsOk(accounts)
    requires forall i | 0 <= i < |writes| :: WellFormed(writes[i])
    ensures AccountsOk(WriteAll(accounts, writes))
  {
    if writes != [] { WriteAllOk(accounts, writes[..|writes| - 1]); }
  }

  lemma TransferWellFormed(accounts: AccountMap, request: Request)
    requires AccountsOk(accounts) && request.Transfer? && Handle(accounts, request).Ok?
    ensures forall i | 0 <= i < |Handle(accounts, request).value.writes| ::
              WellFormed(Handle(accounts, request).value.writes[i])
  {
    GetOrCreateOk(accounts, request.source);
    GetOrCreateOk(accounts, request.dest);
  }

  lemma BatchWellFormed(accounts: AccountMap, specs: seq<BalanceSpec>)
    requires AccountsOk(accounts) && HandleBatch(accounts, specs).Ok?
    ensures forall i | 0 <= i < |HandleBatch(accounts, specs).value.writes| ::
              WellFormed(HandleBatch(accounts, specs).value.writes[i])
  {
    hide IncreaseEach;
    IncreaseEachAt(accounts, specs);
    forall i | 0 <= i < |specs| ensures WellFormed(IncreaseEach(accounts, specs).value[i].account) {
      GetOrCreateOk(accounts, specs[i].account);
    }
  }

  lemma EffectWellFormed(accounts: AccountMap, request: Request)
    requires AccountsOk(accounts) && Handle(accounts, request).Ok?
    ensures forall i | 0 <= i < |Handle(accounts, request).value.writes| ::
              WellFormed(Handle(accounts, request).value.writes[i])
  {
    hide HandleTransfer, HandleBatch;
    match request
    case Transfer(_, _, _) => TransferWellFormed(accounts, request);
    case BatchBalanceOperation(specs) => BatchWellFormed(accounts, specs);
    case ReserveFunds(_, _, _) => HoldsBalanceOnly(accounts, request);
    case ReleaseFunds(_, _, _) => HoldsBalanceOnly(accounts, request);
    case CreateAccount(account) => NewIsEmpty(account);
    case _ =>
  }

  // ---------- the fold of one event ----------

  lemma LiveAccount(m: AccountMap, a: Account)
    ensures Live(m[a.id := a]) == FoldAccount(Live(m), a)
  {
  }

  predicate SameButBalance(a: Account, b: Account) { a == b.(balance := a.balance) }

  /** Writing a new balance is folding it, for an account that was Normal or absent. */
  lemma LiveBalance(m: AccountMap, a: Account)
    requires !a.state.Deleted? && SameButBalance(a, GetOrCreate(m, a.id))
    ensures Live(m[a.id := a]) == FoldChange(Live(m), a.id, a.balance)
  {
  }

  /** `m'` differs from `m` only in balances and in fresh accounts. */
  ghost predicate BalancesOnly(m: AccountMap, m': AccountMap) {
    m.Keys <= m'.Keys && forall id <- m' :: SameButBalance(m'[id], GetOrCreate(m, id))
  }

  lemma BatchStep(accounts: AccountMap, m: AccountMap, a: Account)
    requires BalancesOnly(accounts, m) && OnlyBalanceChanged(GetOrCreate(accounts, a.id), a)
    ensures BalancesOnly(accounts, m[a.id := a])
    ensures Live(m[a.id := a]) == FoldChange(Live(m), a.id, a.balance)
  {
    LiveBalance(m, a);
  }

  ghost predicate Faithful(accounts: AccountMap, up: Increased) {
    && OnlyBalanceChanged(GetOrCreate(accounts, up.account.id), up.account)
    && up.change.accountId == up.account.id && up.change.curr == up.account.balance
  }

  lemma BatchUp(accounts: AccountMap, m: AccountMap, up: Increased)
    requires BalancesOnly(accounts, m) && Faithful(accounts, up)
    ensures var a := up.account;
            && BalancesOnly(accounts, m[a.id := a])
            && Live(m[a.id := a]) == FoldChange(Live(m), up.change.accountId, up.change.curr)
  {
    hide Live;
    BatchStep(accounts, m, up.account);
  }

  lemma {:induction false} FoldBatch(accounts: AccountMap, ups: seq<Increased>, k: nat)
    requires forall i | 0 <= i < |ups| :: Faithful(accounts, ups[i])
    requires k <= |ups|
    ensures var m := WriteAll(accounts, AccountsOf(ups)[..k]);
            BalancesOnly(accounts, m) && Live(m) == FoldChanges(Live(accounts), ChangesOf(ups)[..k])
  {
    if k > 0 {
      hide Live, BalancesOnly, Faithful;
      FoldBatch(accounts, ups, k - 1);
      assert AccountsOf(ups)[..k][..k - 1] == AccountsOf(ups)[..k - 1];
      assert ChangesOf(ups)[..k][..k - 1] == ChangesOf(ups)[..k - 1];
      assert Faithful(accounts, ups[k - 1]);
      var m := WriteAll(accounts, AccountsOf(ups)[..k - 1]);
      BatchUp(accounts, m, ups[k - 1]);
    }
  }

  lemma BatchFolds(accounts: AccountMap, specs: seq<BalanceSpec>)
    requires AccountsOk(accounts) && IncreaseEach(accounts, specs).Ok?
    ensures var ups := IncreaseEach(accounts, specs).value;
            Live(WriteAll(accounts, AccountsOf(ups))) == FoldChanges(Live(accounts), ChangesOf(ups))
  {
    var ups := IncreaseEach(accounts, specs).value;
    IncreaseEachAt(accounts, specs);
    forall i | 0 <= i < |ups| ensures Faithful(accounts, ups[i]) {
      GetOrCreateOk(accounts, specs[i].account);
    }
    FoldBatch(accounts, ups, |ups|);
    assert AccountsOf(ups)[..|ups|] == AccountsOf(ups) && ChangesOf(ups)[..|ups|] == ChangesOf(ups);
  }

  /** The single account a reserve or a release writes. */
  lemma HoldsBalanceOnly(accounts: AccountMap, request: Request)
    requires AccountsOk(accounts) && Handle(accounts, request).Ok?
    requires request.ReserveFunds? || request.ReleaseFunds?
    ensures var effect := Handle(accounts, request).value;
            && |effect.writes| == 1 && request.account in accounts
            && OnlyBalanceChanged(accounts[request.account], effect.writes[0])
            && Funds(effect.writes[0]) == Funds(accounts[request.account])
            && WellFormed(effect.writes[0]) && WithinLimit(effect.writes[0])
  {
    match request
    case ReserveFunds(account, reservation, amount) =>
      ReserveKeepsFunds(accounts[account], reservation, amount);
    case ReleaseFunds(account, reservation, amount) =>
      if amount == Text("") { ReleaseAllKeepsFunds(accounts[account], reservation); }
      else { PartialReleaseKeepsFunds(accounts[account], reservation, amount); }
  }

  lemma HoldFolds(accounts: AccountMap, request: Request, header: EventHeader)
    requires AccountsOk(accounts) && Handle(accounts, request).Ok?
    requires request.ReserveFunds? || request.ReleaseFunds?
    ensures var effect := Handle(accounts, request).value;
            Live(WriteAll(accounts, effect.writes))
              == FoldEvent(Live(accounts), Event(header, request, effect.payload))
  {
    var effect := Handle(accounts, request).value;
    HoldsBalanceOnly(accounts, request);
    WriteOne(accounts, effect.writes[0]);
    LiveBalance(accounts, effect.writes[0]);
    assert effect.writes == [effect.writes[0]];
  }

  lemma ManagementFolds(accounts: AccountMap, request: Request, header: EventHeader)
    requires AccountsOk(accounts) && Handle(accounts, request).Ok?
    requires request.CreateAccount? || request.LockAccount? || request.UnlockAccount?
          || request.DeleteAccount? || request.UpdateAccountConfig?
    ensures var effect := Handle(accounts, request).value;
            Live(WriteAll(accounts, effect.writes))
              == FoldEvent(Live(accounts), Event(header, request, effect.payload))
  {
    ManagementWrites(accounts, request);
    hide Handle, Live;
    var a := Handle(accounts, request).value.writes[0];
    WriteOne(accounts, a);
    LiveAccount(accounts, a);
  }

  lemma ManagementWrites(accounts: AccountMap, request: Request)
    requires AccountsOk(accounts) && Handle(accounts, request).Ok?
    requires request.CreateAccount? || request.LockAccount? || request.UnlockAccount?
          || request.DeleteAccount? || request.UpdateAccountConfig?
    ensures var effect := Handle(accounts, request).value;
            && |effect.writes| == 1 && effect.writes == [effect.writes[0]]
            && !effect.payload.TransferEvent? && !effect.payload.BatchBalanceOperationEvent?
            && !effect.payload.ReserveEvent? && !effect.payload.ReleaseEvent?
            && effect.payload.account == effect.writes[0]
  {
  }

  /** One handled request changes the live accounts exactly as its event says. */
  lemma HandleFolds(accounts: AccountMap, request: Request, header: EventHeader)
    requires AccountsOk(accounts) && Handle(accounts, request).Ok?
    ensures var effect := Handle(accounts, request).value;
            Live(WriteAll(accounts, effect.writes))
              == FoldEvent(Live(accounts), Event(header, request, effect.payload))
  {
    match request
    case Transfer(amount, source, dest) => TransferFolds(accounts, amount, source, dest);
    case BatchBalanceOperation(specs) => BatchFolds(accounts, specs);
    case ReserveFunds(_, _, _) => HoldFolds(accounts, request, header);
    case ReleaseFunds(_, _, _) => HoldFolds(accounts, request, header);
    case _ => ManagementFolds(accounts, request, header);
  }

  lemma WriteOne(accounts: AccountMap, a: Account)
    ensures WriteAll(accounts, [a]) == accounts[a.id := a]
  {
    assert WriteAll(accounts, [a][..0]) == accounts;
  }

  lemma WriteTwo(accounts: AccountMap, a: Account, b: Account)
    ensures WriteAll(accounts, [a, b]) == accounts[a.id := a][b.id := b]
  {
    assert [a, b][..1] == [a];
    WriteOne(accounts, a);
  }

  lemma TransferFolds(accounts: AccountMap, amount: Amount, source: Id, dest: Id)
    requires AccountsOk(accounts) && HandleTransfer(accounts, amount, source, dest).Ok?
    ensures var effect := HandleTransfer(accounts, amount, source, dest).value;
            && effect.payload.TransferEvent?
            && Live(WriteAll(accounts, effect.writes))
               == FoldChange(FoldChange(Live(accounts), dest, effect.payload.dest.curr),
                             source, effect.payload.source.curr)
            && effect.payload.dest.accountId == dest && effect.payload.source.accountId == source
  {
    var effect := HandleTransfer(accounts, amount, source, dest).value;
    var dst, src := effect.writes[0], effect.writes[1];
    GetOrCreateOk(accounts, source);
    GetOrCreateOk(accounts, dest);
    WriteTwo(accounts, dst, src);
    LiveBalance(accounts, dst);
    LiveBalance(accounts[dst.id := dst], src);
  }

  // ---------- runs ----------

  /** Soundness is kept by every command, whatever has been garbage-collected before. */
  lemma RunSound(s: State, first: nat, position: Position, cmd: Command)
    requires Sound(s)
    ensures Sound(Run(s, first, position, cmd).0)
    ensures s.history <= Run(s, first, position, cmd).0.history
  {
    hide Handle, Lookup, Live, FoldEvent, WriteAll;
    var s' := Run(s, first, position, cmd).0;
    if Lookup(s.history, first, cmd.id).None? && Handle(s.accounts, cmd.request).Ok? {
      var effect := Handle(s.accounts, cmd.request).value;
      EffectWellFormed(s.accounts, cmd.request);
      WriteAllOk(s.accounts, effect.writes);
      var event := BuildEvent(|s.history| + 1, position, cmd, effect.payload);
      HandleFolds(s.accounts, cmd.request, event.header);
      assert s'.history[..|s'.history| - 1] == s.history;
    }
  }

  lemma {:induction false} RunPrefixSound(s: State, first: nat, index: nat, cmds: seq<Command>, k: nat)
    requires Sound(s) && k <= |cmds|
    ensures var (s', out) := RunPrefix(s, first, index, cmds, k);
            Sound(s') && |out| == k && s.history <= s'.history
  {
    hide Run, Sound;
    if k > 0 {
      RunPrefixSound(s, first, index, cmds, k - 1);
      RunSound(RunPrefix(s, first, index, cmds, k - 1).0, first, Position(index, k - 1), cmds[k - 1]);
    }
  }

  lemma EmptyIsSound()
    ensures Sound(EMPTY)
  {
    assert Live(map[]) == map[];
  }
}
