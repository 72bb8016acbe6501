/** Money over whole histories: what each event adds, what a limit guarantees, and the two requests
    (a transfer to oneself, a batch naming an account twice) that do not conserve. */
module Conservation {
  import opened WalletTypes
  import opened Decimals
  import opened Accounts
  import opened Ledger
  import opened EventSourcing
  import opened MapSums

  ghost function Total(accounts: AccountMap): real { Sum(accounts, Funds) }

  // ---------- what a request brings in ----------

  /** The amount of the last spec that names `id`, or zero. */
  ghost function LastAmount(specs: seq<BalanceSpec>, id: Id): real {
    if specs == [] then 0.0
    else if specs[|specs| - 1].account == id then Worth(specs[|specs| - 1].amount)
    else LastAmount(specs[..|specs| - 1], id)
  }

  ghost function SpecSum(specs: seq<BalanceSpec>): real {
    if specs == [] then 0.0
    else SpecSum(specs[..|specs| - 1]) + Worth(specs[|specs| - 1].amount)
  }

  /** What the specs that are overwritten by a later spec for the same account amount to. */
  ghost function Overwritten(specs: seq<BalanceSpec>): real {
    if specs == [] then 0.0
    else Overwritten(specs[..|specs| - 1]) + LastAmount(specs[..|specs| - 1], specs[|specs| - 1].account)
  }

  /** The exact change of the total a successful request makes. */
  ghost function Net(request: Request): real {
    match request
    case Transfer(amount, source, dest) => if source == dest then -Worth(amount) else 0.0
    case BatchBalanceOperation(specs) => SpecSum(specs) - Overwritten(specs)
    case _ => 0.0
  }

  ghost function NetOf(history: seq<Event>): real {
    if history == [] then 0.0
    else NetOf(history[..|history| - 1]) + Net(history[|history| - 1].request)
  }

  // ---------- one request ----------

  lemma {:induction false} TombstonesAreEmpty(accounts: AccountMap)
    requires AccountsOk(accounts)
    ensures Total(Live(accounts)) == Total(accounts)
    decreases |accounts|
  {
    if id :| id in accounts && accounts[id].state.Deleted? {
      SumRemove(accounts, id, Funds);
      TombstoneRemoved(accounts, id);
      hide Live, Funds, Sum;
      TombstonesAreEmpty(accounts - {id});
    } else {
      assert Live(accounts) == accounts;
    }
  }

  lemma TombstoneRemoved(accounts: AccountMap, id: Id)
    requires AccountsOk(accounts) && id in accounts && accounts[id].state.Deleted?
    ensures AccountsOk(accounts - {id}) && |accounts - {id}| < |accounts|
    ensures Live(accounts) == Live(accounts - {id}) && Funds(accounts[id]) == 0.0
  {
    assert (accounts - {id}).Keys == accounts.Keys - {id};
    assert |accounts - {id}| == |(accounts - {id}).Keys| && |accounts| == |accounts.Keys|;
  }

  lemma WriteTotal(accounts: AccountMap, a: Account)
    requires AccountsOk(accounts)
    ensures Total(accounts[a.id := a]) == Total(accounts) - Funds(GetOrCreate(accounts, a.id)) + Funds(a)
  {
    SumUpdate(accounts, a.id, a, Funds);
    NewIsEmpty(a.id);
  }

  lemma BatchAccounts(accounts: AccountMap, specs: seq<BalanceSpec>, i: nat)
    requires AccountsOk(accounts) && IncreaseEach(accounts, specs).Ok? && i < |specs|
    ensures var ups := IncreaseEach(accounts, specs).value;
            && |ups| == |specs|
            && ups[i].account.id == specs[i].account && WellFormed(ups[i].account)
            && Funds(ups[i].account) == Funds(GetOrCreate(accounts, specs[i].account)) + Worth(specs[i].amount)
            && ups[i].change.accountId == specs[i].account
            && WithinLimit(ups[i].account)
  {
    IncreaseEachAt(accounts, specs);
    GetOrCreateOk(accounts, specs[i].account);
    IncreaseFunds(GetOrCreate(accounts, specs[i].account), specs[i].amount);
  }

  /** A batch leaves each account at its old funds plus the amount of its last spec. */
  lemma {:induction false} BatchFunds(accounts: AccountMap, specs: seq<BalanceSpec>, k: nat, id: Id)
    requires AccountsOk(accounts) && IncreaseEach(accounts, specs).Ok? && k <= |specs|
    ensures var m := WriteAll(accounts, AccountsOf(IncreaseEach(accounts, specs).value)[..k]);
            Funds(GetOrCreate(m, id)) == Funds(GetOrCreate(accounts, id)) + LastAmount(specs[..k], id)
  {
    hide IncreaseEach, Funds, WellFormed, WithinLimit, New;
    if k > 0 {
      var writes := AccountsOf(IncreaseEach(accounts, specs).value);
      BatchAccounts(accounts, specs, k - 1);
      BatchFunds(accounts, specs, k - 1, id);
      assert writes[..k][..k - 1] == writes[..k - 1];
      assert specs[..k][..k - 1] == specs[..k - 1];
    }
  }

  lemma {:induction false} BatchTotal(accounts: AccountMap, specs: seq<BalanceSpec>, k: nat)
    requires AccountsOk(accounts) && IncreaseEach(accounts, specs).Ok? && k <= |specs|
    ensures var m := WriteAll(accounts, AccountsOf(IncreaseEach(accounts, specs).value)[..k]);
            AccountsOk(m) && Total(m) == Total(accounts) + SpecSum(specs[..k]) - Overwritten(specs[..k])
  {
    hide IncreaseEach, Funds, WellFormed, WithinLimit, New, Total;
    if k > 0 {
      var writes := AccountsOf(IncreaseEach(accounts, specs).value);
      BatchAccounts(accounts, specs, k - 1);
      BatchTotal(accounts, specs, k - 1);
      assert writes[..k][..k - 1] == writes[..k - 1];
      assert specs[..k][..k - 1] == specs[..k - 1];
      BatchFunds(accounts, specs, k - 1, specs[k - 1].account);
      WriteTotal(WriteAll(accounts, writes[..k - 1]), writes[k - 1]);
    }
  }

  lemma TransferTotal(accounts: AccountMap, amount: Amount, source: Id, dest: Id)
    requires AccountsOk(accounts) && HandleTransfer(accounts, amount, source, dest).Ok?
    ensures Total(WriteAll(accounts, HandleTransfer(accounts, amount, source, dest).value.writes))
            == Total(accounts) + Net(Transfer(amount, source, dest))
  {
    var effect := HandleTransfer(accounts, amount, source, dest).value;
    var dst, src := effect.writes[0], effect.writes[1];
    GetOrCreateOk(accounts, source);
    GetOrCreateOk(accounts, dest);
    IncreaseFunds(GetOrCreate(accounts, dest), amount);
    IncreaseFunds(GetOrCreate(accounts, source), Neg(amount).value);
    hide Sum;
    WriteTwo(accounts, dst, src);
    WriteTotal(accounts, dst);
    WriteTotal(accounts[dst.id := dst], src);
  }

  lemma SingleTotal(accounts: AccountMap, request: Request)
    requires AccountsOk(accounts) && Handle(accounts, request).Ok?
    requires !request.Transfer? && !request.BatchBalanceOperation?
    ensures Total(WriteAll(accounts, Handle(accounts, request).value.writes)) == Total(accounts)
  {
    var writes := Handle(accounts, request).value.writes;
    if request.ReserveFunds? || request.ReleaseFunds? { HoldsBalanceOnly(accounts, request); }
    if request.CreateAccount? { NewIsEmpty(request.account); }
    assert writes == [writes[0]];
    WriteOne(accounts, writes[0]);
    WriteTotal(accounts, writes[0]);
  }

  /** The exact accounting law of one successful request, whatever it is. */
  lemma HandleTotal(accounts: AccountMap, request: Request)
    requires AccountsOk(accounts) && Handle(accounts, request).Ok?
    ensures Total(WriteAll(accounts, Handle(accounts, request).value.writes)) == Total(accounts) + Net(request)
  {
    match request
    case Transfer(amount, source, dest) => TransferTotal(accounts, amount, source, dest);
    case BatchBalanceOperation(specs) =>
      var ups := IncreaseEach(accounts, specs).value;
      BatchTotal(accounts, specs, |specs|);
      IncreaseEachAt(accounts, specs);
      assert AccountsOf(ups)[..|specs|] == AccountsOf(ups) && specs[..|specs|] == specs;
    case _ => SingleTotal(accounts, request);
  }

  // ---------- balance limits ----------

  predicate ChangesBalance(e: Event, id: Id) {
    match e.payload
    case TransferEvent(source, dest) => id == source.accountId || id == dest.accountId
    case BatchBalanceOperationEvent(changes) => exists c <- changes :: c.accountId == id
    case ReserveEvent(_, _) => e.request.ReserveFunds? && e.request.account == id
    case ReleaseEvent(_, _) => e.request.ReleaseFunds? && e.request.account == id
    case _ => false
  }

  predicate ReplacesLimit(e: Event, id: Id) {
    (e.payload.AccountConfigUpdated? || e.payload.AccountCreated? || e.payload.AccountDeleted?)
    && e.payload.account.id == id
  }

  /** A balance operation on `id` succeeded after its limit was last replaced. */
  predicate LimitInForce(history: seq<Event>, id: Id) {
    && history != []
    && var e := history[|history| - 1];
       ChangesBalance(e, id) || (!ReplacesLimit(e, id) && LimitInForce(history[..|history| - 1], id))
  }

  lemma {:induction false} WriteAllAt(accounts: AccountMap, writes: seq<Account>, id: Id)
    ensures var m := WriteAll(accounts, writes);
            && (id in m <==> id in accounts || exists w <- writes :: w.id == id)
            && (id in m ==> if exists w <- writes :: w.id == id then m[id] in writes && m[id].id == id
                            else id in accounts && m[id] == accounts[id])
  {
    if writes != [] {
      var init, w := writes[..|writes| - 1], writes[|writes| - 1];
      WriteAllAt(accounts, init, id);
      assert writes == init + [w];
    }
  }

  /** Every account a balance operation writes ends within its limit. */
  lemma WritesWithinLimit(accounts: AccountMap, request: Request)
    requires AccountsOk(accounts) && Handle(accounts, request).Ok?
    requires request.Transfer? || request.BatchBalanceOperation? || request.ReserveFunds? || request.ReleaseFunds?
    ensures forall w <- Handle(accounts, request).value.writes :: WellFormed(w) && WithinLimit(w)
  {
    EffectWellFormed(accounts, request);
    match request
    case Transfer(amount, source, dest) =>
      GetOrCreateOk(accounts, source);
      GetOrCreateOk(accounts, dest);
    case BatchBalanceOperation(specs) =>
      IncreaseEachAt(accounts, specs);
      forall i | 0 <= i < |specs| ensures WithinLimit(IncreaseEach(accounts, specs).value[i].account) {
        GetOrCreateOk(accounts, specs[i].account);
      }
    case _ => HoldsBalanceOnly(accounts, request);
  }

  /** The event names exactly the accounts that were written. */
  predicate Names(e: Event, id: Id) {
    ChangesBalance(e, id) || ReplacesLimit(e, id)
    || ((e.payload.AccountLocked? || e.payload.AccountUnlocked?) && e.payload.account.id == id)
  }

  lemma BatchIsNamed(accounts: AccountMap, specs: seq<BalanceSpec>, id: Id)
    requires AccountsOk(accounts) && IncreaseEach(accounts, specs).Ok?
    ensures var ups := IncreaseEach(accounts, specs).value;
            (exists w <- AccountsOf(ups) :: w.id == id) <==> (exists c <- ChangesOf(ups) :: c.accountId == id)
  {
    hide IncreaseEach;
    var ups := IncreaseEach(accounts, specs).value;
    IncreaseEachAt(accounts, specs);
    forall i | 0 <= i < |ups| ensures ups[i].account.id == ups[i].change.accountId {
      BatchAccounts(accounts, specs, i);
    }
    SameNames(ups, id);
  }

  lemma SameNames(ups: seq<Increased>, id: Id)
    requires forall i | 0 <= i < |ups| :: ups[i].account.id == ups[i].change.accountId
    ensures (exists w <- AccountsOf(ups) :: w.id == id) <==> (exists c <- ChangesOf(ups) :: c.accountId == id)
  {
    var writes, changes := AccountsOf(ups), ChangesOf(ups);
    assert forall i | 0 <= i < |ups| :: writes[i].id == changes[i].accountId;
    if w :| w in writes && w.id == id { var i :| 0 <= i < |writes| && writes[i] == w; assert changes[i] in changes; }
    if c :| c in changes && c.accountId == id {
      var i :| 0 <= i < |changes| && changes[i] == c;
      assert writes[i] in writes;
    }
  }

  lemma TransferWrites(accounts: AccountMap, request: Request)
    requires AccountsOk(accounts) && Handle(accounts, request).Ok? && request.Transfer?
    ensures var effect := Handle(accounts, request).value;
            && |effect.writes| == 2 && effect.writes[0].id == request.dest && effect.writes[1].id == request.source
            && effect.payload.TransferEvent?
            && effect.payload.source.accountId == request.source && effect.payload.dest.accountId == request.dest
  {
    GetOrCreateOk(accounts, request.source);
    GetOrCreateOk(accounts, request.dest);
  }

  lemma SingleWrites(accounts: AccountMap, request: Request)
    requires AccountsOk(accounts) && Handle(accounts, request).Ok?
    requires !request.Transfer? && !request.BatchBalanceOperation?
    ensures var effect := Handle(accounts, request).value;
            && |effect.writes| == 1 && effect.writes[0].id == request.account
            && SameKind(request, effect.payload)
            && (request.ReserveFunds? || request.ReleaseFunds? || effect.payload.account == effect.writes[0])
  {
    if request.ReserveFunds? || request.ReleaseFunds? { HoldsBalanceOnly(accounts, request); }
  }

  lemma WritesAreNamed(accounts: AccountMap, request: Request, header: EventHeader, id: Id)
    requires AccountsOk(accounts) && Handle(accounts, request).Ok?
    ensures var effect := Handle(accounts, request).value;
            (exists w <- effect.writes :: w.id == id) <==> Names(Event(header, request, effect.payload), id)
  {
    hide HandleTransfer, HandleReserve, HandleRelease, HandleCreate, HandleLock, HandleUnlock, HandleDelete,
         HandleUpdateConfig, IncreaseEach, AccountsOf, ChangesOf;
    var writes := Handle(accounts, request).value.writes;
    if request.BatchBalanceOperation? {
      BatchIsNamed(accounts, request.specs, id);
    } else if request.Transfer? {
      TransferWrites(accounts, request);
      hide Handle;
      assert writes[0] in writes && writes[1] in writes;
    } else {
      SingleWrites(accounts, request);
      hide Handle;
      assert writes[0] in writes;
    }
  }

  /** Locking and unlocking change neither the balance nor the limit. */
  lemma LockKeepsBalance(accounts: AccountMap, request: Request)
    requires AccountsOk(accounts) && Handle(accounts, request).Ok?
    requires request.LockAccount? || request.UnlockAccount?
    ensures var effect := Handle(accounts, request).value;
            && request.account in accounts && !accounts[request.account].state.Deleted?
            && |effect.writes| == 1 && effect.writes[0].id == request.account
            && effect.writes[0].balance == accounts[request.account].balance
            && effect.writes[0].config == accounts[request.account].config
  {
  }

  /** Only the balance of a Normal account changes. */
  lemma BalanceNeedsNormal(accounts: AccountMap, request: Request, w: Account)
    requires AccountsOk(accounts) && Handle(accounts, request).Ok? && w in Handle(accounts, request).value.writes
    ensures w.id in accounts && accounts[w.id].balance != w.balance ==> accounts[w.id].state.Normal?
  {
    hide HandleTransfer, HandleBatch;
    match request
    case Transfer(_, _, _) => TransferNeedsNormal(accounts, request, w);
    case BatchBalanceOperation(specs) => BatchNeedsNormal(accounts, specs, w);
    case ReserveFunds(_, _, _) => HoldsBalanceOnly(accounts, request);
    case ReleaseFunds(_, _, _) => HoldsBalanceOnly(accounts, request);
    case _ =>
  }

  lemma TransferNeedsNormal(accounts: AccountMap, request: Request, w: Account)
    requires AccountsOk(accounts) && request.Transfer?
    requires Handle(accounts, request).Ok? && w in Handle(accounts, request).value.writes
    ensures w.id in accounts ==> accounts[w.id].state.Normal?
  {
    GetOrCreateOk(accounts, request.source);
    GetOrCreateOk(accounts, request.dest);
  }

  lemma BatchNeedsNormal(accounts: AccountMap, specs: seq<BalanceSpec>, w: Account)
    requires AccountsOk(accounts) && HandleBatch(accounts, specs).Ok?
    requires w in HandleBatch(accounts, specs).value.writes
    ensures w.id in accounts ==> accounts[w.id].state.Normal?
  {
    hide IncreaseEach;
    IncreaseEachAt(accounts, specs);
    var ups := IncreaseEach(accounts, specs).value;
    var i :| 0 <= i < |ups| && AccountsOf(ups)[i] == w;
    GetOrCreateOk(accounts, specs[i].account);
  }

  // ---------- whole histories ----------

  /** At the end of `history` the money adds up and every limit in force is respected. */
  ghost predicate Balanced(history: seq<Event>) {
    && Total(Fold(history)) == NetOf(history)
    && forall id <- Fold(history) ::
         && WellFormed(Fold(history)[id])
         && (LimitInForce(history, id) ==> WithinLimit(Fold(history)[id]))
  }

  ghost predicate AlwaysBalanced(history: seq<Event>) {
    forall k | 0 <= k <= |history| :: Balanced(history[..k])
  }

  /** The kind of the event is that of its request. */
  lemma PayloadKind(accounts: AccountMap, request: Request)
    requires Handle(accounts, request).Ok?
    ensures SameKind(request, Handle(accounts, request).value.payload)
  {
  }

  lemma LimitStep(accounts: AccountMap, history: seq<Event>, e: Event, id: Id)
    requires AccountsOk(accounts) && Live(accounts) == Fold(history) && Balanced(history)
    requires Handle(accounts, e.request).Ok? && e.payload == Handle(accounts, e.request).value.payload
    requires id in Live(WriteAll(accounts, Handle(accounts, e.request).value.writes))
    requires LimitInForce(history + [e], id)
    ensures var m := WriteAll(accounts, Handle(accounts, e.request).value.writes);
            m[id].balance.available.Number? && WithinLimit(m[id])
  {
    PayloadKind(accounts, e.request);
    var effect := Handle(accounts, e.request).value;
    WritesAreNamed(accounts, e.request, e.header, id);
    if ChangesBalance(e, id) { WritesWithinLimit(accounts, e.request); }
    if e.payload.AccountLocked? || e.payload.AccountUnlocked? { LockKeepsBalance(accounts, e.request); }
    hide Handle;
    hide WriteAll;
    assert e == Event(e.header, e.request, effect.payload);
    assert (history + [e])[..|history|] == history;
    WriteAllAt(accounts, effect.writes, id);
    var m := WriteAll(accounts, effect.writes);
    if !ChangesBalance(e, id) {
      assert id in Live(accounts);
      assert id in Fold(history);
    }
  }

  lemma BalancedStep(accounts: AccountMap, history: seq<Event>, e: Event)
    requires AccountsOk(accounts) && Live(accounts) == Fold(history) && Balanced(history)
    requires Handle(accounts, e.request).Ok? && e.payload == Handle(accounts, e.request).value.payload
    ensures Balanced(history + [e])
  {
    var effect := Handle(accounts, e.request).value;
    var m := WriteAll(accounts, effect.writes);
    EffectWellFormed(accounts, e.request);
    WriteAllOk(accounts, effect.writes);
    HandleFolds(accounts, e.request, e.header);
    HandleTotal(accounts, e.request);
    TombstonesAreEmpty(accounts);
    TombstonesAreEmpty(m);
    var history' := history + [e];
    assert history'[..|history'| - 1] == history;
    assert e == Event(e.header, e.request, effect.payload);
    forall id | id in Fold(history')
      ensures WellFormed(Fold(history')[id])
      ensures LimitInForce(history', id) ==> WithinLimit(Fold(history')[id])
    {
      if LimitInForce(history', id) { LimitStep(accounts, history, e, id); }
    }
  }

  /** Every command keeps the books balanced, limits included, after every prefix of the history. */
  lemma RunBalanced(s: State, first: nat, position: Position, cmd: Command)
    requires Sound(s) && AlwaysBalanced(s.history)
    ensures AlwaysBalanced(Run(s, first, position, cmd).0.history)
  {
    hide Handle, Balanced;
    assert s.history[..|s.history|] == s.history;
    if Lookup(s.history, first, cmd.id).None? && Handle(s.accounts, cmd.request).Ok? {
      var h := Run(s, first, position, cmd).0.history;
      var e := h[|s.history|];
      BalancedStep(s.accounts, s.history, e);
      assert h[..|h|] == h == s.history + [e];
      assert forall k | 0 <= k <= |s.history| :: h[..k] == s.history[..k];
    }
  }

  // ---------- conservation as the service promises it ----------

  predicate DistinctAccounts(specs: seq<BalanceSpec>) {
    forall i, j | 0 <= i < j < |specs| :: specs[i].account != specs[j].account
  }

  predicate Conserving(request: Request) {
    match request
    case Transfer(_, source, dest) => source != dest
    case BatchBalanceOperation(specs) => DistinctAccounts(specs)
    case _ => true
  }

  /** What accepted batches brought in. */
  ghost function Deposits(history: seq<Event>): real {
    if history == [] then 0.0
    else Deposits(history[..|history| - 1])
         + (var r := history[|history| - 1].request; if r.BatchBalanceOperation? then SpecSum(r.specs) else 0.0)
  }

  lemma {:induction false} LastAmountAbsent(specs: seq<BalanceSpec>, id: Id)
    requires forall i | 0 <= i < |specs| :: specs[i].account != id
    ensures LastAmount(specs, id) == 0.0
  {
    if specs != [] { LastAmountAbsent(specs[..|specs| - 1], id); }
  }

  lemma {:induction false} DistinctOverwritesNothing(specs: seq<BalanceSpec>)
    requires DistinctAccounts(specs)
    ensures Overwritten(specs) == 0.0
  {
    if specs != [] {
      DistinctOverwritesNothing(specs[..|specs| - 1]);
      LastAmountAbsent(specs[..|specs| - 1], specs[|specs| - 1].account);
    }
  }

  /** If no transfer goes to its own source and every batch names distinct accounts, the money in
      the wallet is exactly what batches deposited. */
  lemma {:induction false} ConservingHistory(history: seq<Event>)
    requires forall i | 0 <= i < |history| :: Conserving(history[i].request)
    ensures NetOf(history) == Deposits(history)
  {
    if history != [] {
      ConservingHistory(history[..|history| - 1]);
      var r := history[|history| - 1].request;
      if r.BatchBalanceOperation? { DistinctOverwritesNothing(r.specs); }
    }
  }

  /** One successful request conserves money exactly when a transfer to oneself moves nothing and
      the overwritten specs of a batch cancel out. */
  lemma ConservesExactlyWhen(accounts: AccountMap, request: Request)
    requires AccountsOk(accounts) && Handle(accounts, request).Ok?
    ensures
      Total(WriteAll(accounts, Handle(accounts, request).value.writes))
        == Total(accounts) + (if request.BatchBalanceOperation? then SpecSum(request.specs) else 0.0)
      <==>
      match request
      case Transfer(amount, source, dest) => source != dest || Worth(amount) == 0.0
      case BatchBalanceOperation(specs) => Overwritten(specs) == 0.0
      case _ => true
  {
    HandleTotal(accounts, request);
  }

  /** A transfer of 5 from a fresh account to itself is accepted and loses the 5. */
  lemma SelfTransferLosesMoney(id: Id)
    ensures Handle(map[], Transfer(Number(5, 0), id, id)).Ok?
    ensures Total(WriteAll(map[], Handle(map[], Transfer(Number(5, 0), id, id)).value.writes)) == -5.0
  {
    HandleTotal(map[], Transfer(Number(5, 0), id, id));
  }

  /** A batch of 5 and 7 for the same fresh account is accepted and leaves it at 7. */
  lemma RepeatedSpecIsLost(id: Id)
    ensures var specs := [BalanceSpec(id, Number(5, 0)), BalanceSpec(id, Number(7, 0))];
            && Handle(map[], BatchBalanceOperation(specs)).Ok?
            && Total(WriteAll(map[], Handle(map[], BatchBalanceOperation(specs)).value.writes)) == 7.0
  {
    var five, seven := BalanceSpec(id, Number(5, 0)), BalanceSpec(id, Number(7, 0));
    var specs := [five, seven];
    assert specs[..1] == [five] && [five][..0] == [];
    assert IncreaseEach(map[], [five]).Ok?;
    assert IncreaseEach(map[], specs).Ok?;
    HandleTotal(map[], BatchBalanceOperation(specs));
    assert SpecSum([five]) == 5.0 && LastAmount([five], id) == 5.0 && Overwritten([five]) == 0.0;
  }
}
