/** Commands, events and the reference semantics of the wallet: accounts in memory plus the full
    event history, with no write batch, no caches and no database. */
module Ledger {
  import opened WalletTypes
  import opened Decimals
  import opened Accounts

  // ---------- commands and events ----------

  datatype BalanceSpec = BalanceSpec(account: Id, amount: Amount)

  datatype Request =
    | Transfer(amount: Amount, source: Id, dest: Id)
    | BatchBalanceOperation(specs: seq<BalanceSpec>)
    | ReserveFunds(account: Id, reservation: Id, amount: Amount)
    | ReleaseFunds(account: Id, reservation: Id, amount: Amount)
    | CreateAccount(account: Id)
    | LockAccount(account: Id)
    | UnlockAccount(account: Id)
    | DeleteAccount(account: Id)
    | UpdateAccountConfig(account: Id, limit: BalanceLimit)

  datatype Command = Command(id: Id, time: nat, request: Request)

  datatype Position = Position(logIndex: nat, offset: nat)

  datatype EventHeader = EventHeader(seqNum: nat, position: Position, commandId: Id, time: nat)

  datatype Payload =
    | TransferEvent(source: BalanceChange, dest: BalanceChange)
    | BatchBalanceOperationEvent(changes: seq<BalanceChange>)
    | ReserveEvent(prev: Balance, curr: Balance)
    | ReleaseEvent(prev: Balance, curr: Balance)
    | AccountCreated(account: Account)
    | AccountLocked(account: Account)
    | AccountUnlocked(account: Account)
    | AccountDeleted(account: Account)
    | AccountConfigUpdated(account: Account)

  /** The response header inside a payload repeats `seqNum` and `position`; it is kept once. */
  datatype Event = Event(header: EventHeader, request: Request, payload: Payload)

  type Response = Result<Event>

  predicate SameKind(r: Request, p: Payload) {
    match (r, p)
    case (Transfer(_, _, _), TransferEvent(_, _)) => true
    case (BatchBalanceOperation(_), BatchBalanceOperationEvent(_)) => true
    case (ReserveFunds(_, _, _), ReserveEvent(_, _)) => true
    case (ReleaseFunds(_, _, _), ReleaseEvent(_, _)) => true
    case (CreateAccount(_), AccountCreated(_)) => true
    case (LockAccount(_), AccountLocked(_)) => true
    case (UnlockAccount(_), AccountUnlocked(_)) => true
    case (DeleteAccount(_), AccountDeleted(_)) => true
    case (UpdateAccountConfig(_, _), AccountConfigUpdated(_)) => true
    case _ => false
  }

  /** The answer to a duplicate: the recorded event, unless it is of another type. */
  function MatchEvent(cmd: Command, event: Event): Response {
    if SameKind(cmd.request, event.payload) then Ok(event) else Err(ConflictDedupId(cmd.id))
  }

  // ---------- handling a fresh request ----------

  /** The accounts to write, in order, and the payload of the event. `isDelete` marks the one
      write that removes the record from the store. */
  datatype Effect = Effect(writes: seq<Account>, isDelete: bool, payload: Payload)

  type AccountMap = map<Id, Account>

  function GetOrCreate(accounts: AccountMap, id: Id): Account {
    if id in accounts then accounts[id] else New(id)
  }

  function MustExist(accounts: AccountMap, id: Id): Result<Account> {
    if id in accounts then Ok(accounts[id]) else Err(AccountNotExist(id))
  }

  function HandleTransfer(accounts: AccountMap, amount: Amount, source: Id, dest: Id): Result<Effect> {
    var src, dst := GetOrCreate(accounts, source), GetOrCreate(accounts, dest);
    var _ :- CheckAssetClass(src, dst);
    var newDst :- IncreaseBalanceBy(dst, amount);
    var neg :- Neg(amount);
    var newSrc :- IncreaseBalanceBy(src, neg);
    Ok(Effect([newDst.account, newSrc.account], false, TransferEvent(newSrc.change, newDst.change)))
  }

  /** Every spec is computed against the accounts as they were before the batch. */
  function IncreaseEach(accounts: AccountMap, specs: seq<BalanceSpec>): (r: Result<seq<Increased>>)
    ensures r.Ok? ==> |r.value| == |specs|
  {
    if specs == [] then Ok([])
    else
      var init :- IncreaseEach(accounts, specs[..|specs| - 1]);
      var spec := specs[|specs| - 1];
      var up :- IncreaseBalanceBy(GetOrCreate(accounts, spec.account), spec.amount);
      Ok(init + [up])
  }

  function AccountsOf(ups: seq<Increased>): seq<Account> { seq(|ups|, i requires 0 <= i < |ups| => ups[i].account) }

  function ChangesOf(ups: seq<Increased>): seq<BalanceChange> { seq(|ups|, i requires 0 <= i < |ups| => ups[i].change) }

  function HandleBatch(accounts: AccountMap, specs: seq<BalanceSpec>): Result<Effect> {
    var ups :- IncreaseEach(accounts, specs);
    Ok(Effect(AccountsOf(ups), false, BatchBalanceOperationEvent(ChangesOf(ups))))
  }

  function HandleReserve(accounts: AccountMap, account: Id, reservation: Id, amount: Amount): Result<Effect> {
    var prev :- MustExist(accounts, account);
    var curr :- Reserve(prev, reservation, amount);
    Ok(Effect([curr], false, ReserveEvent(prev.balance, curr.balance)))
  }

  /** An empty amount releases the whole reservation. */
  function HandleRelease(accounts: AccountMap, account: Id, reservation: Id, amount: Amount): Result<Effect> {
    var prev :- MustExist(accounts, account);
    var curr :- if amount == Text("") then ReleaseAll(prev, reservation)
                else PartialRelease(prev, reservation, amount);
    Ok(Effect([curr], false, ReleaseEvent(prev.balance, curr.balance)))
  }

  function HandleCreate(accounts: AccountMap, account: Id): Result<Effect> {
    if account in accounts then Err(AccountAlreadyExist(account))
    else Ok(Effect([New(account)], false, AccountCreated(New(account))))
  }

  function HandleLock(accounts: AccountMap, account: Id): Result<Effect> {
    var prev :- MustExist(accounts, account);
    var curr :- Lock(prev);
    Ok(Effect([curr], false, AccountLocked(curr)))
  }

  function HandleUnlock(accounts: AccountMap, account: Id): Result<Effect> {
    var prev :- MustExist(accounts, account);
    var curr :- Unlock(prev);
    Ok(Effect([curr], false, AccountUnlocked(curr)))
  }

  function HandleDelete(accounts: AccountMap, account: Id): Result<Effect> {
    var prev :- MustExist(accounts, account);
    var curr :- Delete(prev);
    Ok(Effect([curr], true, AccountDeleted(curr)))
  }

  /** The account state is not checked here, so a deleted account accepts a new limit. */
  function HandleUpdateConfig(accounts: AccountMap, account: Id, limit: BalanceLimit): Result<Effect> {
    var prev :- MustExist(accounts, account);
    var curr := SetBalanceLimit(prev, limit);
    Ok(Effect([curr], false, AccountConfigUpdated(curr)))
  }

  function Handle(accounts: AccountMap, request: Request): Result<Effect> {
    match request
    case Transfer(amount, source, dest) => HandleTransfer(accounts, amount, source, dest)
    case BatchBalanceOperation(specs) => HandleBatch(accounts, specs)
    case ReserveFunds(account, reservation, amount) => HandleReserve(accounts, account, reservation, amount)
    case ReleaseFunds(account, reservation, amount) => HandleRelease(accounts, account, reservation, amount)
    case CreateAccount(account) => HandleCreate(accounts, account)
    case LockAccount(account) => HandleLock(accounts, account)
    case UnlockAccount(account) => HandleUnlock(accounts, account)
    case DeleteAccount(account) => HandleDelete(accounts, account)
    case UpdateAccountConfig(account, limit) => HandleUpdateConfig(accounts, account, limit)
  }

  /** Writes land in order, so the last one for an account wins. */
  function WriteAll(accounts: AccountMap, writes: seq<Account>): AccountMap {
    if writes == [] then accounts
    else
      var w := writes[|writes| - 1];
      WriteAll(accounts, writes[..|writes| - 1])[w.id := w]
  }

  // ---------- the reference machine ----------

  datatype State = State(accounts: AccountMap, history: seq<Event>)

  const EMPTY: State := State(map[], [])

  /** The sequence number of the retained event of command `id`. Events below `first` have been
      garbage-collected, and their command ids with them. */
  function Lookup(history: seq<Event>, first: nat, id: Id): (r: Option<nat>)
    ensures r.Some? ==> 1 <= r.value <= |history| && first <= r.value
                        && history[r.value - 1].header.commandId == id
    ensures r.None? ==> forall i | 0 <= i < |history| && first <= i + 1 ::
                          history[i].header.commandId != id
  {
    if history == [] || |history| < first then None
    else if history[|history| - 1].header.commandId == id then Some(|history|)
    else
      assert forall i | 0 <= i < |history| - 1 :: history[i] == history[..|history| - 1][i];
      Lookup(history[..|history| - 1], first, id)
  }

  function BuildEvent(seqNum: nat, position: Position, cmd: Command, payload: Payload): Event {
    Event(EventHeader(seqNum, position, cmd.id, cmd.time), cmd.request, payload)
  }

  /** One command: a retained duplicate is answered from the history and changes nothing. */
  function Run(s: State, first: nat, position: Position, cmd: Command): (State, Response) {
    match Lookup(s.history, first, cmd.id)
    case Some(n) => (s, MatchEvent(cmd, s.history[n - 1]))
    case None =>
      match Handle(s.accounts, cmd.request)
      case Err(e) => (s, Err(e))
      case Ok(effect) =>
        var event := BuildEvent(|s.history| + 1, position, cmd, effect.payload);
        (State(WriteAll(s.accounts, effect.writes), s.history + [event]), Ok(event))
  }

  /** The first `k` commands of an entry. */
  function RunPrefix(s: State, first: nat, index: nat, cmds: seq<Command>, k: nat): (State, seq<Response>)
    requires k <= |cmds|
  {
    if k == 0 then (s, [])
    else
      var (s1, out) := RunPrefix(s, first, index, cmds, k - 1);
      var (s2, r) := Run(s1, first, Position(index, k - 1), cmds[k - 1]);
      (s2, out + [r])
  }

  function RunEntry(s: State, first: nat, index: nat, cmds: seq<Command>): (State, seq<Response>) {
    RunPrefix(s, first, index, cmds, |cmds|)
  }

  // ---------- event sourcing ----------

  function Live(accounts: AccountMap): AccountMap {
    map id | id in accounts && !accounts[id].state.Deleted? :: accounts[id]
  }

  function Tombstones(accounts: AccountMap): set<Id> {
    set id | id in accounts && accounts[id].state.Deleted?
  }

  function FoldChange(m: AccountMap, id: Id, balance: Balance): AccountMap {
    m[id := GetOrCreate(m, id).(balance := balance)]
  }

  function FoldChanges(m: AccountMap, changes: seq<BalanceChange>): AccountMap {
    if changes == [] then m
    else
      var c := changes[|changes| - 1];
      FoldChange(FoldChanges(m, changes[..|changes| - 1]), c.accountId, c.curr)
  }

  function FoldAccount(m: AccountMap, a: Account): AccountMap {
    if a.state.Deleted? then m - {a.id} else m[a.id := a]
  }

  /** How a consumer of the event stream updates its view with one event. */
  function FoldEvent(m: AccountMap, e: Event): AccountMap {
    match e.payload
    case TransferEvent(source, dest) =>
      FoldChange(FoldChange(m, dest.accountId, dest.curr), source.accountId, source.curr)
    case BatchBalanceOperationEvent(changes) => FoldChanges(m, changes)
    case ReserveEvent(_, curr) => if e.request.ReserveFunds? then FoldChange(m, e.request.account, curr) else m
    case ReleaseEvent(_, curr) => if e.request.ReleaseFunds? then FoldChange(m, e.request.account, curr) else m
    case AccountCreated(a) => FoldAccount(m, a)
    case AccountLocked(a) => FoldAccount(m, a)
    case AccountUnlocked(a) => FoldAccount(m, a)
    case AccountDeleted(a) => FoldAccount(m, a)
    case AccountConfigUpdated(a) => FoldAccount(m, a)
  }

  function Fold(history: seq<Event>): AccountMap {
    if history == [] then map[]
    else FoldEvent(Fold(history[..|history| - 1]), history[|history| - 1])
  }
}
