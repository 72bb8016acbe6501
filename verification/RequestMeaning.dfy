/** What each of the nine requests means: when it is accepted, what the accounts are afterwards, what
    its event says and why it is refused, all in terms of the accounts before and after. */
module RequestMeaning {
  import opened WalletTypes
  import opened Decimals
  import opened Accounts
  import opened Ledger
  import opened EventSourcing

  // ---------- accounts before a request: an absent one counts as new ----------

  ghost function Available(m: AccountMap, id: Id): real {
    if id in m then Worth(m[id].balance.available) else 0.0
  }

  function Reservations(m: AccountMap, id: Id): map<Id, Amount> {
    if id in m then m[id].balance.reservations else map[]
  }

  ghost predicate MayMove(m: AccountMap, id: Id, v: real) {
    id in m ==>
      && m[id].state.Normal?
      && (m[id].config.limit.None? || Admits(m[id].config.limit.value, Available(m, id) + v))
  }

  /** What a release of `amount`, empty for everything, takes out of a reservation. */
  ghost function Released(reserved: Amount, amount: Amount): real {
    if amount.Number? then Value(amount) else Worth(reserved)
  }

  ghost predicate Accepted(m: AccountMap, request: Request) {
    match request
    case Transfer(amount, source, dest) =>
      amount.Number? && MayMove(m, dest, Value(amount)) && MayMove(m, source, -Value(amount))
    case BatchBalanceOperation(specs) =>
      forall i | 0 <= i < |specs| :: specs[i].amount.Number? && MayMove(m, specs[i].account, Value(specs[i].amount))
    case ReserveFunds(account, reservation, amount) =>
      && account in m && reservation !in Reservations(m, account)
      && amount.Number? && Value(amount) > 0.0 && MayMove(m, account, -Value(amount))
    case ReleaseFunds(account, reservation, amount) =>
      && account in m && reservation in Reservations(m, account)
      && var reserved := Reservations(m, account)[reservation];
         && (amount == Text("") || (amount.Number? && 0.0 < Value(amount) <= Worth(reserved)))
         && MayMove(m, account, Released(reserved, amount))
    case CreateAccount(account) => account !in m
    case LockAccount(account) => account in m && m[account].state.Normal?
    case UnlockAccount(account) => account in m && m[account].state.Locked?
    case DeleteAccount(account) =>
      account in m && m[account].state.Normal? && Reservations(m, account) == map[] && Available(m, account) == 0.0
    case UpdateAccountConfig(account, _) => account in m
  }

  // ---------- accounts after it ----------

  /** Only `ids` are written. */
  ghost predicate OnlyAt(m: AccountMap, m': AccountMap, ids: set<Id>) {
    m'.Keys == m.Keys + ids && forall id | id in m && id !in ids :: m'[id] == m[id]
  }

  /** A balance with `v` more available than account `id` has in `m`. */
  ghost predicate Raised(m: AccountMap, id: Id, b: Balance, v: real) {
    IsNormalized(b.available) && Value(b.available) == Available(m, id) + v
  }

  /** `a` is account `id` of `m` with `v` more available and `reservations`, otherwise the same. */
  ghost predicate Moved(m: AccountMap, id: Id, a: Account, v: real, reservations: map<Id, Amount>) {
    && a.id == id && a.state.Normal?
    && a.config == (if id in m then m[id].config else AccountConfig(None, USD))
    && Raised(m, id, a.balance, v) && a.balance.reservations == reservations
  }

  /** `v` is taken out of a reservation; nothing is left of it exactly if that was all. */
  ghost predicate Lowered(before: map<Id, Amount>, after: map<Id, Amount>, reservation: Id, v: real)
    requires reservation in before
  {
    && after - {reservation} == before - {reservation}
    && (reservation in after <==> v != Worth(before[reservation]))
    && (reservation in after ==>
          IsNormalized(after[reservation]) && Value(after[reservation]) == Worth(before[reservation]) - v)
  }

  ghost function Named(specs: seq<BalanceSpec>): set<Id> { set i | 0 <= i < |specs| :: specs[i].account }

  /** No later spec is for the same account. */
  ghost predicate IsLast(specs: seq<BalanceSpec>, i: nat)
    requires i < |specs|
  {
    forall j | i < j < |specs| :: specs[j].account != specs[i].account
  }

  ghost predicate Changed(m: AccountMap, m': AccountMap, request: Request)
    requires Accepted(m, request)
  {
    match request
    case Transfer(amount, source, dest) =>
      && OnlyAt(m, m', {source, dest})
      && Moved(m, source, m'[source], -Value(amount), Reservations(m, source))
      && (source != dest ==> Moved(m, dest, m'[dest], Value(amount), Reservations(m, dest)))
    case BatchBalanceOperation(specs) =>
      && OnlyAt(m, m', Named(specs))
      && (forall i | 0 <= i < |specs| && IsLast(specs, i) ::
            var id := specs[i].account;
            id in m' && Moved(m, id, m'[id], Value(specs[i].amount), Reservations(m, id)))
    case ReserveFunds(account, reservation, amount) =>
      && OnlyAt(m, m', {account})
      && Moved(m, account, m'[account], -Value(amount), Reservations(m, account)[reservation := amount])
    case ReleaseFunds(account, reservation, amount) =>
      && OnlyAt(m, m', {account})
      && var v := Released(Reservations(m, account)[reservation], amount);
         && Moved(m, account, m'[account], v, Reservations(m', account))
         && Lowered(Reservations(m, account), Reservations(m', account), reservation, v)
    case CreateAccount(account) =>
      && OnlyAt(m, m', {account})
      && m'[account] == Account(account, m'[account].balance, AccountConfig(None, USD), Normal)
      && Available(m', account) == 0.0 && m'[account].balance.available.Number? && Reservations(m', account) == map[]
    case LockAccount(account) => m' == m[account := m[account].(state := Locked)]
    case UnlockAccount(account) => m' == m[account := m[account].(state := Normal)]
    case DeleteAccount(account) => m' == m[account := m[account].(state := Deleted)]
    case UpdateAccountConfig(account, limit) =>
      m' == m[account := m[account].(config := AccountConfig(Some(limit), m[account].config.assetClass))]
  }

  // ---------- the event ----------

  /** The balance before, and with `v` more available. */
  ghost predicate Tells(m: AccountMap, id: Id, c: BalanceChange, v: real) {
    && c.accountId == id
    && (if id in m then c.prev == m[id].balance
        else c.prev.available.Number? && Value(c.prev.available) == 0.0 && c.prev.reservations == map[])
    && Raised(m, id, c.curr, v) && c.curr.reservations == Reservations(m, id)
  }

  ghost predicate Says(m: AccountMap, m': AccountMap, request: Request, payload: Payload)
    requires Accepted(m, request) && Changed(m, m', request)
  {
    match request
    case Transfer(amount, source, dest) =>
      && payload.TransferEvent?
      && Tells(m, source, payload.source, -Value(amount)) && payload.source.curr == m'[source].balance
      && Tells(m, dest, payload.dest, Value(amount)) && (source != dest ==> payload.dest.curr == m'[dest].balance)
    case BatchBalanceOperation(specs) =>
      && payload.BatchBalanceOperationEvent? && |payload.changes| == |specs|
      && (forall i | 0 <= i < |specs| ::
            && Tells(m, specs[i].account, payload.changes[i], Value(specs[i].amount))
            && (IsLast(specs, i) ==> payload.changes[i].curr == m'[specs[i].account].balance))
    case ReserveFunds(account, _, _) => payload == ReserveEvent(m[account].balance, m'[account].balance)
    case ReleaseFunds(account, _, _) => payload == ReleaseEvent(m[account].balance, m'[account].balance)
    case CreateAccount(account) => payload == AccountCreated(m'[account])
    case LockAccount(account) => payload == AccountLocked(m'[account])
    case UnlockAccount(account) => payload == AccountUnlocked(m'[account])
    case DeleteAccount(account) => payload == AccountDeleted(m'[account])
    case UpdateAccountConfig(account, _) => payload == AccountConfigUpdated(m'[account])
  }

  /** `m'` and `payload` are what an accepted request leads to. */
  ghost predicate Means(m: AccountMap, m': AccountMap, request: Request, payload: Payload) {
    Accepted(m, request) && Changed(m, m', request) && Says(m, m', request, payload)
  }

  // ---------- balance operations ----------

  lemma IncreaseMeans(m: AccountMap, id: Id, amount: Amount)
    requires AccountsOk(m)
    ensures var r := IncreaseBalanceBy(GetOrCreate(m, id), amount);
            && (r.Ok? <==> amount.Number? && MayMove(m, id, Value(amount)))
            && (r.Ok? ==>
                  && Moved(m, id, r.value.account, Value(amount), Reservations(m, id))
                  && Tells(m, id, r.value.change, Value(amount)) && r.value.change.curr == r.value.account.balance)
  {
    NewIsEmpty(id);
    ZeroShift(1);
  }

  lemma TransferMeans(m: AccountMap, amount: Amount, source: Id, dest: Id)
    requires AccountsOk(m)
    ensures var request := Transfer(amount, source, dest);
            var h := HandleTransfer(m, amount, source, dest);
            && (h.Ok? <==> Accepted(m, request))
            && (h.Ok? ==> Means(m, WriteAll(m, h.value.writes), request, h.value.payload))
  {
    hide IncreaseBalanceBy, Moved, Tells, MayMove, WriteAll, AccountsOk, CheckAssetClass, GetOrCreate, Value, OnlyAt;
    IncreaseMeans(m, dest, amount);
    SameAssets(m, source, dest);
    if amount.Number? {
      IncreaseMeans(m, source, Neg(amount).value);
      var h := HandleTransfer(m, amount, source, dest);
      if h.Ok? {
        var dst, src := h.value.writes[0], h.value.writes[1];
        MovedIds(m, dest, dst, Value(amount), Reservations(m, dest));
        MovedIds(m, source, src, -Value(amount), Reservations(m, source));
        WriteTwo(m, dst, src);
        WrittenTwo(m, dst, src);
      }
    }
  }

  lemma SameAssets(m: AccountMap, a: Id, b: Id)
    requires AccountsOk(m)
    ensures CheckAssetClass(GetOrCreate(m, a), GetOrCreate(m, b)) == Ok(())
  {
    NewIsEmpty(a);
  }

  lemma WrittenTwo(m: AccountMap, a: Account, b: Account)
    ensures var m' := m[a.id := a][b.id := b];
            OnlyAt(m, m', {b.id, a.id}) && m'[b.id] == b && (a.id != b.id ==> m'[a.id] == a)
  {
  }

  lemma MovedIds(m: AccountMap, id: Id, a: Account, v: real, reservations: map<Id, Amount>)
    requires Moved(m, id, a, v, reservations)
    ensures a.id == id
  {
  }

  // ---------- batches ----------

  lemma {:induction false} BatchAccepted(m: AccountMap, specs: seq<BalanceSpec>)
    requires AccountsOk(m)
    ensures IncreaseEach(m, specs).Ok? <==> Accepted(m, BatchBalanceOperation(specs))
  {
    hide IncreaseBalanceBy, MayMove;
    if specs != [] {
      var n := |specs| - 1;
      BatchAccepted(m, specs[..n]);
      IncreaseMeans(m, specs[n].account, specs[n].amount);
      assert forall i | 0 <= i < n :: specs[..n][i] == specs[i];
    }
  }

  /** The last write for an account stays; accounts without a write keep their value. */
  lemma {:induction false} LastWriteStays(m: AccountMap, writes: seq<Account>, i: nat)
    requires i < |writes| && forall j | i < j < |writes| :: writes[j].id != writes[i].id
    ensures writes[i].id in WriteAll(m, writes) && WriteAll(m, writes)[writes[i].id] == writes[i]
  {
    var n := |writes| - 1;
    if i < n { LastWriteStays(m, writes[..n], i); }
  }

  lemma {:induction false} WritesOnlyAt(m: AccountMap, writes: seq<Account>, specs: seq<BalanceSpec>)
    requires |writes| == |specs| && forall i | 0 <= i < |specs| :: writes[i].id == specs[i].account
    ensures OnlyAt(m, WriteAll(m, writes), Named(specs))
  {
    if specs != [] {
      var n := |specs| - 1;
      WritesOnlyAt(m, writes[..n], specs[..n]);
      assert Named(specs) == Named(specs[..n]) + {specs[n].account};
    } else {
      assert Named(specs) == {};
    }
  }

  lemma BatchMeans(m: AccountMap, specs: seq<BalanceSpec>)
    requires AccountsOk(m)
    ensures var request := BatchBalanceOperation(specs);
            var h := HandleBatch(m, specs);
            && (h.Ok? <==> Accepted(m, request))
            && (h.Ok? ==> Means(m, WriteAll(m, h.value.writes), request, h.value.payload))
  {
    hide IncreaseBalanceBy, IncreaseEach, Moved, Tells, MayMove, WriteAll, OnlyAt;
    BatchAccepted(m, specs);
    if IncreaseEach(m, specs).Ok? {
      var ups := IncreaseEach(m, specs).value;
      IncreaseEachAt(m, specs);
      var writes := AccountsOf(ups);
      var m' := WriteAll(m, writes);
      forall i | 0 <= i < |specs|
        ensures writes[i].id == specs[i].account
        ensures Moved(m, specs[i].account, writes[i], Value(specs[i].amount), Reservations(m, specs[i].account))
        ensures Tells(m, specs[i].account, ChangesOf(ups)[i], Value(specs[i].amount))
        ensures ChangesOf(ups)[i].curr == writes[i].balance
      {
        IncreaseMeans(m, specs[i].account, specs[i].amount);
        MovedIds(m, specs[i].account, writes[i], Value(specs[i].amount), Reservations(m, specs[i].account));
      }
      WritesOnlyAt(m, writes, specs);
      forall i | 0 <= i < |specs| && IsLast(specs, i)
        ensures specs[i].account in m' && m'[specs[i].account] == writes[i]
      {
        LastWriteStays(m, writes, i);
      }
    }
  }

  // ---------- reservations ----------

  lemma ReserveMeans(m: AccountMap, account: Id, reservation: Id, amount: Amount)
    requires AccountsOk(m)
    ensures var request := ReserveFunds(account, reservation, amount);
            var h := HandleReserve(m, account, reservation, amount);
            && (h.Ok? <==> Accepted(m, request))
            && (h.Ok? ==> Means(m, WriteAll(m, h.value.writes), request, h.value.payload))
  {
    hide IncreaseBalanceBy, WriteAll;
    if amount.Number? { IncreaseMeans(m, account, Neg(amount).value); }
    var h := HandleReserve(m, account, reservation, amount);
    if h.Ok? { WriteOne(m, h.value.writes[0]); }
  }

  lemma ReleaseAllMeans(m: AccountMap, account: Id, reservation: Id)
    requires AccountsOk(m) && account in m
    ensures var r, held := ReleaseAll(m[account], reservation), Reservations(m, account);
            && (r.Ok? <==> reservation in held && MayMove(m, account, Worth(held[reservation])))
            && (r.Ok? ==> Moved(m, account, r.value, Worth(held[reservation]), held - {reservation}))
  {
    hide IncreaseBalanceBy;
    var held := Reservations(m, account);
    if reservation in held { IncreaseMeans(m, account, held[reservation]); }
  }

  lemma PartialReleaseMeans(m: AccountMap, account: Id, reservation: Id, amount: Amount)
    requires AccountsOk(m) && account in m
    ensures var r, held := PartialRelease(m[account], reservation, amount), Reservations(m, account);
            && (r.Ok? <==>
                  && reservation in held && amount.Number? && 0.0 < Value(amount) <= Worth(held[reservation])
                  && MayMove(m, account, Value(amount)))
            && (r.Ok? ==>
                  && Moved(m, account, r.value, Value(amount), r.value.balance.reservations)
                  && Lowered(held, r.value.balance.reservations, reservation, Value(amount)))
  {
    hide IncreaseBalanceBy, ReleaseAll;
    ReleaseAllMeans(m, account, reservation);
    IncreaseMeans(m, account, amount);
    var held := Reservations(m, account);
    if reservation in held && amount.Number? {
      assert Value(held[reservation]) == Worth(held[reservation]);
      var rest := Add(held[reservation], Neg(amount).value);
      assert held[reservation := rest.value] - {reservation} == held - {reservation};
      assert held - {reservation} - {reservation} == held - {reservation};
    }
  }

  lemma ReleaseMeans(m: AccountMap, account: Id, reservation: Id, amount: Amount)
    requires AccountsOk(m)
    ensures var request := ReleaseFunds(account, reservation, amount);
            var h := HandleRelease(m, account, reservation, amount);
            && (h.Ok? <==> Accepted(m, request))
            && (h.Ok? ==> Means(m, WriteAll(m, h.value.writes), request, h.value.payload))
  {
    hide ReleaseAll, PartialRelease, WriteAll, MayMove;
    if account in m {
      var held := Reservations(m, account);
      ReleaseAllMeans(m, account, reservation);
      PartialReleaseMeans(m, account, reservation, amount);
      assert held - {reservation} - {reservation} == held - {reservation};
    }
    var h := HandleRelease(m, account, reservation, amount);
    if h.Ok? { WriteOne(m, h.value.writes[0]); }
  }

  // ---------- account management ----------

  lemma ManagementMeans(m: AccountMap, request: Request)
    requires AccountsOk(m)
    requires request.CreateAccount? || request.LockAccount? || request.UnlockAccount?
          || request.DeleteAccount? || request.UpdateAccountConfig?
    ensures var h := Handle(m, request);
            && (h.Ok? <==> Accepted(m, request))
            && (h.Ok? ==> Means(m, WriteAll(m, h.value.writes), request, h.value.payload))
  {
    hide WriteAll, Value, Lock, Unlock, Delete;
    var h := Handle(m, request);
    if h.Ok? { WriteOne(m, h.value.writes[0]); }
    if request.CreateAccount? {
      NewIsEmpty(request.account);
      NewHasNothing(request.account);
    } else if request.account in m {
      Transitions(m[request.account]);
    }
  }

  lemma NewHasNothing(id: Id)
    ensures New(id) == Account(id, New(id).balance, AccountConfig(None, USD), Normal)
    ensures New(id).balance.available.Number? && Value(New(id).balance.available) == 0.0
    ensures New(id).balance.reservations == map[]
  {
    ZeroShift(1);
  }

  // ---------- every request ----------

  /** A request is accepted exactly as its meaning says, and then the accounts and the event are what
      it means; only a deletion takes a record out of the store. */
  lemma RequestExactly(m: AccountMap, request: Request)
    requires AccountsOk(m)
    ensures var h := Handle(m, request);
            && (h.Ok? <==> Accepted(m, request))
            && (h.Ok? ==>
                  && Means(m, WriteAll(m, h.value.writes), request, h.value.payload)
                  && (h.value.isDelete <==> request.DeleteAccount?))
  {
    hide Accepted, Means, WriteAll, IncreaseBalanceBy, IncreaseEach, Reserve, ReleaseAll, PartialRelease;
    match request
    case Transfer(amount, source, dest) => TransferMeans(m, amount, source, dest);
    case BatchBalanceOperation(specs) => BatchMeans(m, specs);
    case ReserveFunds(account, reservation, amount) => ReserveMeans(m, account, reservation, amount);
    case ReleaseFunds(account, reservation, amount) => ReleaseMeans(m, account, reservation, amount);
    case _ => ManagementMeans(m, request);
  }

  // ---------- refusals ----------

  /** Balance operations on account `id`. */
  ghost predicate Touches(request: Request, id: Id) {
    match request
    case Transfer(_, source, dest) => id == source || id == dest
    case BatchBalanceOperation(specs) => exists i | 0 <= i < |specs| :: specs[i].account == id
    case ReserveFunds(account, _, _) => id == account
    case ReleaseFunds(account, _, _) => id == account
    case _ => false
  }

  /** The request would change the available amount of `id` by `v`. */
  ghost predicate Moves(m: AccountMap, request: Request, id: Id, v: real) {
    match request
    case Transfer(amount, source, dest) =>
      amount.Number? && ((id == dest && v == Value(amount)) || (id == source && v == -Value(amount)))
    case BatchBalanceOperation(specs) =>
      exists i | 0 <= i < |specs| :: specs[i].account == id && specs[i].amount.Number? && v == Value(specs[i].amount)
    case ReserveFunds(account, _, amount) => id == account && amount.Number? && v == -Value(amount)
    case ReleaseFunds(account, reservation, amount) =>
      id == account && reservation in Reservations(m, id) && v == Released(Reservations(m, id)[reservation], amount)
    case _ => false
  }

  ghost predicate HasAmount(request: Request, x: Amount) {
    match request
    case Transfer(amount, _, _) => x == amount
    case BatchBalanceOperation(specs) => exists i | 0 <= i < |specs| :: specs[i].amount == x
    case ReserveFunds(_, _, amount) => x == amount
    case ReleaseFunds(_, _, amount) => x == amount
    case _ => false
  }

  /** Account `id` is in a state that allows no balance operation. */
  ghost predicate Closed(m: AccountMap, request: Request, id: Id, s: AccountState) {
    Touches(request, id) && id in m && m[id].state == s && !s.Normal?
  }

  ghost predicate LimitBroken(m: AccountMap, request: Request, id: Id, v: real, l: BalanceLimit) {
    && Moves(m, request, id, v) && id in m && m[id].config.limit == Some(l)
    && l.upper.Number? && l.lower.Number? && !Admits(l, Available(m, id) + v)
  }

  ghost predicate LimitUnreadable(m: AccountMap, request: Request, id: Id, x: Amount) {
    && Touches(request, id) && id in m && m[id].config.limit.Some?
    && (x == m[id].config.limit.value.upper || x == m[id].config.limit.value.lower)
  }

  /** The error names something that is so and that the request does not allow. */
  ghost predicate Justified(m: AccountMap, request: Request, e: Error) {
    match e
    case AccountNotExist(id) =>
      && !request.Transfer? && !request.BatchBalanceOperation? && !request.CreateAccount?
      && id == request.account && id !in m
    case AccountAlreadyExist(id) => request == CreateAccount(id) && id in m
    case InvalidStateTransition(s, t) =>
      && (request.LockAccount? || request.UnlockAccount? || request.DeleteAccount?)
      && request.account in m && s == m[request.account].state
      && t == (if request.LockAccount? then Locked else if request.UnlockAccount? then Normal else Deleted)
      && s != (if request.UnlockAccount? then Locked else Normal)
    case BalanceIsNotZero(b) =>
      && request.DeleteAccount? && request.account in m && b == m[request.account].balance
      && (Reservations(m, request.account) != map[] || Available(m, request.account) != 0.0)
    case InvalidAccountState(s) => exists id :: Closed(m, request, id, s)
    case ParseError(x) => !x.Number? && (HasAmount(request, x) || exists id :: LimitUnreadable(m, request, id, x))
    case BalanceLimitExceeded(l) => exists id, v :: LimitBroken(m, request, id, v, l)
    case ReservationIdAlreadyExist(r) =>
      request.ReserveFunds? && r == request.reservation && r in Reservations(m, request.account)
    case ReservationIdNotFound(r) =>
      request.ReleaseFunds? && r == request.reservation && r !in Reservations(m, request.account)
    case InvalidAmount(x) =>
      && (request.ReserveFunds? || request.ReleaseFunds?) && x == request.amount && x.Number?
      && (Value(x) <= 0.0
          || (request.ReleaseFunds? && request.reservation in Reservations(m, request.account)
              && Value(x) > Worth(Reservations(m, request.account)[request.reservation])))
    case _ => false
  }

  /** Why a balance does not change by `amount`. */
  lemma IncreaseRefused(m: AccountMap, request: Request, id: Id, amount: Amount)
    requires AccountsOk(m) && IncreaseBalanceBy(GetOrCreate(m, id), amount).Err?
    requires Touches(request, id) && (amount.Number? ==> Moves(m, request, id, Value(amount)))
    ensures var e := IncreaseBalanceBy(GetOrCreate(m, id), amount).error;
            Justified(m, request, e) || e == ParseError(amount)
  {
    NewIsEmpty(id);
    ZeroShift(1);
    var e := IncreaseBalanceBy(GetOrCreate(m, id), amount).error;
    if e.InvalidAccountState? {
      assert Closed(m, request, id, e.state);
    } else if e.BalanceLimitExceeded? {
      assert LimitBroken(m, request, id, Value(amount), e.limit);
    } else if e.ParseError? && e.amount != amount {
      assert LimitUnreadable(m, request, id, e.amount);
    }
  }

  lemma TransferRefused(m: AccountMap, amount: Amount, source: Id, dest: Id)
    requires AccountsOk(m) && HandleTransfer(m, amount, source, dest).Err?
    ensures Justified(m, Transfer(amount, source, dest), HandleTransfer(m, amount, source, dest).error)
  {
    hide IncreaseBalanceBy;
    var request := Transfer(amount, source, dest);
    GetOrCreateOk(m, source);
    GetOrCreateOk(m, dest);
    if IncreaseBalanceBy(GetOrCreate(m, dest), amount).Err? {
      IncreaseRefused(m, request, dest, amount);
      if amount.Number? { IncreaseNeverBlames(m, dest, amount); }
    } else {
      IncreaseMeans(m, dest, amount);
      IncreaseRefused(m, request, source, Neg(amount).value);
      IncreaseNeverBlames(m, source, Neg(amount).value);
    }
  }

  lemma {:induction false} BatchRefused(m: AccountMap, specs: seq<BalanceSpec>, k: nat)
    requires AccountsOk(m) && k <= |specs| && IncreaseEach(m, specs[..k]).Err?
    ensures Justified(m, BatchBalanceOperation(specs), IncreaseEach(m, specs[..k]).error)
  {
    hide IncreaseBalanceBy, Justified;
    var n := k - 1;
    assert specs[..k][..n] == specs[..n];
    if IncreaseEach(m, specs[..n]).Err? {
      BatchRefused(m, specs, n);
    } else {
      SpecRefused(m, specs, n);
    }
  }

  lemma SpecRefused(m: AccountMap, specs: seq<BalanceSpec>, i: nat)
    requires AccountsOk(m) && i < |specs|
    requires IncreaseBalanceBy(GetOrCreate(m, specs[i].account), specs[i].amount).Err?
    ensures Justified(m, BatchBalanceOperation(specs),
                      IncreaseBalanceBy(GetOrCreate(m, specs[i].account), specs[i].amount).error)
  {
    hide IncreaseBalanceBy;
    IncreaseRefused(m, BatchBalanceOperation(specs), specs[i].account, specs[i].amount);
    if specs[i].amount.Number? { IncreaseNeverBlames(m, specs[i].account, specs[i].amount); }
  }

  /** An amount that parses is not blamed. */
  lemma IncreaseNeverBlames(m: AccountMap, id: Id, amount: Amount)
    requires AccountsOk(m) && amount.Number? && IncreaseBalanceBy(GetOrCreate(m, id), amount).Err?
    ensures IncreaseBalanceBy(GetOrCreate(m, id), amount).error != ParseError(amount)
  {
    NewIsEmpty(id);
  }

  lemma ReserveRefused(m: AccountMap, account: Id, reservation: Id, amount: Amount)
    requires AccountsOk(m) && HandleReserve(m, account, reservation, amount).Err?
    ensures Justified(m, ReserveFunds(account, reservation, amount),
                      HandleReserve(m, account, reservation, amount).error)
  {
    hide IncreaseBalanceBy;
    var request := ReserveFunds(account, reservation, amount);
    ZeroShift(1);
    if account in m {
      if !m[account].state.Normal? {
        assert Closed(m, request, account, m[account].state);
      } else if amount.Number? {
        var neg := Neg(amount).value;
        if IncreaseBalanceBy(m[account], neg).Err? {
          IncreaseRefused(m, request, account, neg);
          IncreaseNeverBlames(m, account, neg);
        }
      }
    }
  }

  lemma ReleaseAllRefused(m: AccountMap, request: Request)
    requires AccountsOk(m) && request.ReleaseFunds? && request.account in m
    requires request.reservation in Reservations(m, request.account) ==>
               Moves(m, request, request.account, Worth(Reservations(m, request.account)[request.reservation]))
    requires ReleaseAll(m[request.account], request.reservation).Err?
    ensures Justified(m, request, ReleaseAll(m[request.account], request.reservation).error)
  {
    hide IncreaseBalanceBy;
    var account, held := request.account, Reservations(m, request.account);
    if !m[account].state.Normal? {
      assert Closed(m, request, account, m[account].state);
    } else if request.reservation in held {
      IncreaseRefused(m, request, account, held[request.reservation]);
      IncreaseNeverBlames(m, account, held[request.reservation]);
    }
  }

  lemma PartialReleaseRefused(m: AccountMap, request: Request)
    requires AccountsOk(m) && request.ReleaseFunds? && request.account in m
    requires PartialRelease(m[request.account], request.reservation, request.amount).Err?
    ensures Justified(m, request, PartialRelease(m[request.account], request.reservation, request.amount).error)
  {
    hide IncreaseBalanceBy, ReleaseAll;
    ZeroShift(1);
    var account, held, amount := request.account, Reservations(m, request.account), request.amount;
    if !m[account].state.Normal? {
      assert Closed(m, request, account, m[account].state);
    } else if amount.Number? && request.reservation in held && 0.0 < Value(amount) <= Worth(held[request.reservation]) {
      if Value(amount) == Worth(held[request.reservation]) {
        ReleaseAllRefused(m, request);
      } else {
        IncreaseRefused(m, request, account, amount);
        IncreaseNeverBlames(m, account, amount);
      }
    }
  }

  lemma ManagementRefused(m: AccountMap, request: Request)
    requires AccountsOk(m) && Handle(m, request).Err?
    requires request.CreateAccount? || request.LockAccount? || request.UnlockAccount?
          || request.DeleteAccount? || request.UpdateAccountConfig?
    ensures Justified(m, request, Handle(m, request).error)
  {
    ZeroShift(1);
  }

  /** Accounts of different asset classes do not trade, whatever the accounts are. */
  lemma AssetClassesMustMatch(m: AccountMap, amount: Amount, source: Id, dest: Id)
    requires source in m && dest in m && m[source].config.assetClass != m[dest].config.assetClass
    ensures Handle(m, Transfer(amount, source, dest))
         == Err(IncompatibleAssetClass(m[source].config.assetClass, m[dest].config.assetClass))
  {
  }

  /** Every refusal gives a true reason. */
  lemma RefusalsAreJustified(m: AccountMap, request: Request)
    requires AccountsOk(m) && Handle(m, request).Err?
    ensures Justified(m, request, Handle(m, request).error)
  {
    hide IncreaseBalanceBy, IncreaseEach, Reserve, ReleaseAll, PartialRelease;
    match request
    case Transfer(amount, source, dest) => TransferRefused(m, amount, source, dest);
    case BatchBalanceOperation(specs) =>
      assert specs[..|specs|] == specs;
      BatchRefused(m, specs, |specs|);
    case ReserveFunds(account, reservation, amount) => ReserveRefused(m, account, reservation, amount);
    case ReleaseFunds(account, _, amount) =>
      if account in m {
        if amount == Text("") { ReleaseAllRefused(m, request); } else { PartialReleaseRefused(m, request); }
      }
    case _ => ManagementRefused(m, request);
  }
}
