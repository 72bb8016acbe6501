/** Accounts: copy-on-write operations that validate state, amount and balance limit. */
module Accounts {
  import opened WalletTypes
  import opened Decimals
  import MapSums

  /** The string "0.0". */
  const ZERO: Amount := Number(0, 1)

  const USD := "USD"

  /** A fresh account: zero balance, no limit, cash in USD, state Normal. */
  function New(id: Id): Account {
    Account(id, Balance(ZERO, map[]), AccountConfig(None, USD), Normal)
  }

  // ---------- meaning ----------

  ghost function Worth(a: Amount): real {
    if a.Number? then Value(a) else 0.0
  }

  /** Money held by an account: available plus every reservation. */
  ghost function Funds(a: Account): real {
    Worth(a.balance.available) + MapSums.Sum(a.balance.reservations, Worth)
  }

  /** What every account the wallet ever stores satisfies. */
  ghost predicate WellFormed(a: Account) {
    && a.balance.available.Number?
    && (forall r <- a.balance.reservations ::
          a.balance.reservations[r].Number? && Value(a.balance.reservations[r]) > 0.0)
    && a.config.assetClass == USD
    && (a.state.Deleted? ==> a.balance.reservations == map[] && Value(a.balance.available) == 0.0)
  }

  ghost predicate WithinLimit(a: Account)
    requires a.balance.available.Number?
  {
    a.config.limit.None? || Admits(a.config.limit.value, Value(a.balance.available))
  }

  ghost predicate Admits(limit: BalanceLimit, v: real) {
    && limit.upper.Number? && limit.lower.Number?
    && Value(limit.lower) <= v <= Value(limit.upper)
  }

  lemma NewIsEmpty(id: Id)
    ensures WellFormed(New(id)) && Funds(New(id)) == 0.0 && WithinLimit(New(id))
  {
    ZeroShift(1);
  }

  // ---------- checks ----------

  function CheckAssetClass(a: Account, other: Account): Result<()> {
    if a.config.assetClass != other.config.assetClass
    then Err(IncompatibleAssetClass(a.config.assetClass, other.config.assetClass))
    else Ok(())
  }

  function LegalTargets(s: AccountState): set<AccountState> {
    match s
    case Normal => {Locked, Deleted}
    case Locked => {Normal}
    case Deleted => {}
  }

  function CheckTransition(a: Account, target: AccountState): Result<()> {
    if target in LegalTargets(a.state) then Ok(()) else Err(InvalidStateTransition(a.state, target))
  }

  function CheckNormal(a: Account): Result<()> {
    if a.state.Normal? then Ok(()) else Err(InvalidAccountState(a.state))
  }

  /** Compared with the upper limit first: that is the one an unparsable limit is blamed on. */
  function CheckLimit(a: Account, balance: Amount): (r: Result<()>)
    ensures balance.Number? ==>
      (r.Ok? <==> a.config.limit.None? || Admits(a.config.limit.value, Value(balance)))
  {
    if a.config.limit.None? then Ok(())
    else
      var limit := a.config.limit.value;
      var toUpper :- Cmp(balance, limit.upper);
      var toLower :- Cmp(balance, limit.lower);
      if toLower.Less? || toUpper.Greater? then Err(BalanceLimitExceeded(limit)) else Ok(())
  }

  function CheckPositive(amount: Amount): (r: Result<()>)
    ensures r.Ok? <==> amount.Number? && Value(amount) > 0.0
  {
    ZeroShift(1);
    var c :- Cmp(amount, ZERO);
    if c.Less? || c.Equal? then Err(InvalidAmount(amount)) else Ok(())
  }

  function CheckEmpty(a: Account): (r: Result<()>)
    ensures r.Ok? <==> a.balance.reservations == map[] && a.balance.available.Number?
                       && Value(a.balance.available) == 0.0
  {
    ZeroShift(1);
    if a.balance.reservations == map[] then
      var c :- Cmp(a.balance.available, ZERO);
      if c.Equal? then Ok(()) else Err(BalanceIsNotZero(a.balance))
    else Err(BalanceIsNotZero(a.balance))
  }

  function FindReservation(a: Account, reservation: Id): Result<Amount> {
    if reservation in a.balance.reservations then Ok(a.balance.reservations[reservation])
    else Err(ReservationIdNotFound(reservation))
  }

  // ---------- operations ----------

  datatype Increased = Increased(account: Account, change: BalanceChange)

  /** `available += amount`, allowed only in state Normal and within the balance limit. */
  function IncreaseBalanceBy(a: Account, amount: Amount): (r: Result<Increased>)
    ensures r.Ok? <==>
      && a.state.Normal? && a.balance.available.Number? && amount.Number?
      && (a.config.limit.None?
          || Admits(a.config.limit.value, Value(a.balance.available) + Value(amount)))
    ensures r.Ok? ==>
      var a' := r.value.account;
      && a' == a.(balance := a.balance.(available := a'.balance.available))
      && IsNormalized(a'.balance.available)
      && Value(a'.balance.available) == Value(a.balance.available) + Value(amount)
      && r.value.change == BalanceChange(a.id, a.balance, a'.balance)
    ensures r.Err? && r.error.InvalidAccountState? <==> !a.state.Normal?
    ensures r.Err? && r.error.InvalidAccountState? ==> r.error.state == a.state
  {
    var _ :- CheckNormal(a);
    var balance :- Add(a.balance.available, amount);
    var _ :- CheckLimit(a, balance);
    var a' := a.(balance := a.balance.(available := balance));
    Ok(Increased(a', BalanceChange(a.id, a.balance, a'.balance)))
  }

  function SetBalanceLimit(a: Account, limit: BalanceLimit): Account {
    a.(config := a.config.(limit := Some(limit)))
  }

  /** Move `amount` from available into a new reservation. */
  function Reserve(a: Account, reservation: Id, amount: Amount): Result<Account> {
    var _ :- CheckNormal(a);
    var _ :- CheckPositive(amount);
    if reservation in a.balance.reservations then Err(ReservationIdAlreadyExist(reservation))
    else
      var neg :- Neg(amount);
      var up :- IncreaseBalanceBy(a, neg);
      Ok(WithReservations(up.account, a.balance.reservations[reservation := amount]))
  }

  function WithReservations(a: Account, reservations: map<Id, Amount>): Account {
    a.(balance := a.balance.(reservations := reservations))
  }

  /** Move a whole reservation back into available. */
  function ReleaseAll(a: Account, reservation: Id): Result<Account> {
    var _ :- CheckNormal(a);
    var amount :- FindReservation(a, reservation);
    var up :- IncreaseBalanceBy(a, amount);
    Ok(WithReservations(up.account, a.balance.reservations - {reservation}))
  }

  /** Move a part of a reservation back into available; the exact rest drops the reservation. */
  function PartialRelease(a: Account, reservation: Id, amount: Amount): Result<Account> {
    var _ :- CheckNormal(a);
    var _ :- CheckPositive(amount);
    var reserved :- FindReservation(a, reservation);
    var c :- Cmp(amount, reserved);
    if c.Greater? then Err(InvalidAmount(amount))
    else if c.Equal? then ReleaseAll(a, reservation)
    else
      var up :- IncreaseBalanceBy(a, amount);
      var neg :- Neg(amount);
      var rest :- Add(reserved, neg);
      Ok(WithReservations(up.account, a.balance.reservations[reservation := rest]))
  }

  function Lock(a: Account): Result<Account> {
    var _ :- CheckTransition(a, Locked);
    Ok(a.(state := Locked))
  }

  function Unlock(a: Account): Result<Account> {
    var _ :- CheckTransition(a, Normal);
    Ok(a.(state := Normal))
  }

  function Delete(a: Account): Result<Account> {
    var _ :- CheckTransition(a, Deleted);
    var _ :- CheckEmpty(a);
    Ok(a.(state := Deleted))
  }

  // ---------- what the operations keep ----------

  /** A balance operation moves funds by exactly its amount and ends within the limit. */
  lemma IncreaseFunds(a: Account, amount: Amount)
    requires WellFormed(a) && IncreaseBalanceBy(a, amount).Ok?
    ensures var a' := IncreaseBalanceBy(a, amount).value.account;
            WellFormed(a') && Funds(a') == Funds(a) + Value(amount) && WithinLimit(a')
  {
  }

  /** Only the balance of `a` changed, and only while `a` was Normal. */
  predicate OnlyBalanceChanged(a: Account, a': Account) {
    a.state.Normal? && a' == a.(balance := a'.balance)
  }

  /** Reserving keeps the funds, stores a positive reservation and can be undone by a release. */
  lemma ReserveKeepsFunds(a: Account, reservation: Id, amount: Amount)
    requires WellFormed(a) && Reserve(a, reservation, amount).Ok?
    ensures var a' := Reserve(a, reservation, amount).value;
            && WellFormed(a') && Funds(a') == Funds(a) && WithinLimit(a')
            && OnlyBalanceChanged(a, a')
            && a'.balance.reservations == a.balance.reservations[reservation := amount]
            && Value(a'.balance.available) == Value(a.balance.available) - Value(amount)
  {
    MapSums.SumUpdate(a.balance.reservations, reservation, amount, Worth);
  }

  lemma ReleaseAllKeepsFunds(a: Account, reservation: Id)
    requires WellFormed(a) && ReleaseAll(a, reservation).Ok?
    ensures var a' := ReleaseAll(a, reservation).value;
            && WellFormed(a') && Funds(a') == Funds(a) && WithinLimit(a')
            && OnlyBalanceChanged(a, a')
            && reservation in a.balance.reservations
            && a'.balance.reservations == a.balance.reservations - {reservation}
  {
    MapSums.SumRemove(a.balance.reservations, reservation, Worth);
  }

  lemma PartialReleaseKeepsFunds(a: Account, reservation: Id, amount: Amount)
    requires WellFormed(a) && PartialRelease(a, reservation, amount).Ok?
    ensures var a' := PartialRelease(a, reservation, amount).value;
            && WellFormed(a') && Funds(a') == Funds(a) && WithinLimit(a')
            && OnlyBalanceChanged(a, a')
            && Value(a'.balance.available) == Value(a.balance.available) + Value(amount)
            && reservation in a.balance.reservations
            && (reservation in a'.balance.reservations <==>
                Value(amount) != Value(a.balance.reservations[reservation]))
  {
    var reserved := a.balance.reservations[reservation];
    var c := Cmp(amount, reserved).value;
    if c.Equal? {
      ReleaseAllKeepsFunds(a, reservation);
    } else {
      var rest := Add(reserved, Neg(amount).value).value;
      MapSums.SumUpdate(a.balance.reservations, reservation, rest, Worth);
    }
  }

  /** A release of everything undoes a reserve up to the spelling of the available amount; with
      a normalised balance the account comes back exactly. */
  lemma ReserveThenReleaseIsIdentity(a: Account, reservation: Id, amount: Amount)
    requires WellFormed(a) && IsNormalized(a.balance.available) && WithinLimit(a)
    requires Reserve(a, reservation, amount).Ok?
    ensures ReleaseAll(Reserve(a, reservation, amount).value, reservation) == Ok(a)
  {
    ReserveKeepsFunds(a, reservation, amount);
    var a' := Reserve(a, reservation, amount).value;
    var a'' := ReleaseAll(a', reservation).value;
    NormalizedUnique(a''.balance.available, a.balance.available);
    assert a.balance.reservations[reservation := amount] - {reservation} == a.balance.reservations;
  }

  /** The transition table: Normal to Locked and back, and Normal to Deleted for an empty account.
      Nothing but the state changes. */
  lemma Transitions(a: Account)
    ensures Lock(a)
         == if a.state.Normal? then Ok(a.(state := Locked)) else Err(InvalidStateTransition(a.state, Locked))
    ensures Unlock(a)
         == if a.state.Locked? then Ok(a.(state := Normal)) else Err(InvalidStateTransition(a.state, Normal))
    ensures !a.state.Normal? ==> Delete(a) == Err(InvalidStateTransition(a.state, Deleted))
    ensures a.state.Normal? && Delete(a).Ok? ==> Delete(a) == Ok(a.(state := Deleted))
    ensures a.state.Normal? && a.balance.available.Number? ==>
              (Delete(a).Ok? <==> a.balance.reservations == map[] && Value(a.balance.available) == 0.0)
  {
  }

  /** Deletion asks for an empty account; a deleted account admits nothing but a new limit. */
  lemma DeletedIsFinal(a: Account, reservation: Id, amount: Amount)
    requires a.state.Deleted?
    ensures Lock(a).Err? && Unlock(a).Err? && Delete(a).Err?
    ensures IncreaseBalanceBy(a, amount) == Err(InvalidAccountState(Deleted))
    ensures Reserve(a, reservation, amount) == Err(InvalidAccountState(Deleted))
    ensures ReleaseAll(a, reservation) == Err(InvalidAccountState(Deleted))
    ensures PartialRelease(a, reservation, amount) == Err(InvalidAccountState(Deleted))
  {
  }
}
