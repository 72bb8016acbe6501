/** Values shared by every wallet component: amounts, accounts, errors and results. */
module WalletTypes {

  newtype uint8 = x: int | 0 <= x < 256

  /** Account, command and reservation ids, as the bytes the store keys are built from. */
  type Id = seq<uint8>

  datatype Option<+T> = None | Some(value: T)

  /** An amount string: either one that parses as a decimal `mantissa * 10^-scale`, or one that
      does not parse (the empty string is `Text("")`). */
  datatype Amount = Number(mantissa: int, scale: int) | Text(raw: string)

  datatype AccountState = Normal | Locked | Deleted

  datatype BalanceLimit = BalanceLimit(upper: Amount, lower: Amount)

  datatype AccountConfig = AccountConfig(limit: Option<BalanceLimit>, assetClass: string)

  datatype Balance = Balance(available: Amount, reservations: map<Id, Amount>)

  datatype Account = Account(id: Id, balance: Balance, config: AccountConfig, state: AccountState)

  datatype BalanceChange = BalanceChange(accountId: Id, prev: Balance, curr: Balance)

  /** `MissingEvent` is not an answer of the wallet: it stands for the panic of the `unwrap` on the
      event of a duplicate command. */
  datatype Error =
    | AccountNotExist(id: Id)
    | AccountAlreadyExist(id: Id)
    | InvalidStateTransition(source: AccountState, target: AccountState)
    | BalanceIsNotZero(balance: Balance)
    | BalanceLimitExceeded(limit: BalanceLimit)
    | InvalidAccountState(state: AccountState)
    | IncompatibleAssetClass(lhs: string, rhs: string)
    | ParseError(amount: Amount)
    | ReservationIdAlreadyExist(id: Id)
    | ReservationIdNotFound(id: Id)
    | InvalidAmount(amount: Amount)
    | ConflictDedupId(id: Id)
    | Timeout
    | MissingEvent

  datatype Result<+T> = Ok(value: T) | Err(error: Error) {
    predicate IsFailure() { Err? }

    function PropagateFailure<U>(): Result<U>
      requires Err?
    {
      Err(error)
    }

    function Extract(): T
      requires Ok?
    {
      value
    }
  }
}
