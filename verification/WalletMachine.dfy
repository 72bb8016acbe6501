/** The wallet state machine as it runs: accounts in memory, a write batch waiting to be flushed,
    two caches over the database, tombstones, and the events sent to the broker. */
module WalletMachine {
  import opened WalletTypes
  import opened Ledger
  import opened WalletStore

  datatype Sent = Sent(position: Position, response: Response)

  datatype Machine = Machine(
    accounts: AccountMap,
    appliedIndex: nat,
    lastSeqNum: nat,
    seqNumCache: map<Id, nat>,
    eventCache: map<nat, Event>,
    wb: seq<Op>,
    toBeDeleted: seq<Id>,
    flushedIndex: nat,
    sent: seq<Sent>,
    db: Db)

  /** Memory is rebuilt from the database; everything unflushed is gone. */
  function Recover(db: Db, sent: seq<Sent>): Machine {
    Machine(db.data, Applied(db), Last(db), map[], map[], [], [], Applied(db), sent, db)
  }

  /** Search the cache, then the database. */
  function GetSeqNum(m: Machine, id: Id): Option<nat> {
    if id in m.seqNumCache then Some(m.seqNumCache[id])
    else if id in m.db.dedup then Some(m.db.dedup[id]) else None
  }

  function GetEvent(m: Machine, n: nat): Option<Event> {
    if n in m.eventCache then Some(m.eventCache[n])
    else if n in m.db.events then Some(m.db.events[n]) else None
  }

  function Send(m: Machine, position: Position, response: Response): Machine {
    m.(sent := m.sent + [Sent(position, response)])
  }

  function DataOp(isDelete: bool, a: Account): Op { if isDelete then DeleteData(a.id) else PutData(a) }

  /** Write one account: a deleted one leaves the store but stays in memory as a tombstone. */
  function Write(m: Machine, isDelete: bool, a: Account): Machine {
    m.(accounts := m.accounts[a.id := a],
       wb := m.wb + [DataOp(isDelete, a)],
       toBeDeleted := if isDelete then m.toBeDeleted + [a.id] else m.toBeDeleted)
  }

  function WriteEach(m: Machine, isDelete: bool, writes: seq<Account>): Machine {
    if writes == [] then m
    else Write(WriteEach(m, isDelete, writes[..|writes| - 1]), isDelete, writes[|writes| - 1])
  }

  function RecordEvent(m: Machine, event: Event): Machine {
    var n, id := m.lastSeqNum, event.header.commandId;
    m.(wb := m.wb + [PutDedup(id, n), PutEvent(n, event)],
       seqNumCache := m.seqNumCache[id := n],
       eventCache := m.eventCache[n := event])
  }

  function AnswerDuplicate(m: Machine, cmd: Command, n: nat): Response {
    match GetEvent(m, n)
    case Some(event) => MatchEvent(cmd, event)
    case None => Err(MissingEvent)
  }

  function Exec(m: Machine, position: Position, cmd: Command): Machine {
    match GetSeqNum(m, cmd.id)
    case Some(n) => Send(m, position, AnswerDuplicate(m, cmd, n))
    case None =>
      match Handle(m.accounts, cmd.request)
      case Err(e) => Send(m, position, Err(e))
      case Ok(effect) =>
        var m1 := WriteEach(m.(lastSeqNum := m.lastSeqNum + 1), effect.isDelete, effect.writes);
        var event := BuildEvent(m1.lastSeqNum, position, cmd, effect.payload);
        Send(RecordEvent(m1, event), position, Ok(event))
  }

  function ExecPrefix(m: Machine, index: nat, cmds: seq<Command>, k: nat): Machine
    requires k <= |cmds|
  {
    if k == 0 then m
    else Exec(ExecPrefix(m, index, cmds, k - 1), Position(index, k - 1), cmds[k - 1])
  }

  function FinishEntry(m: Machine, index: nat): Machine {
    m.(appliedIndex := index, wb := m.wb + [PutApplied(index), PutLast(m.lastSeqNum)])
  }

  /** Apply the log entry that follows the last applied one. */
  function ApplyEntry(m: Machine, cmds: seq<Command>): Machine {
    var index := m.appliedIndex + 1;
    FinishEntry(ExecPrefix(m, index, cmds, |cmds|), index)
  }

  function Forget(accounts: AccountMap, ids: seq<Id>): AccountMap {
    map id | id in accounts && id !in ids :: accounts[id]
  }

  /** Move the write batch to the database, drop the tombstones, clear the caches. */
  function Flush(m: Machine): Machine {
    m.(db := ApplyOps(m.db, m.wb), wb := [],
       accounts := Forget(m.accounts, m.toBeDeleted), toBeDeleted := [],
       eventCache := map[], seqNumCache := map[],
       flushedIndex := m.appliedIndex)
  }
}
