/** The wallet's database: accounts, dedup ids, events and three counters, and the write batches
    that change it atomically. */
module WalletStore {
  import opened WalletTypes
  import opened Ledger

  datatype Db = Db(
    data: AccountMap,
    dedup: map<Id, nat>,
    events: map<nat, Event>,
    applied: Option<nat>,
    last: Option<nat>,
    first: Option<nat>)

  const EMPTY_DB: Db := Db(map[], map[], map[], None, None, None)

  /** Raft log indices start after 5. */
  const INITIAL_APPLIED_INDEX: nat := 5

  function GetOr<T>(o: Option<T>, default: T): T { if o.Some? then o.value else default }

  function Applied(db: Db): nat { GetOr(db.applied, INITIAL_APPLIED_INDEX) }
  function Last(db: Db): nat { GetOr(db.last, 0) }
  function First(db: Db): nat { GetOr(db.first, 0) }

  datatype Op =
    | PutData(account: Account)
    | DeleteData(id: Id)
    | PutDedup(id: Id, seqNum: nat)
    | DeleteDedup(id: Id)
    | PutEvent(seqNum: nat, event: Event)
    | DeleteEvent(seqNum: nat)
    | PutApplied(index: nat)
    | PutLast(seqNum: nat)
    | PutFirst(seqNum: nat)

  function ApplyOp(db: Db, op: Op): Db {
    match op
    case PutData(account) => db.(data := db.data[account.id := account])
    case DeleteData(id) => db.(data := db.data - {id})
    case PutDedup(id, n) => db.(dedup := db.dedup[id := n])
    case DeleteDedup(id) => db.(dedup := db.dedup - {id})
    case PutEvent(n, event) => db.(events := db.events[n := event])
    case DeleteEvent(n) => db.(events := db.events - {n})
    case PutApplied(n) => db.(applied := Some(n))
    case PutLast(n) => db.(last := Some(n))
    case PutFirst(n) => db.(first := Some(n))
  }

  /** A write batch takes effect in order. */
  function ApplyOps(db: Db, ops: seq<Op>): Db {
    if ops == [] then db else ApplyOp(ApplyOps(db, ops[..|ops| - 1]), ops[|ops| - 1])
  }

  // ---------- the layers a batch overlays ----------

  /** The operations the state machine buffers: it never deletes dedup ids or events. */
  predicate MachineOp(op: Op) { !op.DeleteDedup? && !op.DeleteEvent? && !op.PutFirst? }

  ghost predicate MachineOps(ops: seq<Op>) { forall i | 0 <= i < |ops| :: MachineOp(ops[i]) }

  /** What a machine batch stores, whatever the database below it holds. */
  ghost function DedupOf(ops: seq<Op>): map<Id, nat> { ApplyOps(EMPTY_DB, ops).dedup }
  ghost function EventsOf(ops: seq<Op>): map<nat, Event> { ApplyOps(EMPTY_DB, ops).events }

  lemma AddThenUpdate<K, V>(a: map<K, V>, b: map<K, V>, k: K, v: V)
    ensures (a + b)[k := v] == a + b[k := v]
  {
  }

  ghost predicate Overlays(top: Db, base: Db, layer: Db) {
    top.dedup == base.dedup + layer.dedup && top.events == base.events + layer.events && top.first == base.first
  }

  lemma OverlayStep(top: Db, base: Db, layer: Db, op: Op)
    requires Overlays(top, base, layer) && MachineOp(op)
    ensures Overlays(ApplyOp(top, op), base, ApplyOp(layer, op))
  {
    if op.PutDedup? { AddThenUpdate(base.dedup, layer.dedup, op.id, op.seqNum); }
    if op.PutEvent? { AddThenUpdate(base.events, layer.events, op.seqNum, op.event); }
  }

  lemma {:induction false} Overlay(db: Db, ops: seq<Op>)
    requires MachineOps(ops)
    ensures Overlays(ApplyOps(db, ops), db, ApplyOps(EMPTY_DB, ops))
  {
    if ops == [] {
      assert db.dedup + map[] == db.dedup && db.events + map[] == db.events;
    } else {
      hide ApplyOp, Overlays;
      var init, op := ops[..|ops| - 1], ops[|ops| - 1];
      Overlay(db, init);
      OverlayStep(ApplyOps(db, init), db, ApplyOps(EMPTY_DB, init), op);
    }
  }

  ghost predicate SameRecords(d: Db, d': Db) {
    d.data == d'.data && d.applied == d'.applied && d.last == d'.last
  }

  lemma SameRecordsStep(d: Db, d': Db, op: Op)
    requires SameRecords(d, d')
    ensures SameRecords(ApplyOp(d, op), ApplyOp(d', op))
  {
  }

  /** A batch treats the account records and counters of two databases alike. */
  lemma {:induction false} OverlayData(db: Db, db': Db, ops: seq<Op>)
    requires SameRecords(db, db')
    ensures SameRecords(ApplyOps(db, ops), ApplyOps(db', ops))
  {
    hide ApplyOp, SameRecords;
    if ops != [] {
      var init := ops[..|ops| - 1];
      OverlayData(db, db', init);
      SameRecordsStep(ApplyOps(db, init), ApplyOps(db', init), ops[|ops| - 1]);
    }
  }

  /** The database handle shared by the state machine, the collector and the queries. */
  class RocksDb {
    var db: Db

    constructor ()
      ensures db == EMPTY_DB
    {
      db := EMPTY_DB;
    }

    method Write(ops: seq<Op>)
      modifies this
      ensures db == ApplyOps(old(db), ops)
    {
      db := ApplyOps(db, ops);
    }
  }
}
