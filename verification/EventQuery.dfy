/** Queries of the event stream, read event by event while the collector keeps deleting. */
module EventQuery {
  import opened WalletTypes
  import opened Ledger
  import opened WalletStore
  import opened WalletRefinement
  import opened WalletSystem
  import opened WalletMachine
  import opened EventLogGc

  datatype QueryResult =
    | Events(first: nat, last: nat, events: seq<Event>)
    | LogTruncated
    | OutOfRange

  predicate LegalRange(first: nat, last: nat, persistedFirst: nat, persistedLast: nat) {
    first != 0 && first <= last && persistedFirst <= first <= persistedLast
  }

  /** Trim a legal range to the count limit and to what is persisted. */
  function AdjustedLast(first: nat, last: nat, persistedLast: nat, maxCount: nat): (r: nat)
    requires first != 0 && first <= last && first <= persistedLast
    ensures r <= last && r <= persistedLast && r - first + 1 <= maxCount && first <= r + 1
    ensures r == last || r == persistedLast || r - first + 1 == maxCount
  {
    Min(Min(last, first + maxCount - 1), persistedLast)
  }

  /** `snap(i)` is the database the `i`-th read of a query sees: the history only grows and its
      collected part only grows. */
  ghost predicate Evolves(snap: nat -> Db, h: seq<Event>) {
    && (forall i: nat :: Last(snap(i)) <= |h| && DbOk(snap(i), h[..Last(snap(i))]))
    && (forall i: nat, j: nat | i <= j :: First(snap(i)) <= First(snap(j)) && Last(snap(i)) <= Last(snap(j)))
  }

  /** What one read of event `n` can find. */
  lemma ReadEvent(snap: nat -> Db, h: seq<Event>, i: nat, n: nat)
    requires Evolves(snap, h) && 1 <= n <= Last(snap(0))
    ensures n <= |h|
    ensures n in snap(i).events <==> First(snap(i)) <= n
    ensures n in snap(i).events ==> snap(i).events[n] == h[n - 1] && h[n - 1].header.seqNum == n
  {
    var d := snap(i);
    assert Last(snap(0)) <= Last(d) <= |h| && DbOk(d, h[..Last(d)]);
    assert h[..Last(d)][n - 1] == h[n - 1];
  }

  /** Event `n` of a query from `first` is read after the two persisted numbers and the events before
      it, and is gone by then. */
  ghost predicate GoneWhenRead(snap: nat -> Db, first: nat, n: nat)
    requires first <= n
  {
    n < First(snap(2 + n - first))
  }

  /** Reads the last and the first persisted number, then one event after the other.  The answer is
      exactly the requested consecutive events, unless the collector has passed one of them by the
      time it is read. */
  method QueryEvents(snap: nat -> Db, first: nat, last: nat, maxCount: nat, ghost h: seq<Event>)
      returns (r: QueryResult)
    requires Evolves(snap, h)
    ensures r.OutOfRange? <==> !LegalRange(first, last, First(snap(1)), Last(snap(0)))
    ensures r.Events? ==>
      && r.first == first
      && r.last == AdjustedLast(first, last, Last(snap(0)), maxCount) <= |h|
      && r.events == h[first - 1..r.last]
      && forall i | 0 <= i < |r.events| :: r.events[i].header.seqNum == first + i
    ensures r.LogTruncated? <==>
      && LegalRange(first, last, First(snap(1)), Last(snap(0)))
      && exists n | first <= n <= AdjustedLast(first, last, Last(snap(0)), maxCount) :: GoneWhenRead(snap, first, n)
  {
    hide Evolves, DbOk, First, Last;
    var persistedLast := Last(snap(0));
    var persistedFirst := First(snap(1));
    if !LegalRange(first, last, persistedFirst, persistedLast) { return OutOfRange; }
    var adjusted := AdjustedLast(first, last, persistedLast, maxCount);
    var events: seq<Event> := [];
    var n := first;
    ReadEvent(snap, h, 0, persistedLast);
    while n <= adjusted
      invariant first <= n <= adjusted + 1 <= persistedLast + 1 <= |h| + 1
      invariant events == h[first - 1..n - 1]
      invariant forall k | first <= k < n :: !GoneWhenRead(snap, first, k)
      invariant forall i | 0 <= i < |events| :: events[i].header.seqNum == first + i
    {
      ReadEvent(snap, h, 2 + n - first, n);
      var db := snap(2 + n - first);
      if n !in db.events {
        assert GoneWhenRead(snap, first, n);
        return LogTruncated;
      }
      events := events + [db.events[n]];
      n := n + 1;
    }
    r := Events(first, adjusted, events);
  }

  // ---------- the databases of a run evolve ----------

  ghost predicate Grows(sys: System, sys': System) {
    && First(sys.m.db) <= First(sys'.m.db) && Last(sys.m.db) <= Last(sys'.m.db)
    && sys.history <= sys'.history
  }

  lemma FlushGrows(log: Log, sys: System)
    requires Refines(sys.m, State(sys.m.accounts, sys.history)) && AtBoundary(sys.m) && Enabled(log, sys, FlushBatch)
    ensures Grows(sys, Step(log, sys, FlushBatch))
  {
    hide Refines, AtBoundary, ApplyOps, EventsAre, DedupIs;
    RefinesAccounts(sys.m, State(sys.m.accounts, sys.history));
    FlushDb(sys.m, State(sys.m.accounts, sys.history));
  }

  lemma WriteGcGrows(log: Log, sys: System)
    requires Refines(sys.m, State(sys.m.accounts, sys.history)) && GcOk(sys) && Enabled(log, sys, WriteGc)
    ensures Grows(sys, Step(log, sys, WriteGc))
  {
    hide Refines, ApplyOps, GcBatch, DbOk;
    RefinesAccounts(sys.m, State(sys.m.accounts, sys.history));
    GcKeepsDb(sys.m.db, sys.history[..Last(sys.m.db)], sys.gc.value.from, sys.gc.value.to);
  }

  /** Without a crash the history only grows, and so does its collected part: consecutive
      databases of a run satisfy `Evolves`. */
  lemma StepGrows(log: Log, sys: System, action: Action)
    requires Inv(log, sys) && Enabled(log, sys, action) && !action.Crash?
    ensures Grows(sys, Step(log, sys, action))
  {
    hide Refines, AtBoundary, GcOk, Exec, Run;
    match action
    case Execute => ExecuteIs(log, sys);
    case Finish =>
    case FlushBatch => FlushGrows(log, sys);
    case WriteGc => WriteGcGrows(log, sys);
    case ScanEvents(_) =>
  }
}
