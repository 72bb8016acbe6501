/** Garbage collection of the event log: batches that delete the oldest events and the dedup ids
    of their commands. */
module EventLogGc {
  import opened WalletTypes
  import opened Ledger
  import opened EventSourcing
  import opened WalletStore
  import opened WalletMachine
  import opened WalletRefinement

  // ---------- one batch ----------

  function DeleteOps(n: nat, event: Event): seq<Op> { [DeleteEvent(n), DeleteDedup(event.header.commandId)] }

  /** The deletions a scan of the event keys in `[from, to)` collects. */
  function ScanOps(events: map<nat, Event>, from: nat, to: nat): seq<Op> {
    if to <= from then []
    else ScanOps(events, from, to - 1) + (if to - 1 in events then DeleteOps(to - 1, events[to - 1]) else [])
  }

  function GcBatch(events: map<nat, Event>, from: nat, to: nat): seq<Op> {
    ScanOps(events, from, to) + [PutFirst(to)]
  }

  ghost function Collected(events: map<nat, Event>, from: nat, to: nat): set<nat> {
    set n: nat | n in events && from <= n < to
  }

  ghost function Forgotten(events: map<nat, Event>, from: nat, to: nat): set<Id> {
    set n: nat | n in events && from <= n < to :: events[n].header.commandId
  }

  /** `d` without the events a scan met and without their ids. */
  ghost function Scanned(d: Db, events: map<nat, Event>, from: nat, to: nat): Db {
    d.(events := d.events - Collected(events, from, to), dedup := d.dedup - Forgotten(events, from, to))
  }

  lemma NothingScanned(d: Db, events: map<nat, Event>, from: nat, to: nat)
    requires to <= from
    ensures Scanned(d, events, from, to) == d
  {
    assert Collected(events, from, to) == {} && Forgotten(events, from, to) == {};
    assert d.events - {} == d.events && d.dedup - {} == d.dedup;
  }

  lemma NothingThere(d: Db, events: map<nat, Event>, from: nat, n: nat)
    requires n !in events
    ensures Scanned(d, events, from, n + 1) == Scanned(d, events, from, n)
  {
    assert Collected(events, from, n + 1) == Collected(events, from, n);
    assert Forgotten(events, from, n + 1) == Forgotten(events, from, n);
  }

  lemma {:induction false} ScanEffect(d: Db, events: map<nat, Event>, from: nat, to: nat)
    ensures ApplyOps(d, ScanOps(events, from, to)) == Scanned(d, events, from, to)
  {
    hide Scanned, ApplyOp, DeleteOps;
    if to <= from {
      NothingScanned(d, events, from, to);
    } else {
      var n := to - 1;
      ScanEffect(d, events, from, n);
      hide ApplyOps;
      if n in events {
        ScanStep(d, events, from, n);
      } else {
        assert ScanOps(events, from, n) + [] == ScanOps(events, from, n);
        NothingThere(d, events, from, n);
      }
    }
  }

  lemma ScanStep(d: Db, events: map<nat, Event>, from: nat, n: nat)
    requires from <= n && n in events && ApplyOps(d, ScanOps(events, from, n)) == Scanned(d, events, from, n)
    ensures ApplyOps(d, ScanOps(events, from, n) + DeleteOps(n, events[n])) == Scanned(d, events, from, n + 1)
  {
    hide ApplyOps, ScanOps, Collected, Forgotten;
    var ops, id := ScanOps(events, from, n), events[n].header.commandId;
    ApplyOpsSnoc(d, ops, DeleteEvent(n));
    ApplyOpsSnoc(d, ops + [DeleteEvent(n)], DeleteDedup(id));
    assert ops + DeleteOps(n, events[n]) == ops + [DeleteEvent(n)] + [DeleteDedup(id)];
    CollectedNext(events, from, n);
    MinusOne(d.events, Collected(events, from, n), n);
    MinusOne(d.dedup, Forgotten(events, from, n), id);
  }

  lemma CollectedNext(events: map<nat, Event>, from: nat, n: nat)
    requires from <= n && n in events
    ensures Collected(events, from, n + 1) == Collected(events, from, n) + {n}
    ensures Forgotten(events, from, n + 1) == Forgotten(events, from, n) + {events[n].header.commandId}
  {
  }

  lemma MinusOne<K, V>(m: map<K, V>, s: set<K>, k: K)
    ensures m - s - {k} == m - (s + {k})
  {
  }

  /** Events outside `[from, to)` play no part in a batch. */
  lemma {:induction false} ScanFrame(events: map<nat, Event>, events': map<nat, Event>, from: nat, to: nat)
    requires forall n: nat | from <= n < to ::
      (n in events <==> n in events') && (n in events ==> events[n] == events'[n])
    ensures ScanOps(events, from, to) == ScanOps(events', from, to)
  {
    if from < to { ScanFrame(events, events', from, to - 1); }
  }

  lemma {:induction false} LookupRaise(h: seq<Event>, first: nat, to: nat, c: Id)
    requires first <= to
    ensures Lookup(h, to, c).Some? ==> Lookup(h, first, c) == Lookup(h, to, c)
    ensures Lookup(h, first, c).Some? && to <= Lookup(h, first, c).value ==> Lookup(h, to, c) == Lookup(h, first, c)
  {
    if h != [] && h[|h| - 1].header.commandId != c { LookupRaise(h[..|h| - 1], first, to, c); }
  }

  lemma GcDedup(d: Db, h: seq<Event>, from: nat, to: nat)
    requires DbOk(d, h) && from == AtLeastOne(First(d)) <= to
    ensures DedupIs(d.dedup - Forgotten(d.events, from, to), h, to)
  {
    var dedup := d.dedup - Forgotten(d.events, from, to);
    forall c | c in dedup ensures Lookup(h, to, c) == Some(dedup[c]) { GcKeepsId(d, h, from, to, c); }
    forall c: Id | Lookup(h, to, c).Some? ensures c in dedup { GcFindsId(d, h, from, to, c); }
    hide Lookup, DbOk, Forgotten;
  }

  /** An id that is kept is the id of a kept event. */
  lemma GcKeepsId(d: Db, h: seq<Event>, from: nat, to: nat, c: Id)
    requires DbOk(d, h) && from == AtLeastOne(First(d)) <= to && c in d.dedup - Forgotten(d.events, from, to)
    ensures Lookup(h, to, c) == Some(d.dedup[c])
  {
    hide Lookup, Unique, Fold, Live, AccountsOk;
    var n := d.dedup[c];
    assert Lookup(h, First(d), c) == Some(n);
    assert n in d.events && d.events[n].header.commandId == c;
    LookupRaise(h, First(d), to, c);
  }

  lemma GcFindsId(d: Db, h: seq<Event>, from: nat, to: nat, c: Id)
    requires DbOk(d, h) && from == AtLeastOne(First(d)) <= to && Lookup(h, to, c).Some?
    ensures c in d.dedup - Forgotten(d.events, from, to)
  {
    hide DbOk, Unique, EventsAre, Lookup, Forgotten;
    DbParts(d, h);
    LookupRaise(h, First(d), to, c);
    assert c in d.dedup;
    NotForgotten(d, h, from, to, c);
  }

  lemma DbParts(d: Db, h: seq<Event>)
    requires DbOk(d, h)
    ensures EventsAre(d.events, h, AtLeastOne(First(d))) && DedupIs(d.dedup, h, First(d)) && Unique(h, First(d))
    ensures First(d) <= |h| == Last(d)
  {
    hide EventsAre, DedupIs, Unique, Fold, Live, AccountsOk;
  }

  /** The id of an event that is kept is not the id of a collected one. */
  lemma NotForgotten(d: Db, h: seq<Event>, from: nat, to: nat, c: Id)
    requires EventsAre(d.events, h, from) && Unique(h, First(d)) && from == AtLeastOne(First(d)) <= to
    requires Lookup(h, to, c).Some?
    ensures c !in Forgotten(d.events, from, to)
  {
    var n := Lookup(h, to, c).value;
    hide Lookup;
    forall k | k in d.events && from <= k < to ensures d.events[k].header.commandId != c {
      assert d.events[k] == h[k - 1] && h[n - 1].header.commandId == c;
    }
  }

  lemma GcEvents(d: Db, h: seq<Event>, from: nat, to: nat)
    requires EventsAre(d.events, h, from) && 1 <= from <= to
    ensures EventsAre(d.events - Collected(d.events, from, to), h, to)
  {
  }

  /** A batch keeps the database in one-to-one correspondence with the retained history: the
      dedup ids it forgets are exactly those of the events it deletes. */
  lemma GcKeepsDb(d: Db, h: seq<Event>, from: nat, to: nat)
    requires DbOk(d, h) && from == AtLeastOne(First(d)) <= to <= Last(d)
    ensures var d' := ApplyOps(d, GcBatch(d.events, from, to));
            && DbOk(d', h) && First(d') == to && Last(d') == Last(d)
            && d'.data == d.data && d'.applied == d.applied && d'.last == d.last
  {
    GcDedup(d, h, from, to);
    GcEvents(d, h, from, to);
    ScanEffect(d, d.events, from, to);
    ApplyOpsSnoc(d, ScanOps(d.events, from, to), PutFirst(to));
    hide ApplyOps, EventsAre, DedupIs, ScanOps, Live, Fold, AccountsOk;
  }

  /** A batch written under a running state machine is invisible to it, except that the collected
      commands are no longer recognised as duplicates. */
  lemma GcRefines(m: Machine, s: State, from: nat, to: nat)
    requires Refines(m, s) && from == AtLeastOne(First(m.db)) <= to <= Last(m.db)
    ensures var m' := m.(db := ApplyOps(m.db, GcBatch(m.db.events, from, to)));
            && Refines(m', s) && First(m'.db) == to
            && ApplyOps(m'.db, m.wb).data == ApplyOps(m.db, m.wb).data
            && (AtBoundary(m) ==> AtBoundary(m'))
  {
    hide EventsAre, DedupIs, Sound, Layered, AllDeleted, BatchOk, GcBatch;
    var d' := ApplyOps(m.db, GcBatch(m.db.events, from, to));
    GcKeepsDb(m.db, s.history[..Last(m.db)], from, to);
    OverlayData(m.db, d', m.wb);
    UniqueRaise(s.history, First(m.db), to);
    hide ApplyOps, DbOk, Unique;
    SameBatch(m, d');
  }

  lemma UniqueRaise(h: seq<Event>, first: nat, to: nat)
    requires Unique(h, first) && first <= to
    ensures Unique(h, to)
  {
  }

  /** What the batch holds does not depend on the database below it. */
  lemma SameBatch(m: Machine, d: Db)
    requires BatchOk(m)
    ensures BatchOk(m.(db := d))
  {
  }

  /** The two reads of a duplicate lookup are not locked against the collector. If a batch lands
      between them, the event is missing exactly when the batch collected it. */
  lemma RacingLookup(m: Machine, s: State, cmd: Command, from: nat, to: nat)
    requires Refines(m, s) && from == AtLeastOne(First(m.db)) <= to <= Last(m.db)
    requires GetSeqNum(m, cmd.id).Some?
    ensures var n := GetSeqNum(m, cmd.id).value;
            var m' := m.(db := ApplyOps(m.db, GcBatch(m.db.events, from, to)));
            AnswerDuplicate(m', cmd, n) == Err(MissingEvent) <==> n < to
  {
    hide GcBatch, ApplyOps, Refines, DbOk, GetSeqNum, GetEvent, EventsAre, First, Last;
    var n := GetSeqNum(m, cmd.id).value;
    var m' := m.(db := ApplyOps(m.db, GcBatch(m.db.events, from, to)));
    SeqNumRefines(m, s, cmd.id);
    GcRefines(m, s, from, to);
    RefinesDb(m, s);
    GcKeepsDb(m.db, s.history[..Last(m.db)], from, to);
    DbParts(m'.db, s.history[..Last(m.db)]);
    MatchIsNotMissing(cmd, s, n);
    if to <= n { EventRefines(m', s, n); } else { MissingBelow(m, m', s, n, to); }
  }

  lemma RefinesDb(m: Machine, s: State)
    requires Refines(m, s)
    ensures Last(m.db) <= |s.history| && DbOk(m.db, s.history[..Last(m.db)])
  {
    hide DbOk;
  }

  lemma MatchIsNotMissing(cmd: Command, s: State, n: nat)
    requires 1 <= n <= |s.history|
    ensures MatchEvent(cmd, s.history[n - 1]) != Err(MissingEvent)
  {
  }

  lemma MissingBelow(m: Machine, m': Machine, s: State, n: nat, to: nat)
    requires Refines(m, s) && m' == m.(db := m'.db) && 1 <= n < to <= Last(m.db)
    requires EventsAre(m'.db.events, s.history[..Last(m.db)], to)
    ensures GetEvent(m', n).None?
  {
    assert EventsAre(m.eventCache, s.history, Last(m.db) + 1);
  }

  // ---------- when and how far ----------

  datatype GcConfig = GcConfig(countLimit: nat, batchSize: nat, percentage: real)

  /** Configured percentages outside this range are replaced by the default. */
  predicate LegalPercentage(p: real) { 0.05 <= p <= 0.25 }

  /** The share of the limit to collect, rounded down. */
  function GcCount(config: GcConfig): (n: int)
    ensures n as real <= config.countLimit as real * config.percentage < n as real + 1.0
  {
    (config.countLimit as real * config.percentage).Floor
  }

  lemma GcCountBounds(config: GcConfig)
    requires LegalPercentage(config.percentage)
    ensures 0 <= GcCount(config) <= config.countLimit
    ensures config.countLimit > 0 ==> GcCount(config) < config.countLimit
  {
    var l := config.countLimit as real;
    assert l * config.percentage <= l * 0.25 by { MulMono(l, config.percentage, 0.25); }
    assert l * config.percentage >= l * 0.05 by { MulMono(l, 0.05, config.percentage); }
  }

  lemma MulMono(l: real, a: real, b: real)
    requires 0.0 <= l && a <= b
    ensures l * a <= l * b
  {
  }

  /** The new first sequence number, if the retained range has reached the limit. */
  function ShouldGc(config: GcConfig, first: nat, last: nat): (r: Option<nat>)
    requires LegalPercentage(config.percentage) && first <= last
    ensures r.Some? <==> config.countLimit <= last - first
    ensures r.Some? ==> first <= r.value <= last
    ensures r.Some? ==> (r.value - first) as real <= config.countLimit as real * config.percentage
                        < (r.value - first) as real + 1.0
    ensures r.Some? && 0 < config.countLimit ==> config.countLimit - GcCount(config) <= last - r.value
  {
    GcCountBounds(config);
    if last - first < config.countLimit then None else Some(first + GcCount(config))
  }

  function Min(a: nat, b: nat): nat { if a <= b then a else b }

  /** `next` is the first number after a turn that found `first` and `last`: moved by the share of the
      limit, rounded down, if the limit is reached and that share goes past number 1. */
  ghost predicate Turned(config: GcConfig, first: nat, last: nat, next: nat) {
    MovedBy(config.countLimit, ShareOf(config), first, last, next)
  }

  ghost function ShareOf(config: GcConfig): real { config.countLimit as real * config.percentage }

  ghost predicate MovedBy(limit: nat, share: real, first: nat, last: nat, next: nat) {
    if limit <= last - first && (AtLeastOne(first) + 1 - first) as real <= share
    then next >= first && (next - first) as real <= share < (next - first) as real + 1.0
    else next == first
  }

  /** Turns of the collector with nothing added meanwhile. */
  ghost predicate Turns(config: GcConfig, last: nat, firsts: seq<nat>) {
    forall i | 0 <= i < |firsts| - 1 :: Turned(config, firsts[i], last, firsts[i + 1])
  }

  lemma TurnMoves(config: GcConfig, first: nat, last: nat, next: nat)
    requires LegalPercentage(config.percentage) && 40 <= config.countLimit <= last - first
    requires Turned(config, first, last, next)
    ensures first + 2 <= next <= last
  {
    hide MovedBy, ShareOf;
    ShareBounds(config);
    ShareMoves(config.countLimit, first, last, next, ShareOf(config));
  }

  lemma ShareBounds(config: GcConfig)
    requires LegalPercentage(config.percentage) && 40 <= config.countLimit
    ensures 2.0 <= ShareOf(config) <= config.countLimit as real
  {
    var l, p := config.countLimit as real, config.percentage;
    assert 40.0 <= l;
    Share(l, p);
    assert ShareOf(config) == l * p;
  }

  lemma Share(l: real, p: real)
    requires 40.0 <= l && 0.05 <= p <= 0.25
    ensures 2.0 <= l * p <= l
  {
    var low, high := 0.05, 0.25;
    MulMono(l, low, p);
    MulMono(l, p, high);
  }

  lemma ShareMoves(limit: nat, first: nat, last: nat, next: nat, share: real)
    requires 2.0 <= share <= limit as real && limit <= last - first
    requires MovedBy(limit, share, first, last, next)
    ensures first + 2 <= next <= last
  {
    assert AtLeastOne(first) + 1 - first == 1 || AtLeastOne(first) + 1 - first == 2;
  }

  /** With a limit of 40 or more no turn over the limit is idle, so any number of events is brought
      below the limit after finitely many turns: at most one for every two events. */
  lemma {:induction false} TurnsReachTheLimit(config: GcConfig, last: nat, firsts: seq<nat>)
    requires LegalPercentage(config.percentage) && 40 <= config.countLimit
    requires firsts != [] && firsts[0] <= last && Turns(config, last, firsts)
    requires |firsts| > (last - firsts[0]) / 2 + 1
    ensures exists i | 0 <= i < |firsts| :: last - firsts[i] < config.countLimit
    decreases |firsts|
  {
    hide Turned;
    if config.countLimit <= last - firsts[0] {
      TurnMoves(config, firsts[0], last, firsts[1]);
      var rest := firsts[1..];
      forall i | 0 <= i < |rest| - 1 ensures Turned(config, rest[i], last, rest[i + 1]) {
        assert Turned(config, firsts[i + 1], last, firsts[i + 1 + 1]);
      }
      TurnsReachTheLimit(config, last, rest);
      var i :| 0 <= i < |rest| && last - rest[i] < config.countLimit;
      assert firsts[i + 1] == rest[i];
    }
  }

  class EventLogGcLoop {
    const rocks: RocksDb
    const config: GcConfig

    constructor (rocks: RocksDb, config: GcConfig)
      ensures this.rocks == rocks && this.config == config
    {
      this.rocks := rocks;
      this.config := config;
    }

    /** Scan `[from, to)`, then write all deletions and the new first number in one batch. */
    method GcOneBatch(from: nat, to: nat)
      requires from <= to
      modifies rocks
      ensures rocks.db == ApplyOps(old(rocks.db), GcBatch(old(rocks.db.events), from, to))
    {
      var events := rocks.db.events;
      var wb: seq<Op> := [];
      var n := from;
      while n < to
        invariant from <= n <= to
        invariant wb == ScanOps(events, from, n) && rocks.db == old(rocks.db)
      {
        if n in events { wb := wb + DeleteOps(n, events[n]); }
        n := n + 1;
      }
      wb := wb + [PutFirst(to)];
      rocks.Write(wb);
    }

    /** Collect `[max(first, 1), next)` batch by batch. It reaches `next` exactly when there is
        something to collect; a batch size of zero would never end. */
    method Gc(first: nat, next: nat, ghost h: seq<Event>)
      requires 1 <= config.batchSize
      requires DbOk(rocks.db, h) && first == First(rocks.db) && next <= Last(rocks.db)
      modifies rocks
      ensures DbOk(rocks.db, h)
      ensures First(rocks.db) == if AtLeastOne(first) < next then next else first
      ensures rocks.db.data == old(rocks.db.data) && rocks.db.applied == old(rocks.db.applied)
      ensures Last(rocks.db) == old(Last(rocks.db))
    {
      var from := AtLeastOne(first);
      var to := Min(from + config.batchSize, next);
      while from < next
        invariant to == Min(from + config.batchSize, next)
        invariant DbOk(rocks.db, h) && Last(rocks.db) == old(Last(rocks.db))
        invariant rocks.db.data == old(rocks.db.data) && rocks.db.applied == old(rocks.db.applied)
        invariant from == AtLeastOne(First(rocks.db)) && (from <= next || First(rocks.db) == first)
        invariant First(rocks.db) == first || (First(rocks.db) == from <= next && AtLeastOne(first) < next)
        decreases next - from
      {
        GcKeepsDb(rocks.db, h, from, to);
        GcOneBatch(from, to);
        from := to;
        to := Min(from + config.batchSize, next);
      }
    }

    /** One turn of the collector. It asserts `first <= last`, moves the first number forward
        exactly when the batch count reaches past it, and keeps more than
        `countLimit - GcCount` events. */
    method RunOnce(ghost h: seq<Event>) returns (collected: bool)
      requires 1 <= config.batchSize && LegalPercentage(config.percentage)
      requires DbOk(rocks.db, h)
      modifies rocks
      ensures DbOk(rocks.db, h)
      ensures collected <==> old(First(rocks.db)) != First(rocks.db)
      ensures collected <==>
        && config.countLimit <= Last(rocks.db) - old(First(rocks.db))
        && AtLeastOne(old(First(rocks.db))) < old(First(rocks.db)) + GcCount(config)
      ensures Turned(config, old(First(rocks.db)), Last(rocks.db), First(rocks.db))
      ensures Last(rocks.db) == old(Last(rocks.db))
      ensures collected ==> First(rocks.db) == old(First(rocks.db)) + GcCount(config)
      ensures collected ==> config.countLimit - GcCount(config) < Last(rocks.db) - First(rocks.db) + 1
    {
      var first, last := First(rocks.db), Last(rocks.db);
      var next := ShouldGc(config, first, last);
      if next.Some? { Gc(first, next.value, h); }
      collected := next.Some? && AtLeastOne(first) < next.value;
    }
  }
}
