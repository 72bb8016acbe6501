/** The stored raft log: append over a conflicting tail, garbage collection, and term lookups. */
module RaftLog {
  import opened WalletTypes
  import opened Callbacks

  const INIT_INDEX: nat := 5
  const INIT_TERM: nat := 5

  /** The engine holds entries of the peer's log `full`, at least all those after `gone`, and nothing
      else: `full[i]` is the entry with index `i + 1`. */
  ghost predicate Holds(m: map<nat, Entry>, full: seq<Entry>, gone: nat) {
    && (forall i | gone < i <= |full| :: i in m)
    && (forall i <- m :: 1 <= i <= |full| && m[i] == full[i - 1])
  }

  /** The engine has lost entries from the front only: it holds exactly those after `gone`. */
  ghost predicate Keeps(m: map<nat, Entry>, full: seq<Entry>, gone: nat) {
    Holds(m, full, gone) && forall i <- m :: gone < i
  }

  /** New entries: consecutive from `first`. */
  ghost predicate Consecutive(entries: seq<Entry>, first: nat) {
    forall i | 0 <= i < |entries| :: entries[i].index == first + i
  }

  function Put(m: map<nat, Entry>, entries: seq<Entry>): map<nat, Entry> {
    if entries == [] then m
    else
      var e := entries[|entries| - 1];
      Put(m, entries[..|entries| - 1])[e.index := e]
  }

  function Cut(m: map<nat, Entry>, from: nat, to: nat): map<nat, Entry> {
    map i <- m | !(from <= i < to) :: m[i]
  }

  lemma {:induction false} PutAt(m: map<nat, Entry>, entries: seq<Entry>, first: nat)
    requires Consecutive(entries, first)
    ensures forall i: nat :: i in Put(m, entries) <==> i in m || first <= i < first + |entries|
    ensures forall i: nat | i in Put(m, entries) ::
      Put(m, entries)[i] == if first <= i < first + |entries| then entries[i - first] else m[i]
  {
    if entries != [] {
      PutAt(m, entries[..|entries| - 1], first);
    }
  }

  /** Append then cut turns the stored log into the old one up to the first new entry followed by
      the new ones, with nothing of an overwritten longer tail left behind. */
  lemma AppendReplacesTail(m: map<nat, Entry>, full: seq<Entry>, gone: nat, entries: seq<Entry>, first: nat)
    requires Holds(m, full, gone) && entries != [] && Consecutive(entries, first)
    requires gone < first <= |full| + 1
    ensures Holds(Cut(Put(m, entries), first + |entries|, |full| + 1), full[..first - 1] + entries, gone)
  {
    PutAt(m, entries, first);
    var full' := full[..first - 1] + entries;
    var m' := Cut(Put(m, entries), first + |entries|, |full| + 1);
    forall i <- m' ensures 1 <= i <= |full'| && m'[i] == full'[i - 1] {
      if i < first { assert m'[i] == m[i]; }
    }
  }

  lemma CutBelow(m: map<nat, Entry>, full: seq<Entry>, gone: nat, from: nat, to: nat)
    requires Holds(m, full, gone)
    ensures Holds(Cut(m, from, to), full, if from < to && gone < to - 1 then to - 1 else gone)
  {
  }

  lemma CutNothing(m: map<nat, Entry>, from: nat, to: nat)
    requires to <= from
    ensures Cut(m, from, to) == m && m - {} == m
  {
  }

  lemma CutNext(m: map<nat, Entry>, from: nat, to: nat)
    requires from <= to
    ensures Cut(m, from, to + 1) == Cut(m, from, to) - {to}
  {
  }

  lemma MinusNext(m: map<nat, Entry>, wb: set<nat>, k: nat)
    ensures m - (wb + {k}) == m - wb - {k}
  {
  }

  lemma MinusNone(m: map<nat, Entry>)
    ensures m - {} == m
  {
  }

  // ---------- the engine ----------

  ghost predicate IsFirstKey(m: map<nat, Entry>, k: nat) { k in m && forall i <- m :: k <= i }

  class RaftEngine {
    var log: map<nat, Entry>

    constructor (m: map<nat, Entry>)
      ensures log == m
    {
      log := m;
    }

    method AppendImpl(entries: seq<Entry>)
      modifies this
      ensures log == Put(old(log), entries)
    {
      var i := 0;
      while i < |entries|
        invariant 0 <= i <= |entries| && log == Put(old(log), entries[..i])
      {
        log := log[entries[i].index := entries[i]];
        assert entries[..i + 1][..i] == entries[..i];
        i := i + 1;
      }
      assert entries[..i] == entries;
    }

    method CutLogs(from: nat, to: nat)
      modifies this
      ensures log == Cut(old(log), from, to)
    {
      var index := from;
      while index < to
        invariant from <= index && (index == from || index <= to) && log == Cut(old(log), from, index)
      {
        log := log - {index};
        index := index + 1;
      }
      assert Cut(old(log), from, index) == Cut(old(log), from, to);
    }

    /** The first key at or after the start of the log. */
    method Seek() returns (r: Option<nat>)
      ensures r.None? <==> log == map[]
      ensures r.Some? ==> IsFirstKey(log, r.value)
    {
      var rest := log.Keys;
      if rest == {} {
        assert log == map[];
        return None;
      }
      var best: nat :| best in rest;
      rest := rest - {best};
      while rest != {}
        invariant best in log && rest <= log.Keys && forall i <- log :: i in rest || best <= i
        decreases |rest|
      {
        var k: nat :| k in rest;
        if k < best { best := k; }
        rest := rest - {k};
      }
      return Some(best);
    }

    /** Delete [from, to), from the first entry there is if `from` is 0, in write batches of 256.
        The count is `to - start`; `None` is where that subtraction would underflow. */
    method Gc(from: nat, to: nat) returns (count: Option<nat>)
      modifies this
      ensures from >= to || (from == 0 && old(log) == map[]) ==> count == Some(0) && log == old(log)
      ensures from < to && (from == 0 ==> old(log) != map[]) ==>
        exists start: nat :: (if from == 0 then IsFirstKey(old(log), start) else start == from)
          && log == Cut(old(log), start, to)
          && count == if to < start then None else Some(to - start)
    {
      if from >= to { return Some(0); }
      var start := from;
      if from == 0 {
        var first := Seek();
        if first.None? { return Some(0); }
        start := first.value;
      }
      DeleteRange(start, to);
      return if to < start then None else Some(to - start);
    }

    /** Delete in batches of 256. */
    method DeleteRange(start: nat, to: nat)
      modifies this
      ensures log == Cut(old(log), start, to)
    {
      hide Cut;
      var wb: set<nat> := {};
      var idx := start;
      CutNothing(log, start, start);
      while idx < to
        invariant start <= idx && (idx == start || idx <= to)
        invariant log - wb == Cut(old(log), start, idx)
      {
        CutNext(old(log), start, idx);
        MinusNext(log, wb, idx);
        wb := wb + {idx};
        if |wb| >= 256 {
          log := log - wb;
          wb := {};
          MinusNone(log);
        }
        idx := idx + 1;
      }
      log := log - wb;
      if to < start {
        CutNothing(old(log), start, start);
        CutNothing(old(log), start, to);
      }
    }
  }

  // ---------- term lookups ----------

  class PeerStorage {
    const engine: RaftEngine
    var truncatedIndex: nat
    var truncatedTerm: nat
    var lastIndex: nat
    var lastTerm: nat

    /** The storage of a peer whose whole log is `full`. */
    ghost predicate Stores(full: seq<Entry>)
      reads this, engine
    {
      && LogOk(full) && Holds(engine.log, full, truncatedIndex)
      && 1 <= truncatedIndex <= lastIndex == |full|
      && truncatedTerm == full[truncatedIndex - 1].term && lastTerm == full[lastIndex - 1].term
    }

    constructor (e: RaftEngine, tIndex: nat, tTerm: nat, last: nat, lTerm: nat)
      ensures engine == e && truncatedIndex == tIndex && truncatedTerm == tTerm
      ensures lastIndex == last && lastTerm == lTerm
    {
      engine, truncatedIndex, truncatedTerm, lastIndex, lastTerm := e, tIndex, tTerm, last, lTerm;
    }

    predicate CheckRange(low: nat, high: nat)
      reads this
    {
      low <= high && truncatedIndex < low && high <= lastIndex + 1
    }

    /** Outside [truncated, last] the lookup panics; inside, both shortcuts give the term of the
        entry at that index, because terms never decrease. */
    method Term(idx: nat, ghost full: seq<Entry>) returns (r: Option<nat>)
      requires Stores(full)
      ensures r.Some? <==> truncatedIndex <= idx <= lastIndex
      ensures r.Some? ==> r.value == full[idx - 1].term
    {
      if idx == truncatedIndex { return Some(truncatedTerm); }
      if !CheckRange(idx, idx + 1) { return None; }
      if truncatedTerm == lastTerm || idx == lastIndex {
        assert full[truncatedIndex - 1].term <= full[idx - 1].term <= full[lastIndex - 1].term;
        return Some(lastTerm);
      }
      assert idx in engine.log;
      return Some(engine.log[idx].term);
    }

    /** Append the entries of a ready over whatever lies at and after the first of them. */
    method Append(entries: seq<Entry>, ghost full: seq<Entry>, ghost first: nat)
      requires Stores(full) && truncatedIndex < first <= lastIndex + 1
      requires Consecutive(entries, first) && LogOk(full[..first - 1] + entries)
      modifies this`lastIndex, this`lastTerm, engine
      ensures Stores(if entries == [] then full else full[..first - 1] + entries)
    {
      hide LogOk;
      var prevLast := lastIndex;
      if entries == [] { return; }
      var e := entries[|entries| - 1];
      ghost var was := engine.log;
      engine.AppendImpl(entries);
      engine.CutLogs(e.index + 1, prevLast + 1);
      AppendReplacesTail(was, full, truncatedIndex, entries, first);
      lastIndex, lastTerm := e.index, e.term;
    }
  }
}
