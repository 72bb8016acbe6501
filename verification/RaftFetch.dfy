/** Reading a range of raft entries: when point reads and a scan give the same answer. */
module RaftFetch {
  import opened WalletTypes
  import opened Callbacks
  import opened RaftLog

  const MULTI_GET_COUNT: nat := 8

  /** The encoded size of an entry. */
  type Sizes = Entry -> nat

  datatype Fetch = Fetched(entries: seq<Entry>) | Panicked

  function Total(size: Sizes, entries: seq<Entry>): nat {
    if entries == [] then 0 else Total(size, entries[..|entries| - 1]) + size(entries[|entries| - 1])
  }

  /** Entries are stored under their index, and no encoding is empty. */
  ghost predicate Stored(m: map<nat, Entry>, size: Sizes) {
    forall i <- m :: m[i].index == i && 0 < size(m[i])
  }

  /** The unbroken run of entries from `low` on, up to `high`. */
  function Unbroken(m: map<nat, Entry>, low: nat, high: nat): seq<Entry>
    decreases high - low
  {
    if low < high && low in m then [m[low]] + Unbroken(m, low + 1, high) else []
  }

  lemma {:induction false} UnbrokenAt(m: map<nat, Entry>, low: nat, high: nat, k: nat)
    requires low <= high && k <= high - low
    ensures k < |Unbroken(m, low, high)| ==> low + k in m && Unbroken(m, low, high)[k] == m[low + k]
    ensures |Unbroken(m, low, high)| <= high - low
    ensures k == |Unbroken(m, low, high)| && low + k < high ==> low + k !in m
    decreases k
  {
    if low < high && low in m {
      UnbrokenShort(m, low + 1, high);
      if k > 0 { UnbrokenAt(m, low + 1, high, k - 1); }
    }
  }

  lemma {:induction false} UnbrokenShort(m: map<nat, Entry>, low: nat, high: nat)
    requires low <= high
    ensures |Unbroken(m, low, high)| <= high - low
    decreases high - low
  {
    if low < high && low in m { UnbrokenShort(m, low + 1, high); }
  }

  /** On a stored log the run is the whole range. */
  lemma {:induction false} WholeRange(m: map<nat, Entry>, full: seq<Entry>, gone: nat, low: nat, high: nat)
    requires Holds(m, full, gone) && gone < low <= high <= |full| + 1
    ensures Unbroken(m, low, high) == full[low - 1..high - 1]
    decreases high - low
  {
    if low < high { WholeRange(m, full, gone, low + 1, high); }
  }

  /** Without a limit the program takes the largest machine word, which no size in memory reaches. */
  predicate Full(total: nat, max: Option<nat>) { max.Some? && max.value <= total }

  /** The limit is reached by some non-empty prefix. */
  ghost predicate Reached(size: Sizes, run: seq<Entry>, max: Option<nat>) {
    exists k :: 0 < k <= |run| && Full(Total(size, run[..k]), max)
  }

  /** The answer: a non-empty prefix that is everything, or the shortest whose size reaches the
      limit; every shorter non-empty prefix is below it. */
  ghost predicate Answer(size: Sizes, run: seq<Entry>, max: Option<nat>, r: seq<Entry>) {
    && r != [] && r <= run
    && (forall k | 0 < k < |r| :: !Full(Total(size, run[..k]), max))
    && (|r| == |run| || Full(Total(size, r), max))
  }

  /** There is at most one such answer. */
  lemma AnswerIsUnique(size: Sizes, run: seq<Entry>, max: Option<nat>, a: seq<Entry>, b: seq<Entry>)
    requires Answer(size, run, max, a) && Answer(size, run, max, b)
    ensures a == b
  {
    assert a == run[..|a|] && b == run[..|b|];
    assert !(0 < |a| < |b|) && !(0 < |b| < |a|);
  }

  lemma TotalStep(size: Sizes, run: seq<Entry>, k: nat)
    requires k < |run|
    ensures Total(size, run[..k + 1]) == Total(size, run[..k]) + size(run[k])
  {
    assert run[..k + 1][..k] == run[..k];
  }

  lemma NotReached(size: Sizes, run: seq<Entry>, max: Option<nat>)
    requires forall k | 0 < k <= |run| :: !Full(Total(size, run[..k]), max)
    ensures !Reached(size, run, max)
  {
  }

  /** Point reads, up to the first index at which the size so far reaches the limit; a missing
      entry panics. */
  method MultiGet(m: map<nat, Entry>, size: Sizes, low: nat, high: nat, max: Option<nat>) returns (r: Fetch)
    requires Stored(m, size) && low < high
    ensures var run := Unbroken(m, low, high);
            if |run| == high - low || Reached(size, run, max)
            then r.Fetched? && Answer(size, run, max, r.entries) else r.Panicked?
  {
    hide Total, Unbroken;
    ghost var run := Unbroken(m, low, high);
    var buf: seq<Entry> := [];
    var total := 0;
    var i := low;
    assert run[..0] == [] && Total(size, run[..0]) == 0 by { NoSize(size); }
    UnbrokenAt(m, low, high, 0);
    while i < high
      invariant low <= i <= high && i - low <= |run| && buf == run[..i - low] && total == Total(size, run[..i - low])
      invariant i > low ==> total > 0
      invariant forall k | 0 < k < i - low :: !Full(Total(size, run[..k]), max)
    {
      UnbrokenAt(m, low, high, i - low);
      if total > 0 && Full(total, max) {
        assert 0 < i - low <= |run| && Full(Total(size, run[..i - low]), max);
        return Fetched(buf);
      }
      if i !in m {
        NotReached(size, run, max);
        return Panicked;
      }
      TotalStep(size, run, i - low);
      buf := buf + [m[i]];
      total := total + size(m[i]);
      i := i + 1;
    }
    return Fetched(buf);
  }

  lemma NoSize(size: Sizes)
    ensures Total(size, []) == 0
  {
  }

  /** The iterator's next key before `high`. */
  method NextKey(m: map<nat, Entry>, from: nat, high: nat) returns (r: Option<nat>)
    ensures r.Some? ==> from <= r.value < high && r.value in m && forall i | from <= i < r.value :: i !in m
    ensures r.None? ==> forall i | from <= i < high :: i !in m
  {
    var k := from;
    while k < high
      invariant from <= k && forall i | from <= i < k :: i !in m
    {
      if k in m { return Some(k); }
      k := k + 1;
    }
    return None;
  }

  /** A scan that stops after the entry with which the size reaches the limit.  A gap panics, a log
      that ends early gives nothing. */
  method Scan(m: map<nat, Entry>, size: Sizes, low: nat, high: nat, max: Option<nat>) returns (r: Fetch)
    requires Stored(m, size) && low < high
    ensures var run := Unbroken(m, low, high);
            if |run| == high - low || Reached(size, run, max)
            then r.Fetched? && Answer(size, run, max, r.entries)
            else if exists i | low + |run| < i < high :: i in m then r.Panicked? else r == Fetched([])
  {
    hide Total, Unbroken;
    ghost var run := Unbroken(m, low, high);
    var buf: seq<Entry> := [];
    var total, nextIndex := 0, low;
    assert run[..0] == [] && Total(size, run[..0]) == 0 by { NoSize(size); }
    UnbrokenAt(m, low, high, 0);
    var key := NextKey(m, low, high);
    while key.Some?
      invariant low <= nextIndex <= high && nextIndex - low <= |run|
      invariant buf == run[..nextIndex - low] && total == Total(size, run[..nextIndex - low])
      invariant forall k | 0 < k <= nextIndex - low :: !Full(Total(size, run[..k]), max)
      invariant key.Some? ==> nextIndex <= key.value < high && key.value in m
      invariant key.Some? ==> forall i | nextIndex <= i < key.value :: i !in m
      invariant key.None? ==> forall i | nextIndex <= i < high :: i !in m
      decreases high - nextIndex, key.Some?
    {
      UnbrokenAt(m, low, high, nextIndex - low);
      if m[key.value].index != nextIndex {
        NotReached(size, run, max);
        return Panicked;
      }
      TotalStep(size, run, nextIndex - low);
      buf := buf + [m[nextIndex]];
      total := total + size(m[nextIndex]);
      nextIndex := nextIndex + 1;
      assert buf == run[..nextIndex - low];
      if Full(total, max) {
        assert 0 < nextIndex - low <= |run| && Full(Total(size, run[..nextIndex - low]), max);
        return Fetched(buf);
      }
      key := NextKey(m, nextIndex, high);
    }
    UnbrokenAt(m, low, high, nextIndex - low);
    if |buf| == high - low { return Fetched(buf); }
    NotReached(size, run, max);
    return Fetched([]);
  }

  /** `fetch_entries_to`: on an unbroken range the number of reads decides the strategy, not the
      answer; they part only where entries are missing before the limit is reached. */
  method FetchEntriesTo(m: map<nat, Entry>, size: Sizes, low: nat, high: nat, max: Option<nat>) returns (r: Fetch)
    requires Stored(m, size)
    ensures high <= low ==> r == Fetched([])
    ensures low < high ==>
      var run := Unbroken(m, low, high);
      if |run| == high - low || Reached(size, run, max) then r.Fetched? && Answer(size, run, max, r.entries)
      else r == if high - low <= MULTI_GET_COUNT || exists i | low + |run| < i < high :: i in m
                then Panicked else Fetched([])
  {
    if high <= low { return Fetched([]); }
    if high - low <= MULTI_GET_COUNT {
      r := MultiGet(m, size, low, high, max);
    } else {
      r := Scan(m, size, low, high, max);
    }
  }
}
