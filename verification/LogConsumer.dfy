/** The thread that hands applied raft entries to the wallet, and the loop that receives them. */
module LogConsumer {
  import opened WalletTypes
  import opened Batching
  import opened Callbacks
  import opened RaftLog
  import opened RaftFetch
  import L = Ledger
  import W = WalletMachine
  import Objects = StateMachineObjects

  /** How a payload is parsed into a command. */
  type Parser = seq<uint8> -> L.Command

  const CONSUME_LIMIT: nat := 1000

  /** The commands of an entry; a leader's empty entry and a compaction carry none. */
  function Messages(parse: Parser, e: Entry): seq<L.Command> {
    if e.payload.Requests? then
      seq(|e.payload.requests|, i requires 0 <= i < |e.payload.requests| => parse(e.payload.requests[i].payload))
    else []
  }

  function Parsed(parse: Parser, e: Entry): Objects.LogEntry { Objects.LogEntry(e.index, Messages(parse, e)) }

  function ParseAll(parse: Parser, entries: seq<Entry>): seq<Objects.LogEntry> {
    seq(|entries|, i requires 0 <= i < |entries| => Parsed(parse, entries[i]))
  }

  /** Entries `first` up to, not including, `next`. */
  function Consumed(parse: Parser, log: seq<Entry>, first: nat, next: nat): seq<Objects.LogEntry>
    requires 1 <= first <= next <= |log| + 1
  {
    ParseAll(parse, log[first - 1..next - 1])
  }

  // ---------- what a turn of the consumer does ----------

  /** The first index still in the log and the last applied one, as read at some moment. */
  datatype Window = Window(start: nat, applied: nat)

  function Min(a: nat, b: nat): nat { if a < b then a else b }

  /** What the fetch of [start, end] meets: all of it, a panic, or, for a range long enough to be
      scanned, nothing at all. */
  datatype Meets = All | Nothing | Missing

  predicate Later(m: map<nat, Entry>, from: nat, end: nat) { exists i | from < i <= end :: i in m }

  function Fetching(m: map<nat, Entry>, start: nat, end: nat): Meets
    requires start <= end
  {
    var n, run := end + 1 - start, Unbroken(m, start, end + 1);
    if |run| == n then All
    else if n <= MULTI_GET_COUNT || Later(m, start + |run|, end) then Missing
    else Nothing
  }

  datatype Turn = Wait | Deliver(next: nat) | Skip(next: nat) | Panic

  /** One turn: the window is read, read again by the fetch of the range, and then the engine `m` is
      read.  Neither read locks the engine, so the collector may have deleted what the window still
      showed.  The entries of a short range are read one by one; an engine that loses entries only
      from the front answers them as one of its states does. */
  function TurnOf(m: map<nat, Entry>, logIndex: nat, window: Window, window': Window): Turn {
    if logIndex < window.start then Panic
    else if window.applied < logIndex then Wait
    else
      var end := Min(logIndex + CONSUME_LIMIT, window.applied);
      if logIndex < window'.start || window'.applied < end then Panic
      else
        match Fetching(m, logIndex, end)
        case All => Deliver(end + 1)
        case Nothing => Skip(end + 1)
        case Missing => Panic
  }

  lemma FetchingExactly(m: map<nat, Entry>, log: seq<Entry>, gone: nat, start: nat, end: nat)
    requires Keeps(m, log, gone) && 1 <= start <= end <= |log|
    ensures Fetching(m, start, end) == All <==> gone < start
    ensures Fetching(m, start, end) == Nothing <==> end <= gone && MULTI_GET_COUNT < end + 1 - start
  {
    if gone < start {
      WholeRange(m, log, gone, start, end + 1);
    } else {
      assert Unbroken(m, start, end + 1) == [];
      if gone < end { assert end in m; }
    }
  }

  /** For an engine that keeps exactly the entries after `gone`: a turn delivers if and only if the
      next entry is wanted, inside both windows and not yet gone.  It skips entries silently if and
      only if a range of more than eight is wholly gone between the second window and the read.  In
      every other case it waits or panics. */
  lemma TurnExactly(m: map<nat, Entry>, log: seq<Entry>, gone: nat, logIndex: nat, window: Window, window': Window)
    requires Keeps(m, log, gone) && 1 <= logIndex && window.applied <= window'.applied && window.applied <= |log|
    ensures var turn := TurnOf(m, logIndex, window, window');
            var end := Min(logIndex + CONSUME_LIMIT, window.applied);
            var wanted := window.start <= logIndex <= window.applied && window'.start <= logIndex;
            && (turn.Wait? <==> window.start <= logIndex && window.applied < logIndex)
            && (turn.Deliver? <==> wanted && gone < logIndex)
            && (turn.Skip? <==> wanted && end <= gone && MULTI_GET_COUNT < end + 1 - logIndex)
  {
    hide Fetching;
    if logIndex <= window.applied {
      FetchingExactly(m, log, gone, logIndex, Min(logIndex + CONSUME_LIMIT, window.applied));
    }
  }

  lemma TurnEnds(m: map<nat, Entry>, logIndex: nat, window: Window, window': Window)
    ensures var turn := TurnOf(m, logIndex, window, window');
            turn.Deliver? || turn.Skip? ==> turn.next == Min(logIndex + CONSUME_LIMIT, window.applied) + 1
  {
    hide Fetching;
  }

  // ---------- the consumer ----------

  /** What the consumer has delivered of the log when it is about to read `logIndex`: the first
      `clean` entries without a gap, and everything if it has not skipped any. */
  ghost predicate Feed(parse: Parser, log: seq<Entry>, first: nat, logIndex: nat,
                       channel: seq<Objects.LogEntry>, clean: nat, skipped: bool) {
    && 1 <= first <= first + clean <= logIndex <= |log| + 1 && clean <= |channel|
    && channel[..clean] == Consumed(parse, log, first, first + clean)
    && (!skipped ==> |channel| == clean && first + clean == logIndex)
    && (skipped ==> first + clean < logIndex && (clean < |channel| ==> first + clean < channel[clean].index))
  }

  lemma FeedSame(parse: Parser, before: seq<Entry>, log: seq<Entry>, first: nat, logIndex: nat,
                 channel: seq<Objects.LogEntry>, clean: nat, skipped: bool)
    requires Feed(parse, before, first, logIndex, channel, clean, skipped)
    requires logIndex <= |log| + 1 && before[..logIndex - 1] == log[..logIndex - 1]
    ensures Feed(parse, log, first, logIndex, channel, clean, skipped)
  {
    hide Consumed;
    SamePrefix(parse, before, log, first, first + clean, logIndex - 1);
  }

  lemma FeedSkips(parse: Parser, log: seq<Entry>, first: nat, logIndex: nat, next: nat,
                  channel: seq<Objects.LogEntry>, clean: nat, skipped: bool)
    requires Feed(parse, log, first, logIndex, channel, clean, skipped) && logIndex < next <= |log| + 1
    ensures Feed(parse, log, first, next, channel, clean, true)
  {
    hide Consumed;
  }

  lemma FeedDelivers(parse: Parser, log: seq<Entry>, first: nat, logIndex: nat, next: nat,
                     channel: seq<Objects.LogEntry>, clean: nat, skipped: bool)
    requires LogOk(log)
    requires Feed(parse, log, first, logIndex, channel, clean, skipped) && logIndex < next <= |log| + 1
    ensures Feed(parse, log, first, next, channel + Consumed(parse, log, logIndex, next),
                 if skipped then clean else clean + next - logIndex, skipped)
  {
    hide LogOk, Consumed;
    var more := Consumed(parse, log, logIndex, next);
    NextInOrder(parse, log, logIndex, next);
    if skipped {
      assert (channel + more)[..clean] == channel[..clean];
    } else {
      ConsumedConcat(parse, log, first, logIndex, next);
      assert channel[..clean] == channel && (channel + more)[..clean + |more|] == channel + more;
    }
  }

  datatype Range = Refused | Got(entries: seq<Objects.LogEntry>) | FetchPanicked

  class Consumer {
    const parse: Parser
    const size: Sizes
    const first: nat
    var logIndex: nat
    var channel: seq<Objects.LogEntry>
    /** Whether a turn has skipped entries, and how many were delivered before the first such turn. */
    ghost var skipped: bool
    ghost var clean: nat

    ghost predicate Valid(log: seq<Entry>)
      reads this
    {
      Feed(parse, log, first, logIndex, channel, clean, skipped)
    }

    constructor (parser: Parser, sizes: Sizes, index: nat)
      ensures parse == parser && size == sizes && first == index && logIndex == index && channel == []
      ensures !skipped && clean == 0
    {
      parse, size, first, logIndex, channel := parser, sizes, index, index, [];
      skipped, clean := false, 0;
    }

    /** What was delivered is every entry from the first on exactly if no turn has skipped any. */
    lemma GapFreeExactly(log: seq<Entry>)
      requires LogOk(log) && Valid(log)
      ensures channel == Consumed(parse, log, first, logIndex) <==> !skipped
    {
      assert !skipped ==> channel[..clean] == channel;
      if skipped && |channel| == logIndex - first {
        assert log[first - 1 + clean].index == first + clean;
        assert Consumed(parse, log, first, logIndex)[clean].index == first + clean;
      }
    }

    /** Entries [start, end] of the engine, unless they are out of the window read now. */
    method GetRange(m: map<nat, Entry>, window: Window, start: nat, end: nat) returns (r: Range)
      requires Stored(m, size) && start <= end
      ensures r.Refused? <==> start < window.start || window.applied < end
      ensures !r.Refused? ==>
        match Fetching(m, start, end)
        case All => r == Got(ParseAll(parse, Unbroken(m, start, end + 1)))
        case Nothing => r == Got([])
        case Missing => r == FetchPanicked
    {
      if start < window.start || end > window.applied { return Refused; }
      var fetch := FetchEntriesTo(m, size, start, end + 1, None);
      ghost var run := Unbroken(m, start, end + 1);
      assert !Reached(size, run, None);
      assert Later(m, start + |run|, end) <==> exists i | start + |run| < i < end + 1 :: i in m;
      if fetch.Panicked? { return FetchPanicked; }
      assert |run| == end + 1 - start ==> fetch.entries == run;
      var entries: seq<Objects.LogEntry> := [];
      var i := 0;
      while i < |fetch.entries|
        invariant 0 <= i <= |fetch.entries| && entries == ParseAll(parse, fetch.entries[..i])
      {
        entries := entries + [Parsed(parse, fetch.entries[i])];
        i := i + 1;
      }
      assert fetch.entries[..i] == fetch.entries;
      return Got(entries);
    }

    /** One turn of the consumer, as `TurnOf`: it delivers the wanted entries of the log in order, or
        none of them. */
    method ConsumeOnce(ghost before: seq<Entry>, ghost log: seq<Entry>, ghost gone: nat,
                       m: map<nat, Entry>, window: Window, window': Window) returns (ok: bool, ghost turn: Turn)
      requires Valid(before) && logIndex <= |log| + 1 && before[..logIndex - 1] == log[..logIndex - 1]
      requires LogOk(log) && Holds(m, log, gone) && Stored(m, size) && window.applied <= |log|
      modifies this
      ensures turn == TurnOf(m, old(logIndex), window, window') && ok == !turn.Panic?
      ensures Valid(log)
      ensures logIndex == if turn.Deliver? || turn.Skip? then turn.next else old(logIndex)
      ensures old(logIndex) <= logIndex <= |log| + 1
      ensures channel == old(channel)
                         + if turn.Deliver? then Consumed(parse, log, old(logIndex), logIndex) else []
      ensures skipped == (old(skipped) || turn.Skip?)
    {
      hide Feed, LogOk, Holds, Consumed, Fetching, Unbroken, Stored;
      FeedSame(parse, before, log, first, logIndex, channel, clean, skipped);
      FeedBounds(parse, log, first, logIndex, channel, clean, skipped);
      turn := TurnOf(m, logIndex, window, window');
      ok := true;
      assert channel + [] == channel;
      if logIndex < window.start { return false, turn; }
      if logIndex > window.applied { return; }
      var end := Min(logIndex + CONSUME_LIMIT, window.applied);
      var range := GetRange(m, window', logIndex, end);
      if !range.Got? { return false, turn; }
      FetchedIsConsumed(parse, m, log, gone, logIndex, end);
      if turn.Skip? {
        FeedSkips(parse, log, first, logIndex, end + 1, channel, clean, skipped);
      } else {
        FeedDelivers(parse, log, first, logIndex, end + 1, channel, clean, skipped);
      }
      Send(range.entries);
      if turn.Skip? {
        skipped := true;
      } else if !skipped {
        clean := clean + end + 1 - logIndex;
      }
      logIndex := end + 1;
    }

    method Send(entries: seq<Objects.LogEntry>)
      modifies `channel
      ensures channel == old(channel) + entries
    {
      var i := 0;
      while i < |entries|
        invariant 0 <= i <= |entries| && channel == old(channel) + entries[..i]
      {
        channel := channel + [entries[i]];
        i := i + 1;
      }
      assert entries[..i] == entries;
    }
  }

  lemma FeedBounds(parse: Parser, log: seq<Entry>, first: nat, logIndex: nat,
                   channel: seq<Objects.LogEntry>, clean: nat, skipped: bool)
    requires Feed(parse, log, first, logIndex, channel, clean, skipped)
    ensures 1 <= first <= logIndex <= |log| + 1
  {
  }

  lemma SamePrefix(parse: Parser, before: seq<Entry>, log: seq<Entry>, first: nat, next: nat, n: nat)
    requires 1 <= first <= next <= n + 1 && n <= |before| && n <= |log| && before[..n] == log[..n]
    ensures Consumed(parse, before, first, next) == Consumed(parse, log, first, next)
  {
    assert before[first - 1..next - 1] == before[..n][first - 1..next - 1];
    assert log[first - 1..next - 1] == log[..n][first - 1..next - 1];
  }

  lemma FetchedIsConsumed(parse: Parser, m: map<nat, Entry>, log: seq<Entry>, gone: nat, start: nat, end: nat)
    requires Holds(m, log, gone) && 1 <= start <= end <= |log|
    ensures Fetching(m, start, end) == All ==>
      ParseAll(parse, Unbroken(m, start, end + 1)) == Consumed(parse, log, start, end + 1)
  {
    var run, n := Unbroken(m, start, end + 1), end + 1 - start;
    if |run| == n {
      forall k | 0 <= k < n ensures run[k] == log[start - 1 + k] { UnbrokenAt(m, start, end + 1, k); }
      assert run == log[start - 1..end];
    }
  }

  lemma ConsumedConcat(parse: Parser, log: seq<Entry>, a: nat, b: nat, c: nat)
    requires 1 <= a <= b <= c <= |log| + 1
    ensures Consumed(parse, log, a, b) + Consumed(parse, log, b, c) == Consumed(parse, log, a, c)
  {
    assert log[a - 1..c - 1] == log[a - 1..b - 1] + log[b - 1..c - 1];
  }

  lemma ConsumedSlice(parse: Parser, log: seq<Entry>, first: nat, n: nat, i: nat, j: nat)
    requires 1 <= first && first + n <= |log| + 1 && i <= j <= n
    ensures |Consumed(parse, log, first, first + n)| == n
    ensures Consumed(parse, log, first, first + n)[i..j] == Consumed(parse, log, first + i, first + j)
  {
    ConsumedConcat(parse, log, first, first + i, first + n);
    ConsumedConcat(parse, log, first + i, first + j, first + n);
  }

  lemma NextInOrder(parse: Parser, log: seq<Entry>, first: nat, next: nat)
    requires LogOk(log) && 1 <= first <= next <= |log| + 1
    ensures var buf := Consumed(parse, log, first, next);
            |buf| == next - first && forall i | 0 <= i < |buf| :: buf[i].index == first + i
  {
    var buf := Consumed(parse, log, first, next);
    forall i | 0 <= i < |buf| ensures buf[i].index == first + i {
      var j := first - 1 + i;
      assert buf[i] == Parsed(parse, log[j]) && log[j].index == j + 1;
    }
  }

  // ---------- the receiving loop ----------

  /** The apply loop at the other end of the channel. */
  class ApplyLoop {
    const machine: Objects.StateMachine
    const ctx: Objects.ApplyContext
    const consumer: Consumer
    var received: nat

    /** What the machine has applied is what was taken from the channel, all before the first skip. */
    ghost predicate Aligned(log: seq<Entry>)
      reads this, consumer, machine, ctx
    {
      && consumer.Valid(log) && received <= consumer.clean
      && machine.appliedIndex + 1 == consumer.first + received
      && ctx.flushedAppliedIndex <= machine.appliedIndex
    }

    constructor (m: Objects.StateMachine, c: Objects.ApplyContext, consumer': Consumer)
      ensures machine == m && ctx == c && consumer == consumer' && received == 0
    {
      machine, ctx, consumer, received := m, c, consumer', 0;
    }

    /** One turn: the assertions on `applied_index + 1` hold exactly if the entries taken were all
        delivered before the first skip (and a batch size of zero has something to flush).  Then the
        machine applies the messages of just those log entries. */
    method Turn(ghost log: seq<Entry>, n: nat, idleMs: nat) returns (ok: bool)
      requires LogOk(log) && Aligned(log) && n <= Min(CONSUME_LIMIT, |consumer.channel| - received)
      modifies this, machine, ctx, machine.rocks
      ensures ok <==> old(received) + n <= consumer.clean
                      && (0 < ctx.batchSize || old(ctx.flushedAppliedIndex) < old(machine.appliedIndex) + n)
      ensures ok ==> Aligned(log) && received == old(received) + n
      ensures ok ==> var m := Objects.ApplyAll(old(machine.Abs(ctx)),
                       Consumed(consumer.parse, log, consumer.first + old(received), consumer.first + received), n);
              var waiting := m.appliedIndex - m.flushedIndex;
              machine.Abs(ctx) == if ctx.batchSize <= waiting || (0 < waiting && 100 < idleMs) then W.Flush(m) else m
    {
      hide LogOk, Consumed, Objects.ApplyAll, W.Flush;
      var buf := consumer.channel[received..received + n];
      InOrderExactly(consumer, log, received, buf);
      ok := machine.RunOnce(ctx, buf, idleMs);
      received := received + n;
    }
  }

  lemma InOrderExactly(c: Consumer, log: seq<Entry>, from: nat, buf: seq<Objects.LogEntry>)
    requires LogOk(log) && c.Valid(log) && from <= c.clean && from + |buf| <= |c.channel|
    requires buf == c.channel[from..from + |buf|]
    ensures Objects.InOrder(buf, c.first + from - 1) <==> from + |buf| <= c.clean
    ensures from + |buf| <= c.clean ==>
      && c.first + from + |buf| <= |log| + 1
      && buf == Consumed(c.parse, log, c.first + from, c.first + from + |buf|)
  {
    if from + |buf| <= c.clean {
      assert c.channel[..c.clean][from..from + |buf|] == c.channel[from..from + |buf|];
      ConsumedSlice(c.parse, log, c.first, c.clean, from, from + |buf|);
      NextInOrder(c.parse, log, c.first + from, c.first + from + |buf|);
    } else {
      assert buf[c.clean - from] == c.channel[c.clean];
    }
  }
}
