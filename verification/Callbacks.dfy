/** The two ordered queues a write callback passes through between proposal and answer. */
module Callbacks {
  import opened WalletTypes
  import opened Batching

  /** What a raft entry carries: nothing (a new leader's entry), client requests, or a compaction. */
  datatype Payload = Empty | Requests(requests: seq<Request>) | Compact(compactIndex: nat, compactTerm: nat)

  datatype Entry = Entry(term: nat, index: nat, payload: Payload)

  /** A callback waiting for the entry it was proposed as.  The program keeps only the entry's
      term and index with the callback. */
  datatype Registered = Registered(entry: Entry, cb: Callback)

  predicate Earlier(a: Entry, b: Entry) {
    a.term < b.term || (a.term == b.term && a.index < b.index)
  }

  predicate Sorted(q: seq<Registered>) {
    forall i, j | 0 <= i < j < |q| :: Earlier(q[i].entry, q[j].entry)
  }

  // ---------- searching a queue ----------

  /** `Unexpected` is the panic on a callback of the same term but a lower index. */
  datatype Search = Found(rest: seq<Registered>, stale: seq<Registered>, hit: Option<Registered>) | Unexpected

  /** Pop everything up to (term, index): earlier terms are stale, the exact match is the hit. */
  function Find(q: seq<Registered>, e: Entry): Search {
    if q == [] || Earlier(e, q[0].entry) then Found(q, [], None)
    else if q[0].entry.term == e.term then
      if q[0].entry.index == e.index then Found(q[1..], [], Some(q[0])) else Unexpected
    else
      Behind([q[0]], Find(q[1..], e))
  }

  /** A search that first pops some stale registrations. */
  function Behind(stale: seq<Registered>, s: Search): Search {
    if s.Found? then s.(stale := stale + s.stale) else s
  }

  class Queue {
    var queue: seq<Registered>

    constructor ()
      ensures queue == []
    {
      queue := [];
    }

    /** Pop the front unless it lies after the entry. */
    method Pop(e: Entry) returns (r: Option<Registered>)
      modifies this
      ensures r.Some? <==> old(queue) != [] && !Earlier(e, old(queue)[0].entry)
      ensures old(queue) == (if r.Some? then [r.value] else []) + queue
    {
      if queue == [] { return None; }
      var p := queue[0];
      queue := queue[1..];
      if Earlier(e, p.entry) {
        queue := [p] + queue;
        return None;
      }
      return Some(p);
    }

    /** The registration of the entry, with the stale ones popped before it; `ok` is false where
        the program panics. */
    method FindCallback(e: Entry) returns (ok: bool, stale: seq<Registered>, hit: Option<Registered>)
      modifies this
      ensures ok == Find(old(queue), e).Found?
      ensures ok ==> Find(old(queue), e) == Found(queue, stale, hit)
    {
      ok, stale, hit := true, [], None;
      ghost var start := queue;
      var p := Pop(e);
      while p.Some?
        invariant ok
        invariant Find(start, e) == Behind(stale, Find((if p.Some? then [p.value] else []) + queue, e))
        invariant p.Some? ==> !Earlier(e, p.value.entry)
        invariant p.None? ==> queue == [] || Earlier(e, queue[0].entry)
        decreases |queue|, p.Some?
      {
        assert ([p.value] + queue)[1..] == queue;
        if p.value.entry.term == e.term {
          if p.value.entry.index == e.index {
            hit := p;
            assert stale + [] == stale;
            return;
          }
          ok := false;
          return;
        }
        BehindBehind(stale, [p.value], Find(queue, e));
        stale := stale + [p.value];
        p := Pop(e);
      }
      assert [] + queue == queue && stale + [] == stale;
    }

    method Push(p: Registered)
      requires queue == [] || Earlier(queue[|queue| - 1].entry, p.entry)
      modifies this
      ensures queue == old(queue) + [p]
    {
      queue := queue + [p];
    }
  }

  lemma BehindBehind(a: seq<Registered>, b: seq<Registered>, s: Search)
    ensures Behind(a, Behind(b, s)) == Behind(a + b, s)
  {
    if s.Found? { assert a + (b + s.stale) == a + b + s.stale; }
  }

  // ---------- counting callbacks ----------

  ghost function One(cb: Callback): multiset<Callback> {
    if cb.NoCallback? then multiset{} else multiset{cb}
  }

  /** The write callbacks a queue holds. */
  ghost function Owned(q: seq<Registered>): multiset<Callback> {
    if q == [] then multiset{} else Owned(q[..|q| - 1]) + One(q[|q| - 1].cb)
  }

  lemma Reassociate(a: multiset<Callback>, b: multiset<Callback>, c: multiset<Callback>)
    ensures a + b + c == a + (b + c)
  {
  }

  lemma {:induction false} OwnedConcat(a: seq<Registered>, b: seq<Registered>)
    ensures Owned(a + b) == Owned(a) + Owned(b)
  {
    hide One;
    if b == [] {
      assert a + b == a;
    } else {
      hide Owned;
      var init, last := b[..|b| - 1], b[|b| - 1];
      OwnedConcat(a, init);
      assert a + b == (a + init) + [last] && b == init + [last];
      OwnedSnoc(a + init, last);
      OwnedSnoc(init, last);
      Reassociate(Owned(a), Owned(init), One(last.cb));
    }
  }

  lemma OwnedSnoc(a: seq<Registered>, r: Registered)
    ensures Owned(a + [r]) == Owned(a) + One(r.cb)
  {
    assert (a + [r])[..|a|] == a;
  }

  lemma OwnedCons(r: Registered, a: seq<Registered>)
    ensures Owned([r] + a) == One(r.cb) + Owned(a)
  {
    OwnedConcat([r], a);
    OwnedSnoc([], r);
    assert [] + [r] == [r];
  }

  ghost function HitOf(hit: Option<Registered>): seq<Registered> { if hit.Some? then [hit.value] else [] }

  // ---------- what raft guarantees ----------

  /** No peer proposes requests other than those for the message queue. */
  predicate Queued(e: Entry) { e.payload.Requests? ==> AllQueued(e.payload.requests) }

  /** Committed entries are consecutive from 1, with positive, non-decreasing terms. */
  ghost predicate LogOk(log: seq<Entry>) {
    && (forall i | 0 <= i < |log| :: log[i].index == i + 1 && 0 < log[i].term && Queued(log[i]))
    && (forall i, j | 0 <= i <= j < |log| :: log[i].term <= log[j].term)
  }

  ghost predicate Committed(log: seq<Entry>, e: Entry) {
    1 <= e.index <= |log| && log[e.index - 1] == e
  }

  /** Log Matching (section 5.3 of the Raft paper), for the entries this peer proposed: a log that
      reaches an entry of a term in which this peer led holds what it had proposed before it. */
  ghost predicate Matches(log: seq<Entry>, proposed: seq<Registered>) {
    forall k, j | 0 <= k < |proposed| && 0 <= j < |log| ::
      proposed[k].entry.index <= j + 1 && log[j].term == proposed[k].entry.term ==> Committed(log, proposed[k].entry)
  }

  /** A queue of proposals whose entries have not been handed over as committed. */
  ghost predicate QueueOk(q: seq<Registered>, log: seq<Entry>, proposed: seq<Registered>) {
    && Sorted(q)
    && forall k | 0 <= k < |q| :: q[k] in proposed && !Committed(log, q[k].entry)
  }

  // ---------- the search under those guarantees ----------

  /** Registrations that can never be committed any more: a later term is. */
  ghost predicate Outdated(stale: seq<Registered>, log: seq<Entry>) {
    forall k | 0 <= k < |stale| ::
      && !Committed(log, stale[k].entry)
      && log != [] && stale[k].entry.term < log[|log| - 1].term
  }

  /** Nothing of an earlier term, or of an earlier index, is left in the queue. */
  ghost predicate AllAfter(q: seq<Registered>, e: Entry) {
    forall k | 0 <= k < |q| :: Earlier(e, q[k].entry)
  }

  lemma HeadIsExpected(q: seq<Registered>, log: seq<Entry>, proposed: seq<Registered>, e: Entry)
    requires QueueOk(q, log, proposed) && q != []
    requires LogOk(log + [e]) && Matches(log + [e], proposed)
    requires q[0].entry.term == e.term && !Earlier(e, q[0].entry)
    ensures q[0].entry == e
  {
    var log' := log + [e];
    var k :| 0 <= k < |proposed| && proposed[k] == q[0];
    assert log'[|log|] == e;
    assert Committed(log', q[0].entry);
  }

  lemma TailOk(q: seq<Registered>, log: seq<Entry>, proposed: seq<Registered>)
    requires QueueOk(q, log, proposed) && q != []
    ensures QueueOk(q[1..], log, proposed)
  {
  }

  /** A queue all of whose entries lie after the new committed entry stays well-formed. */
  lemma StaysOk(q: seq<Registered>, log: seq<Entry>, proposed: seq<Registered>, e: Entry)
    requires QueueOk(q, log, proposed) && AllAfter(q, e)
    ensures QueueOk(q, log + [e], proposed)
  {
  }

  lemma HeadIsOutdated(q: seq<Registered>, log: seq<Entry>, proposed: seq<Registered>, e: Entry, stale: seq<Registered>)
    requires QueueOk(q, log, proposed) && q != []
    requires q[0].entry.term < e.term && Outdated(stale, log + [e])
    ensures Outdated([q[0]] + stale, log + [e])
  {
    assert !Committed(log + [e], q[0].entry);
  }

  lemma AllLater(q: seq<Registered>, e: Entry)
    requires Sorted(q) && q != [] && Earlier(e, q[0].entry)
    ensures AllAfter(q, e)
  {
  }

  ghost predicate Exact(q: seq<Registered>, s: Search, log: seq<Entry>, proposed: seq<Registered>, e: Entry) {
    && s.Found? && q == s.stale + HitOf(s.hit) + s.rest
    && QueueOk(s.rest, log + [e], proposed)
    && Outdated(s.stale, log + [e])
    && (s.hit.Some? ==> s.hit.value.entry == e)
    && AllAfter(s.rest, e)
  }

  lemma NoneDue(q: seq<Registered>, log: seq<Entry>, proposed: seq<Registered>, e: Entry)
    requires QueueOk(q, log, proposed) && (q == [] || Earlier(e, q[0].entry))
    ensures Exact(q, Found(q, [], None), log, proposed, e)
  {
    if q != [] { AllLater(q, e); }
    StaysOk(q, log, proposed, e);
    assert q == [] + [] + q;
  }

  lemma HeadIsHit(q: seq<Registered>, log: seq<Entry>, proposed: seq<Registered>, e: Entry)
    requires QueueOk(q, log, proposed) && q != [] && q[0].entry == e
    ensures Exact(q, Found(q[1..], [], Some(q[0])), log, proposed, e)
  {
    TailOk(q, log, proposed);
    StaysOk(q[1..], log, proposed, e);
    assert q == [] + [q[0]] + q[1..];
  }

  lemma HeadIsStale(q: seq<Registered>, s: Search, log: seq<Entry>, proposed: seq<Registered>, e: Entry)
    requires QueueOk(q, log, proposed) && q != [] && q[0].entry.term < e.term && Exact(q[1..], s, log, proposed, e)
    ensures Exact(q, Behind([q[0]], s), log, proposed, e)
  {
    hide QueueOk, Outdated;
    HeadIsOutdated(q, log, proposed, e, s.stale);
    assert [q[0]] + s.stale + HitOf(s.hit) + s.rest == [q[0]] + (s.stale + HitOf(s.hit) + s.rest);
  }

  /** The search meets its own entry or nothing: the panic is unreachable, what it pops is the
      queue's front, the hit is the committed entry's own callback, the others are outdated, and no
      outdated one is left behind. */
  lemma {:induction false} FindIsExact(q: seq<Registered>, log: seq<Entry>, proposed: seq<Registered>, e: Entry)
    requires QueueOk(q, log, proposed)
    requires LogOk(log + [e]) && Matches(log + [e], proposed)
    ensures Exact(q, Find(q, e), log, proposed, e)
    decreases |q|
  {
    hide LogOk, Matches, QueueOk, Exact, Behind;
    if q == [] || Earlier(e, q[0].entry) {
      NoneDue(q, log, proposed, e);
    } else if q[0].entry.term == e.term {
      HeadIsExpected(q, log, proposed, e);
      HeadIsHit(q, log, proposed, e);
    } else {
      TailOk(q, log, proposed);
      FindIsExact(q[1..], log, proposed, e);
      HeadIsStale(q, Find(q[1..], e), log, proposed, e);
    }
  }
}
