/** Propose, commit, apply: every write callback is answered exactly once. */
module CallbackSystem {
  import opened WalletTypes
  import opened Batching
  import opened Callbacks

  const STALE := RaftCmdResponse(Some("stale command"), [])

  /** A callback invoked, or about to be: rejected at proposal, or answered for its entry. */
  datatype Answer = Rejected(cb: Callback, error: string) | Reply(cb: Callback, entry: Entry, resp: RaftCmdResponse)

  datatype ApplyTask = ApplyTask(entries: seq<Entry>, cbs: seq<Registered>)

  /** `proposals` is the peer's queue, `tasks` the channel to the apply thread, `pending` the queue
      of the apply thread, `batch` the answers it holds back until its next write to the engine.
      `committed` and `proposed` record the run. */
  datatype Peer = Peer(
    term: nat,
    proposals: seq<Registered>,
    tasks: seq<ApplyTask>,
    pending: seq<Registered>,
    applied: nat,
    commitIndex: nat,
    commitTerm: nat,
    batch: seq<Answer>,
    invoked: seq<Answer>,
    committed: seq<Entry>,
    proposed: seq<Registered>)

  /** A peer that has just started, in `term`, with `history` applied before.  A bootstrapped log
      begins after index 5; its compacted head counts as empty entries of term 5. */
  function Started(history: seq<Entry>, term: nat): Peer {
    var n := |history|;
    Peer(term, [], [], [], n, n, if n == 0 then 0 else history[n - 1].term, [], [], history, [])
  }

  /** The response an applied entry produces. */
  function ResponseOf(e: Entry): RaftCmdResponse {
    match e.payload
    case Requests(rs) => RaftCmdResponse(None, Positions(e.index, |rs|))
    case _ => RaftCmdResponse(None, [])
  }

  // ---------- commit: from the peer's queue to an apply task ----------

  datatype Handover = Handover(rest: seq<Registered>, stale: seq<Registered>, cbs: seq<Registered>) | Panic

  function HandOver(q: seq<Registered>, entries: seq<Entry>): Handover {
    if entries == [] then Handover(q, [], [])
    else
      match HandOver(q, entries[..|entries| - 1])
      case Panic => Panic
      case Handover(rest, stale, cbs) =>
        match Find(rest, entries[|entries| - 1])
        case Unexpected => Panic
        case Found(rest', stale', hit) => Handover(rest', stale + stale', cbs + Kept(hit))
  }

  /** A proposal without a callback is not handed over. */
  function Kept(hit: Option<Registered>): seq<Registered> {
    if hit.Some? && !hit.value.cb.NoCallback? then [hit.value] else []
  }

  function StaleReplies(q: seq<Registered>): seq<Answer> {
    seq(|q|, i requires 0 <= i < |q| => Reply(q[i].cb, q[i].entry, STALE))
  }

  // ---------- apply ----------

  datatype Applying = Applying(pending: seq<Registered>, batch: seq<Answer>, invoked: seq<Answer>) | ApplyPanic

  /** The registrations of earlier terms at the front of the queue. */
  function OlderCount(q: seq<Registered>, term: nat): (n: nat)
    ensures n <= |q| && (forall i | 0 <= i < n :: q[i].entry.term < term)
    ensures n < |q| ==> term <= q[n].entry.term
  {
    if q == [] || term <= q[0].entry.term then 0 else 1 + OlderCount(q[1..], term)
  }

  function ApplyEntry(a: Applying, e: Entry): Applying
    requires a.Applying?
  {
    match e.payload
    case Empty =>
      if e.term == 0 then ApplyPanic
      else
        var n := OlderCount(a.pending, e.term);
        Applying(a.pending[n..], a.batch + StaleReplies(a.pending[..n]), a.invoked)
    case _ =>
      if e.index == 0 || !Queued(e) then ApplyPanic
      else
        match Find(a.pending, e)
        case Unexpected => ApplyPanic
        case Found(rest, stale, hit) =>
          Applying(rest, a.batch + (if hit.Some? then [Reply(hit.value.cb, e, ResponseOf(e))] else []),
                   a.invoked + StaleReplies(stale))
  }

  function ApplyAll(applied: nat, a: Applying, entries: seq<Entry>): Applying
    requires a.Applying?
  {
    if entries == [] then a
    else
      var n := |entries| - 1;
      var r := ApplyAll(applied, a, entries[..n]);
      if r.ApplyPanic? || entries[n].index != applied + n + 1 then ApplyPanic else ApplyEntry(r, entries[n])
  }

  // ---------- the system ----------

  datatype Action =
    | Propose(cb: Callback, payload: Payload, index: nat)
    | Reject(cb: Callback, error: string)
    | NewTerm(term: nat)
    | Commit(entries: seq<Entry>)
    | Apply
    | WriteToDb

  /** What raft grants: a proposal lands after everything proposed and committed so far, the terms
      grow, committed entries follow one another and match what this peer proposed. */
  ghost predicate Enabled(s: Peer, action: Action) {
    match action
    case Propose(cb, payload, index) =>
      && Proposable(payload) && |s.committed| < index && 0 < s.term
      && (s.proposed == [] || Earlier(s.proposed[|s.proposed| - 1].entry, Entry(s.term, index, payload)))
    case Reject(_, _) => true
    case NewTerm(term) => s.term <= term
    case Commit(entries) =>
      && entries != [] && LogOk(s.committed + entries) && Matches(s.committed + entries, s.proposed)
      && entries[|entries| - 1].term <= s.term
    case Apply => s.tasks != []
    case WriteToDb => true
  }

  /** What `inspect` lets through; it calls anything else unreachable. */
  predicate Proposable(payload: Payload) {
    match payload
    case Empty => false
    case Requests(rs) => rs != [] && AllQueued(rs)
    case Compact(_, _) => true
  }

  /** `None` is a panic of the program. */
  function Step(s: Peer, action: Action): Option<Peer> {
    match action
    case Propose(cb, payload, index) =>
      var r := Registered(Entry(s.term, index, payload), cb);
      if !Proposable(payload) then None
      else if s.proposals != [] && !Earlier(s.proposals[|s.proposals| - 1].entry, r.entry) then None
      else Some(s.(proposals := s.proposals + [r], proposed := s.proposed + [r]))
    case Reject(cb, error) => Some(s.(invoked := s.invoked + [Rejected(cb, error)]))
    case NewTerm(term) => Some(s.(term := term))
    case Commit(entries) =>
      (match HandOver(s.proposals, entries)
       case Panic => None
       case Handover(rest, stale, cbs) =>
         Some(s.(proposals := rest, invoked := s.invoked + StaleReplies(stale),
                 tasks := s.tasks + [ApplyTask(entries, cbs)], committed := s.committed + entries)))
    case Apply => if s.tasks == [] || s.tasks[0].entries == [] then None else ApplyStep(s, s.tasks[0])
    case WriteToDb => Some(s.(invoked := s.invoked + s.batch, batch := []))
  }

  function ApplyStep(s: Peer, task: ApplyTask): Option<Peer>
    requires s.tasks != [] && task.entries != []
  {
    var last := task.entries[|task.entries| - 1];
    if s.commitIndex > last.index || s.commitTerm > last.term then None
    else
      match ApplyAll(s.applied, Applying(s.pending + task.cbs, s.batch, s.invoked), task.entries)
      case ApplyPanic => None
      case Applying(pending, batch, invoked) =>
        Some(s.(tasks := s.tasks[1..], pending := pending, batch := batch, invoked := invoked,
                applied := s.applied + |task.entries|, commitIndex := last.index, commitTerm := last.term))
  }

  // ---------- counting ----------

  ghost function Answered(answers: seq<Answer>): multiset<Callback> {
    if answers == [] then multiset{} else Answered(answers[..|answers| - 1]) + One(answers[|answers| - 1].cb)
  }

  ghost function Scheduled(tasks: seq<ApplyTask>): multiset<Callback> {
    if tasks == [] then multiset{} else Owned(tasks[0].cbs) + Scheduled(tasks[1..])
  }

  lemma AnsweredSnoc(a: seq<Answer>, x: Answer)
    ensures Answered(a + [x]) == Answered(a) + One(x.cb)
  {
    assert (a + [x])[..|a|] == a;
  }

  lemma {:induction false} AnsweredConcat(a: seq<Answer>, b: seq<Answer>)
    ensures Answered(a + b) == Answered(a) + Answered(b)
  {
    hide One;
    if b == [] {
      assert a + b == a;
    } else {
      hide Answered;
      var init, last := b[..|b| - 1], b[|b| - 1];
      AnsweredConcat(a, init);
      assert a + b == (a + init) + [last] && b == init + [last];
      AnsweredSnoc(a + init, last);
      AnsweredSnoc(init, last);
      Reassociate(Answered(a), Answered(init), One(last.cb));
    }
  }

  lemma {:induction false} AnsweredStale(q: seq<Registered>)
    ensures Answered(StaleReplies(q)) == Owned(q)
  {
    hide One;
    if q != [] {
      var n := |q| - 1;
      AnsweredStale(q[..n]);
      assert StaleReplies(q) == StaleReplies(q[..n]) + [Reply(q[n].cb, q[n].entry, STALE)];
      AnsweredSnoc(StaleReplies(q[..n]), Reply(q[n].cb, q[n].entry, STALE));
    }
  }

  lemma {:induction false} ScheduledSnoc(tasks: seq<ApplyTask>, task: ApplyTask)
    ensures Scheduled(tasks + [task]) == Scheduled(tasks) + Owned(task.cbs)
  {
    hide Owned;
    if tasks == [] {
      assert [] + [task] == [task] && [task][1..] == [];
    } else {
      ScheduledSnoc(tasks[1..], task);
      assert (tasks + [task])[1..] == tasks[1..] + [task];
    }
  }

  lemma OwnedKept(hit: Option<Registered>)
    ensures Owned(Kept(hit)) == Owned(HitOf(hit))
  {
    if hit.Some? {
      OwnedSnoc([], hit.value);
      assert [] + [hit.value] == [hit.value];
    }
  }

  // ---------- committing ----------

  /** The callbacks of an apply task: in order, each for one of its entries that carries requests. */
  ghost predicate TaskOk(task: ApplyTask) {
    && Sorted(task.cbs)
    && forall k | 0 <= k < |task.cbs| :: task.cbs[k].entry in task.entries && !task.cbs[k].entry.payload.Empty?
  }

  ghost predicate Payloads(proposed: seq<Registered>) {
    forall k | 0 <= k < |proposed| :: !proposed[k].entry.payload.Empty? && 0 < proposed[k].entry.index
  }

  ghost predicate Within(q: seq<Registered>, proposed: seq<Registered>) {
    forall k | 0 <= k < |q| :: q[k] in proposed
  }

  /** Where a queued registration is after entries were committed: still queued, found outdated, or
      committed and handed over with its callback. */
  ghost predicate Placed(r: Registered, h: Handover, log: seq<Entry>)
    requires h.Handover?
  {
    || r in h.rest
    || r in h.stale
    || (Committed(log, r.entry) && (r.cb.NoCallback? || r in h.cbs))
  }

  ghost predicate HandoverOk(h: Handover, q: seq<Registered>, log: seq<Entry>, entries: seq<Entry>,
                             proposed: seq<Registered>) {
    && h.Handover?
    && QueueOk(h.rest, log + entries, proposed)
    && Outdated(h.stale, log + entries)
    && TaskOk(ApplyTask(entries, h.cbs))
    && Within(h.stale, proposed) && Within(h.cbs, proposed)
    && Owned(q) == Owned(h.stale) + Owned(h.cbs) + Owned(h.rest)
    && (entries != [] ==> AllAfter(h.rest, entries[|entries| - 1]))
    && (forall k | 0 <= k < |q| :: Placed(q[k], h, log + entries))
  }

  lemma LogOkPrefix(log: seq<Entry>, log': seq<Entry>)
    requires LogOk(log') && log <= log'
    ensures LogOk(log)
  {
  }

  lemma MatchesPrefix(log: seq<Entry>, log': seq<Entry>, proposed: seq<Registered>)
    requires Matches(log', proposed) && log <= log'
    ensures Matches(log, proposed)
  {
    forall k, j | 0 <= k < |proposed| && 0 <= j < |log|
                  && proposed[k].entry.index <= j + 1 && log[j].term == proposed[k].entry.term
      ensures Committed(log, proposed[k].entry)
    {
      assert log'[j] == log[j];
      assert Committed(log', proposed[k].entry);
    }
  }

  lemma OutdatedExtends(stale: seq<Registered>, log: seq<Entry>, e: Entry)
    requires Outdated(stale, log) && LogOk(log + [e])
    ensures Outdated(stale, log + [e])
  {
    forall k | 0 <= k < |stale|
      ensures !Committed(log + [e], stale[k].entry) && stale[k].entry.term < e.term
    {
      var log' := log + [e];
      assert log != [] && log'[|log| - 1] == log[|log| - 1] && log'[|log|] == e;
      assert log'[|log| - 1].term <= log'[|log|].term;
    }
  }

  lemma TaskExtends(entries: seq<Entry>, cbs: seq<Registered>, hit: Option<Registered>, e: Entry, from: nat)
    requires TaskOk(ApplyTask(entries, cbs))
    requires forall i | 0 <= i < |entries| :: entries[i].index == from + i + 1 && entries[i].term <= e.term
    requires e.index == from + |entries| + 1
    requires hit.Some? ==> hit.value.entry == e && !e.payload.Empty?
    ensures TaskOk(ApplyTask(entries + [e], cbs + Kept(hit)))
  {
    var cbs' := cbs + Kept(hit);
    forall k | 0 <= k < |cbs'| ensures cbs'[k].entry in entries + [e] && !cbs'[k].entry.payload.Empty? {
      if k < |cbs| {
        assert cbs'[k] == cbs[k];
      } else {
        assert cbs'[k].entry == e && (entries + [e])[|entries|] == e;
      }
    }
  }

  lemma HandoverStep(q: seq<Registered>, log: seq<Entry>, entries: seq<Entry>, proposed: seq<Registered>,
                     h: Handover, e: Entry)
    requires HandoverOk(h, q, log, entries, proposed) && Payloads(proposed)
    requires LogOk(log + entries + [e]) && Matches(log + entries + [e], proposed)
    ensures var s := Find(h.rest, e);
            && s.Found?
            && HandoverOk(Handover(s.rest, h.stale + s.stale, h.cbs + Kept(s.hit)), q, log, entries + [e], proposed)
  {
    hide Find, LogOk, Matches, QueueOk, TaskOk, Outdated, Owned, Placed, AllAfter, Within;
    var s := Find(h.rest, e);
    FindIsExact(h.rest, log + entries, proposed, e);
    assert log + entries + [e] == log + (entries + [e]);
    var h' := Handover(s.rest, h.stale + s.stale, h.cbs + Kept(s.hit));
    forall k | 0 <= k < |q| ensures Placed(q[k], h', log + entries + [e]) {
      HandoverPlaced(q[k], h, s, log + entries, e);
    }
    HandoverStale(h.stale, s.stale, log + entries, e);
    HandoverTask(h, log, entries, proposed, e, s);
    HandoverOwned(h, e, s);
    HandoverWithin(h, s, log + entries, proposed);
  }

  lemma HandoverPlaced(r: Registered, h: Handover, s: Search, log: seq<Entry>, e: Entry)
    requires h.Handover? && s.Found? && h.rest == s.stale + HitOf(s.hit) + s.rest
    requires LogOk(log + [e]) && (s.hit.Some? ==> s.hit.value.entry == e)
    requires Placed(r, h, log)
    ensures Placed(r, Handover(s.rest, h.stale + s.stale, h.cbs + Kept(s.hit)), log + [e])
  {
    assert (log + [e])[|log|] == e && e.index == |log| + 1;
    if Committed(log, r.entry) { assert (log + [e])[r.entry.index - 1] == r.entry; }
  }

  lemma HandoverWithin(h: Handover, s: Search, log: seq<Entry>, proposed: seq<Registered>)
    requires h.Handover? && s.Found? && h.rest == s.stale + HitOf(s.hit) + s.rest
    requires QueueOk(h.rest, log, proposed) && Within(h.stale, proposed) && Within(h.cbs, proposed)
    ensures Within(h.stale + s.stale, proposed) && Within(h.cbs + Kept(s.hit), proposed)
  {
    forall k | 0 <= k < |s.stale| ensures s.stale[k] in proposed { assert h.rest[k] == s.stale[k]; }
    if s.hit.Some? { assert h.rest[|s.stale|] == s.hit.value; }
  }

  lemma HandoverStale(a: seq<Registered>, b: seq<Registered>, log: seq<Entry>, e: Entry)
    requires Outdated(a, log) && Outdated(b, log + [e]) && LogOk(log + [e])
    ensures Outdated(a + b, log + [e])
  {
    OutdatedExtends(a, log, e);
  }

  lemma HandoverTask(h: Handover, log: seq<Entry>, entries: seq<Entry>, proposed: seq<Registered>, e: Entry, s: Search)
    requires h.Handover? && TaskOk(ApplyTask(entries, h.cbs)) && LogOk(log + entries + [e]) && Payloads(proposed)
    requires QueueOk(h.rest, log + entries, proposed)
    requires s.Found? && h.rest == s.stale + HitOf(s.hit) + s.rest
    requires s.hit.Some? ==> s.hit.value.entry == e
    ensures TaskOk(ApplyTask(entries + [e], h.cbs + Kept(s.hit)))
  {
    hide TaskOk;
    var all := log + entries + [e];
    assert all[|log| + |entries|] == e;
    forall i | 0 <= i < |entries| ensures entries[i].index == |log| + i + 1 && entries[i].term <= e.term {
      assert all[|log| + i] == entries[i];
    }
    if s.hit.Some? {
      assert h.rest[|s.stale|] == s.hit.value;
    }
    TaskExtends(entries, h.cbs, s.hit, e, |log|);
  }

  lemma HandoverOwned(h: Handover, e: Entry, s: Search)
    requires h.Handover? && s.Found? && h.rest == s.stale + HitOf(s.hit) + s.rest
    ensures Owned(h.stale + s.stale) + Owned(h.cbs + Kept(s.hit)) + Owned(s.rest)
         == Owned(h.stale) + Owned(h.cbs) + Owned(h.rest)
  {
    hide Owned;
    OwnedConcat(s.stale + HitOf(s.hit), s.rest);
    OwnedConcat(s.stale, HitOf(s.hit));
    OwnedConcat(h.stale, s.stale);
    OwnedConcat(h.cbs, Kept(s.hit));
    OwnedKept(s.hit);
  }

  lemma {:induction false} HandoverIsExact(q: seq<Registered>, log: seq<Entry>, entries: seq<Entry>,
                                           proposed: seq<Registered>)
    requires QueueOk(q, log, proposed) && Payloads(proposed)
    requires LogOk(log + entries) && Matches(log + entries, proposed)
    ensures HandoverOk(HandOver(q, entries), q, log, entries, proposed)
    decreases |entries|
  {
    hide Find, LogOk, Matches, QueueOk, Payloads;
    if entries == [] {
      assert log + [] == log;
    } else {
      var init, e := entries[..|entries| - 1], entries[|entries| - 1];
      assert log + entries == log + init + [e] && init + [e] == entries;
      LogOkPrefix(log + init, log + entries);
      MatchesPrefix(log + init, log + entries, proposed);
      HandoverIsExact(q, log, init, proposed);
      HandoverStep(q, log, init, proposed, HandOver(q, init), e);
    }
  }

  // ---------- applying ----------

  /** The entry at the front of the apply queue is never passed over: what is left after an entry
      belongs to later entries of the same task, and nothing was stale. */
  ghost predicate RestOk(pending: seq<Registered>, entries: seq<Entry>, from: nat, n: nat) {
    && Sorted(pending)
    && forall k | 0 <= k < |pending| ::
      && !pending[k].entry.payload.Empty?
      && from + n < pending[k].entry.index <= from + |entries|
      && entries[pending[k].entry.index - from - 1] == pending[k].entry
  }

  /** The entries of a task: consecutive after `from`, terms positive and non-decreasing. */
  ghost predicate Run(entries: seq<Entry>, from: nat) {
    && (forall i | 0 <= i < |entries| :: entries[i].index == from + i + 1 && 0 < entries[i].term && Queued(entries[i]))
    && (forall i, j | 0 <= i <= j < |entries| :: entries[i].term <= entries[j].term)
  }

  lemma TaskRest(task: ApplyTask, from: nat)
    requires TaskOk(task) && Run(task.entries, from)
    ensures RestOk(task.cbs, task.entries, from, 0)
  {
    forall k | 0 <= k < |task.cbs|
      ensures var e := task.cbs[k].entry;
              from < e.index <= from + |task.entries| && task.entries[e.index - from - 1] == e
    {
      var i :| 0 <= i < |task.entries| && task.entries[i] == task.cbs[k].entry;
    }
  }

  /** One entry against the apply queue: its own callback is popped if it is there, and nothing else. */
  lemma FrontIsNext(pending: seq<Registered>, entries: seq<Entry>, from: nat, n: nat)
    requires Run(entries, from) && n < |entries| && RestOk(pending, entries, from, n)
    ensures var e := entries[n];
            var mine := pending != [] && pending[0].entry == e;
            && OlderCount(pending, e.term) == 0
            && (mine ==> !e.payload.Empty?)
            && Find(pending, e) == (if mine then Found(pending[1..], [], Some(pending[0]))
                                    else Found(pending, [], None))
            && RestOk(if mine then pending[1..] else pending, entries, from, n + 1)
  {
    var e := entries[n];
    assert e.index == from + n + 1 && 0 < e.term;
    if pending != [] {
      var p := pending[0].entry;
      assert entries[p.index - from - 1] == p && e.term <= p.term;
      if p != e {
        assert p.index != e.index;
        assert Earlier(e, p);
      }
      RestAdvances(pending, entries, from, n);
    }
  }

  lemma EarlierIsBefore(entries: seq<Entry>, from: nat, i: nat, j: nat)
    requires Run(entries, from) && i < |entries| && j < |entries|
    ensures Earlier(entries[i], entries[j]) ==> i < j
  {
  }

  lemma LaterIndex(pending: seq<Registered>, entries: seq<Entry>, from: nat, n: nat, k: nat)
    requires Run(entries, from) && RestOk(pending, entries, from, n) && 0 < k < |pending|
    ensures pending[0].entry.index < pending[k].entry.index
  {
    hide Run;
    var p, q := pending[0].entry, pending[k].entry;
    assert Earlier(p, q);
    EarlierIsBefore(entries, from, p.index - from - 1, q.index - from - 1);
  }

  lemma RestDropped(pending: seq<Registered>, entries: seq<Entry>, from: nat, n: nat)
    requires RestOk(pending, entries, from, n) && pending != []
    requires forall k | 0 < k < |pending| :: from + n + 1 < pending[k].entry.index
    ensures RestOk(pending[1..], entries, from, n + 1)
  {
  }

  lemma RestKept(pending: seq<Registered>, entries: seq<Entry>, from: nat, n: nat)
    requires RestOk(pending, entries, from, n)
    requires forall k | 0 <= k < |pending| :: from + n + 1 < pending[k].entry.index
    ensures RestOk(pending, entries, from, n + 1)
  {
  }

  lemma RestAdvances(pending: seq<Registered>, entries: seq<Entry>, from: nat, n: nat)
    requires Run(entries, from) && n < |entries| && RestOk(pending, entries, from, n) && pending != []
    ensures RestOk(if pending[0].entry == entries[n] then pending[1..] else pending, entries, from, n + 1)
  {
    var first := pending[0].entry;
    assert from + n < first.index && entries[first.index - from - 1] == first;
    hide Run, RestOk;
    forall k | 0 < k < |pending| ensures from + n + 1 < pending[k].entry.index {
      LaterIndex(pending, entries, from, n, k);
    }
    if first == entries[n] {
      RestDropped(pending, entries, from, n);
    } else {
      RestKept(pending, entries, from, n);
    }
  }

  /** The replies an apply task adds to the batch. */
  ghost predicate RepliesOk(batch: seq<Answer>, cbs: seq<Registered>) {
    forall k | 0 <= k < |batch| ::
      batch[k].Reply? && Registered(batch[k].entry, batch[k].cb) in cbs && batch[k].resp == ResponseOf(batch[k].entry)
  }

  ghost function OwnReply(r: Registered): Answer { Reply(r.cb, r.entry, ResponseOf(r.entry)) }

  /** Each callback waits or has its own reply. */
  ghost predicate Served(cbs: seq<Registered>, rest: seq<Registered>, added: seq<Answer>) {
    forall k | 0 <= k < |cbs| :: cbs[k] in rest || OwnReply(cbs[k]) in added
  }

  ghost predicate AppliedOk(a: Applying, b: Applying, added: seq<Answer>, entries: seq<Entry>, from: nat, n: nat)
    requires n <= |entries|
  {
    && a.Applying? && b.Applying?
    && RestOk(b.pending, entries, from, n)
    && b.invoked == a.invoked && b.batch == a.batch + added
    && RepliesOk(added, a.pending) && Within(b.pending, a.pending)
    && Owned(a.pending) == Answered(added) + Owned(b.pending)
    && Served(a.pending, b.pending, added)
  }

  lemma ApplyEntryStep(a: Applying, b: Applying, added: seq<Answer>, entries: seq<Entry>, from: nat, n: nat)
      returns (added': seq<Answer>)
    requires n < |entries| && Run(entries, from) && AppliedOk(a, b, added, entries, from, n)
    ensures AppliedOk(a, ApplyEntry(b, entries[n]), added', entries, from, n + 1)
  {
    hide RestOk, Owned, Answered, Find, OlderCount;
    var e := entries[n];
    FrontIsNext(b.pending, entries, from, n);
    if b.pending != [] && b.pending[0].entry == e {
      var r := b.pending[0];
      added' := added + [Reply(r.cb, e, ResponseOf(e))];
      AnsweredSnoc(added, Reply(r.cb, e, ResponseOf(e)));
      OwnedCons(r, b.pending[1..]);
      assert [r] + b.pending[1..] == b.pending;
      assert StaleReplies([]) == [] && b.invoked + [] == b.invoked;
      assert b.batch + [Reply(r.cb, e, ResponseOf(e))] == a.batch + added';
    } else {
      added' := added;
      assert StaleReplies([]) == [] && b.invoked + [] == b.invoked && b.batch + [] == b.batch;
      assert b.pending[..0] == [] && b.pending[0..] == b.pending;
    }
  }

  lemma ApplyAllSnoc(applied: nat, a: Applying, entries: seq<Entry>, n: nat)
    requires a.Applying? && n < |entries| && entries[n].index == applied + n + 1
    requires ApplyAll(applied, a, entries[..n]).Applying?
    ensures ApplyAll(applied, a, entries[..n + 1]) == ApplyEntry(ApplyAll(applied, a, entries[..n]), entries[n])
  {
    assert entries[..n + 1][..n] == entries[..n];
  }

  lemma StillApplying(a: Applying, b: Applying, added: seq<Answer>, entries: seq<Entry>, from: nat, n: nat)
    requires n <= |entries| && AppliedOk(a, b, added, entries, from, n)
    ensures b.Applying?
  {
  }

  lemma NothingApplied(a: Applying, entries: seq<Entry>, from: nat)
    requires a.Applying? && RestOk(a.pending, entries, from, 0)
    ensures AppliedOk(a, a, [], entries, from, 0)
  {
    assert a.batch + [] == a.batch;
  }

  lemma {:induction false} ApplyIsExact(a: Applying, entries: seq<Entry>, from: nat,
                                        n: nat) returns (added: seq<Answer>)
    requires a.Applying? && n <= |entries| && Run(entries, from) && RestOk(a.pending, entries, from, 0)
    ensures AppliedOk(a, ApplyAll(from, a, entries[..n]), added, entries, from, n)
    decreases n
  {
    if n == 0 {
      added := [];
      NothingApplied(a, entries, from);
    } else {
      assert entries[n - 1].index == from + n;
      hide AppliedOk, ApplyEntry, RestOk, Run, ApplyAll;
      added := ApplyIsExact(a, entries, from, n - 1);
      StillApplying(a, ApplyAll(from, a, entries[..n - 1]), added, entries, from, n - 1);
      ApplyAllSnoc(from, a, entries, n - 1);
      added := ApplyEntryStep(a, ApplyAll(from, a, entries[..n - 1]), added, entries, from, n - 1);
    }
  }

  /** A whole task: nothing panics, nothing is stale, and the apply queue ends empty. */
  lemma ApplyTaskIsExact(s: Peer, task: ApplyTask) returns (added: seq<Answer>)
    requires s.pending == [] && TaskOk(task) && Run(task.entries, s.applied)
    ensures ApplyAll(s.applied, Applying(s.pending + task.cbs, s.batch, s.invoked), task.entries)
         == Applying([], s.batch + added, s.invoked)
    ensures RepliesOk(added, task.cbs) && Answered(added) == Owned(task.cbs)
    ensures forall k | 0 <= k < |task.cbs| :: OwnReply(task.cbs[k]) in added
  {
    hide Answered, RepliesOk, TaskOk, Run;
    var n := |task.entries|;
    var a := Applying(s.pending + task.cbs, s.batch, s.invoked);
    assert [] + task.cbs == task.cbs && task.entries[..n] == task.entries;
    TaskRest(task, s.applied);
    added := ApplyIsExact(a, task.entries, s.applied, n);
    var b := ApplyAll(s.applied, a, task.entries);
    LeftoversAreLater(b.pending, task.entries, s.applied, n);
    assert Owned([]) == multiset{};
  }

  lemma LeftoversAreLater(pending: seq<Registered>, entries: seq<Entry>, from: nat, n: nat)
    requires RestOk(pending, entries, from, n)
    ensures pending != [] ==> n < |entries|
  {
    if pending != [] { assert from + n < pending[0].entry.index; }
  }

  // ---------- what the checks keep, in any state ----------

  /** A new leader's empty entry answers every waiting callback of an earlier term as stale, in order,
      and keeps all others. */
  lemma LeaderEntryAnswersOlder(a: Applying, e: Entry) returns (n: nat)
    requires a.Applying? && Sorted(a.pending) && e.payload.Empty? && 0 < e.term
    ensures n <= |a.pending|
    ensures forall i | 0 <= i < |a.pending| :: a.pending[i].entry.term < e.term <==> i < n
    ensures ApplyEntry(a, e).Applying?
    ensures var b := ApplyEntry(a, e);
            && b.pending == a.pending[n..] && b.invoked == a.invoked && |b.batch| == |a.batch| + n && a.batch <= b.batch
            && forall i | 0 <= i < n :: b.batch[|a.batch| + i] == Reply(a.pending[i].cb, a.pending[i].entry, STALE)
  {
    n := OlderCount(a.pending, e.term);
    hide OlderCount;
    forall i | n <= i < |a.pending| ensures e.term <= a.pending[i].entry.term {
      if n < i { assert Earlier(a.pending[n].entry, a.pending[i].entry); }
    }
  }

  /** What is applied without a panic is consecutive from the applied index on, and was queued. */
  lemma {:induction false} AppliedIsConsecutive(applied: nat, a: Applying, entries: seq<Entry>)
    requires a.Applying? && ApplyAll(applied, a, entries).Applying?
    ensures forall i | 0 <= i < |entries| :: entries[i].index == applied + i + 1 && Queued(entries[i])
  {
    hide Find, OlderCount;
    if entries != [] {
      var n := |entries| - 1;
      AppliedIsConsecutive(applied, a, entries[..n]);
      forall i | 0 <= i < n ensures entries[i].index == applied + i + 1 && Queued(entries[i]) {
        assert entries[..n][i] == entries[i];
      }
    }
  }

  /** A task that would take the commit state back is refused. */
  lemma CommitStateNeverGoesBack(s: Peer)
    requires s.tasks != [] && Step(s, Apply).Some?
    ensures s.commitIndex <= Step(s, Apply).value.commitIndex && s.commitTerm <= Step(s, Apply).value.commitTerm
  {
    hide ApplyAll;
  }

  /** The assertion of a proposal keeps the queue sorted. */
  lemma ProposingKeepsOrder(s: Peer, action: Action)
    requires Sorted(s.proposals) && action.Propose? && Step(s, action).Some?
    ensures Sorted(Step(s, action).value.proposals)
    ensures Proposable(action.payload) && !action.payload.Empty?
  {
    var r := Registered(Entry(s.term, action.index, action.payload), action.cb);
    forall k | 0 <= k < |s.proposals| ensures Earlier(s.proposals[k].entry, r.entry) {
      if k < |s.proposals| - 1 { assert Earlier(s.proposals[k].entry, s.proposals[|s.proposals| - 1].entry); }
    }
  }
}
