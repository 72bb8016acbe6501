/** Callback linearity over every run of propose, commit and apply. */
module CallbackTheorems {
  import opened WalletTypes
  import opened Batching
  import opened Callbacks
  import opened CallbackSystem

  /** The scheduled tasks are the committed entries after `from`, cut into non-empty runs. */
  ghost predicate Chain(tasks: seq<ApplyTask>, committed: seq<Entry>, from: nat, proposed: seq<Registered>) {
    if tasks == [] then from == |committed|
    else
      var n := |tasks[0].entries|;
      && 0 < n && from + n <= |committed| && tasks[0].entries == committed[from..from + n]
      && TaskOk(tasks[0]) && Within(tasks[0].cbs, proposed)
      && Chain(tasks[1..], committed, from + n, proposed)
  }

  /** A reply is the response of the callback's own committed entry, or says stale of an entry that
      is not committed and, a later term being committed, never will be. */
  ghost predicate AnswerOk(a: Answer, committed: seq<Entry>, proposed: seq<Registered>) {
    a.Reply? ==>
      && Registered(a.entry, a.cb) in proposed
      && (if a.resp == STALE
          then !Committed(committed, a.entry) && committed != [] && a.entry.term < committed[|committed| - 1].term
          else Committed(committed, a.entry) && a.resp == ResponseOf(a.entry))
  }

  ghost predicate AnswersOk(answers: seq<Answer>, committed: seq<Entry>, proposed: seq<Registered>) {
    forall k | 0 <= k < |answers| :: AnswerOk(answers[k], committed, proposed)
  }

  ghost predicate ProposedOk(proposed: seq<Registered>, term: nat) {
    && Sorted(proposed) && Payloads(proposed)
    && forall k | 0 <= k < |proposed| :: proposed[k].entry.term <= term
  }

  ghost predicate Inv(s: Peer) {
    && LogOk(s.committed) && Matches(s.committed, s.proposed) && ProposedOk(s.proposed, s.term)
    && QueueOk(s.proposals, s.committed, s.proposed)
    && s.pending == []
    && s.applied <= |s.committed| && Chain(s.tasks, s.committed, s.applied, s.proposed)
    && s.commitIndex == s.applied
    && s.commitTerm == (if s.applied == 0 then 0 else s.committed[s.applied - 1].term)
    && AnswersOk(s.invoked, s.committed, s.proposed) && AnswersOk(s.batch, s.committed, s.proposed)
  }

  /** Every place a callback can be. */
  ghost function Held(s: Peer): multiset<Callback> {
    Answered(s.invoked) + Answered(s.batch) + Scheduled(s.tasks) + Owned(s.pending) + Owned(s.proposals)
  }

  /** The write callback an action brings in. */
  ghost function Brought(action: Action): multiset<Callback> {
    match action
    case Propose(cb, _, _) => One(cb)
    case Reject(cb, _) => One(cb)
    case _ => multiset{}
  }

  // ---------- propose ----------

  lemma ProposeKeepsInv(s: Peer, action: Action)
    requires Inv(s) && action.Propose? && Enabled(s, action)
    ensures Step(s, action).Some? && Inv(Step(s, action).value)
  {
    hide AnswersOk, Chain, LogOk, Matches, QueueOk;
    var r := Registered(Entry(s.term, action.index, action.payload), action.cb);
    ProposedExtends(s.proposed, s.term, r);
    QueueExtends(s, r);
    MatchesExtends(s.committed, s.proposed, r);
    AnswersExtend(s.invoked, s.committed, s.proposed, r);
    AnswersExtend(s.batch, s.committed, s.proposed, r);
    ChainExtends(s.tasks, s.committed, s.applied, s.proposed, r);
  }

  lemma ProposedExtends(proposed: seq<Registered>, term: nat, r: Registered)
    requires ProposedOk(proposed, term) && r.entry.term == term && !r.entry.payload.Empty? && 0 < r.entry.index
    requires proposed == [] || Earlier(proposed[|proposed| - 1].entry, r.entry)
    ensures ProposedOk(proposed + [r], term)
    ensures forall k | 0 <= k < |proposed| :: Earlier(proposed[k].entry, r.entry)
  {
    forall k | 0 <= k < |proposed| ensures Earlier(proposed[k].entry, r.entry) {
      if k < |proposed| - 1 { assert Earlier(proposed[k].entry, proposed[|proposed| - 1].entry); }
    }
  }

  lemma QueueExtends(s: Peer, r: Registered)
    requires QueueOk(s.proposals, s.committed, s.proposed) && |s.committed| < r.entry.index
    requires forall k | 0 <= k < |s.proposed| :: Earlier(s.proposed[k].entry, r.entry)
    ensures s.proposals == [] || Earlier(s.proposals[|s.proposals| - 1].entry, r.entry)
    ensures QueueOk(s.proposals + [r], s.committed, s.proposed + [r])
  {
    forall k | 0 <= k < |s.proposals| ensures Earlier(s.proposals[k].entry, r.entry) {
      assert s.proposals[k] in s.proposed;
    }
    assert (s.proposed + [r])[|s.proposed|] == r;
  }

  lemma MatchesExtends(log: seq<Entry>, proposed: seq<Registered>, r: Registered)
    requires Matches(log, proposed) && |log| < r.entry.index
    ensures Matches(log, proposed + [r])
  {
  }

  lemma AnswersExtend(answers: seq<Answer>, log: seq<Entry>, proposed: seq<Registered>, r: Registered)
    requires AnswersOk(answers, log, proposed)
    ensures AnswersOk(answers, log, proposed + [r])
  {
    forall k | 0 <= k < |answers| ensures AnswerOk(answers[k], log, proposed + [r]) {
      assert AnswerOk(answers[k], log, proposed);
    }
  }

  lemma {:induction false} ChainExtends(tasks: seq<ApplyTask>, log: seq<Entry>, from: nat, proposed: seq<Registered>,
                                        r: Registered)
    requires Chain(tasks, log, from, proposed)
    ensures Chain(tasks, log, from, proposed + [r])
    decreases |tasks|
  {
    if tasks != [] { ChainExtends(tasks[1..], log, from + |tasks[0].entries|, proposed, r); }
  }

  // ---------- commit ----------

  lemma AnswersSurviveCommit(answers: seq<Answer>, log: seq<Entry>, log': seq<Entry>, proposed: seq<Registered>)
    requires AnswersOk(answers, log, proposed) && log <= log' && LogOk(log')
    ensures AnswersOk(answers, log', proposed)
  {
    forall k | 0 <= k < |answers| ensures AnswerOk(answers[k], log', proposed) {
      var a := answers[k];
      assert AnswerOk(a, log, proposed);
      if a.Reply? && a.resp == STALE { StaysStale(log, log', a.entry); }
    }
  }

  lemma StaysStale(log: seq<Entry>, log': seq<Entry>, e: Entry)
    requires log <= log' && LogOk(log') && log != [] && e.term < log[|log| - 1].term && !Committed(log, e)
    ensures !Committed(log', e) && e.term < log'[|log'| - 1].term
  {
    var n := |log| - 1;
    assert log'[n] == log[n];
    assert log'[n].term <= log'[|log'| - 1].term;
    if |log| < e.index <= |log'| {
      assert log'[n].term <= log'[e.index - 1].term;
    } else if 1 <= e.index <= |log| {
      assert log'[e.index - 1] == log[e.index - 1];
    }
  }

  lemma StaleRepliesOk(stale: seq<Registered>, log: seq<Entry>, proposed: seq<Registered>)
    requires Outdated(stale, log) && Within(stale, proposed)
    ensures AnswersOk(StaleReplies(stale), log, proposed)
  {
  }

  lemma AnswersConcat(a: seq<Answer>, b: seq<Answer>, log: seq<Entry>, proposed: seq<Registered>)
    requires AnswersOk(a, log, proposed) && AnswersOk(b, log, proposed)
    ensures AnswersOk(a + b, log, proposed)
  {
    hide AnswerOk;
  }

  lemma {:induction false} ChainSnoc(tasks: seq<ApplyTask>, log: seq<Entry>, from: nat, proposed: seq<Registered>,
                                     task: ApplyTask)
    requires from <= |log| && Chain(tasks, log, from, proposed)
    requires task.entries != [] && TaskOk(task) && Within(task.cbs, proposed)
    ensures Chain(tasks + [task], log + task.entries, from, proposed)
    decreases |tasks|
  {
    hide TaskOk, Within;
    var log' := log + task.entries;
    if tasks == [] {
      assert log'[from..from + |task.entries|] == task.entries;
      assert ([] + [task])[1..] == [];
    } else {
      var n := |tasks[0].entries|;
      ChainSnoc(tasks[1..], log, from + n, proposed, task);
      assert (tasks + [task])[1..] == tasks[1..] + [task];
      assert log'[from..from + n] == log[from..from + n];
    }
  }

  lemma CommitKeepsInv(s: Peer, action: Action)
    requires Inv(s) && action.Commit? && Enabled(s, action)
    ensures Step(s, action).Some? && Inv(Step(s, action).value)
    ensures Held(Step(s, action).value) == Held(s)
  {
    hide AnswersOk, Chain, LogOk, Matches, QueueOk, HandOver, Answered, Owned, Scheduled, TaskOk, Within, Outdated;
    var log' := s.committed + action.entries;
    HandoverIsExact(s.proposals, s.committed, action.entries, s.proposed);
    var h := HandOver(s.proposals, action.entries);
    var task := ApplyTask(action.entries, h.cbs);
    AnswersSurviveCommit(s.invoked, s.committed, log', s.proposed);
    AnswersSurviveCommit(s.batch, s.committed, log', s.proposed);
    StaleRepliesOk(h.stale, log', s.proposed);
    AnswersConcat(s.invoked, StaleReplies(h.stale), log', s.proposed);
    ChainSnoc(s.tasks, s.committed, s.applied, s.proposed, task);
    assert s.applied > 0 ==> log'[s.applied - 1] == s.committed[s.applied - 1];
    AnsweredConcat(s.invoked, StaleReplies(h.stale));
    AnsweredStale(h.stale);
    ScheduledSnoc(s.tasks, task);
  }

  // ---------- apply ----------

  lemma RunOfLog(log: seq<Entry>, from: nat, n: nat)
    requires LogOk(log) && from + n <= |log|
    ensures Run(log[from..from + n], from)
  {
  }

  lemma AppliedRepliesOk(added: seq<Answer>, task: ApplyTask, log: seq<Entry>, from: nat, proposed: seq<Registered>)
    requires RepliesOk(added, task.cbs) && TaskOk(task) && Within(task.cbs, proposed) && LogOk(log)
    requires from + |task.entries| <= |log| && task.entries == log[from..from + |task.entries|]
    ensures AnswersOk(added, log, proposed)
  {
    forall k | 0 <= k < |added| ensures AnswerOk(added[k], log, proposed) {
      var r := Registered(added[k].entry, added[k].cb);
      assert r in task.cbs;
      OwnEntryCommitted(r, task, log, from);
    }
  }

  lemma OwnEntryCommitted(r: Registered, task: ApplyTask, log: seq<Entry>, from: nat)
    requires r in task.cbs && TaskOk(task) && LogOk(log)
    requires from + |task.entries| <= |log| && task.entries == log[from..from + |task.entries|]
    ensures Committed(log, r.entry)
  {
    hide Sorted;
    var j :| 0 <= j < |task.cbs| && task.cbs[j] == r;
    var i :| 0 <= i < |task.entries| && task.entries[i] == task.cbs[j].entry;
    assert log[from + i] == r.entry;
  }

  lemma ApplyKeepsInv(s: Peer)
    requires Inv(s) && s.tasks != []
    ensures Step(s, Apply).Some? && Inv(Step(s, Apply).value)
    ensures Held(Step(s, Apply).value) == Held(s)
  {
    hide AnswersOk, Matches, QueueOk, Answered, Owned, TaskOk, Within, ApplyAll;
    var task := s.tasks[0];
    var n := |task.entries|;
    RunOfLog(s.committed, s.applied, n);
    var added := ApplyTaskIsExact(s, task);
    AppliedRepliesOk(added, task, s.committed, s.applied, s.proposed);
    AnswersConcat(s.batch, added, s.committed, s.proposed);
    AnsweredConcat(s.batch, added);
    var last := task.entries[n - 1];
    assert last == s.committed[s.applied + n - 1];
    assert s.applied > 0 ==> s.committed[s.applied - 1].term <= last.term;
  }

  // ---------- every run ----------

  lemma WriteKeepsInv(s: Peer)
    requires Inv(s)
    ensures Inv(Step(s, WriteToDb).value) && Held(Step(s, WriteToDb).value) == Held(s)
  {
    hide AnswersOk, Chain, LogOk, Matches, QueueOk, Owned, Scheduled, One;
    AnswersConcat(s.invoked, s.batch, s.committed, s.proposed);
    AnsweredConcat(s.invoked, s.batch);
    NoAnswers(s.committed, s.proposed);
  }

  lemma NoAnswers(log: seq<Entry>, proposed: seq<Registered>)
    ensures AnswersOk([], log, proposed)
  {
  }

  lemma RejectKeepsInv(s: Peer, action: Action)
    requires Inv(s) && action.Reject?
    ensures Inv(Step(s, action).value) && Held(Step(s, action).value) == Held(s) + Brought(action)
  {
    hide Chain, LogOk, Matches, QueueOk, Owned, Scheduled, One, Answered;
    AnsweredSnoc(s.invoked, Rejected(action.cb, action.error));
  }

  lemma NewTermKeepsInv(s: Peer, term: nat)
    requires Inv(s) && s.term <= term
    ensures Inv(s.(term := term))
  {
    hide LogOk, Matches, QueueOk, Chain, AnswersOk, Sorted, Payloads;
  }

  lemma StepKeepsInv(s: Peer, action: Action)
    requires Inv(s) && Enabled(s, action)
    ensures Step(s, action).Some? && Inv(Step(s, action).value)
    ensures Held(Step(s, action).value) == Held(s) + Brought(action)
  {
    hide Inv, One, Answered, Scheduled, Owned;
    match action
    case Propose(cb, payload, index) =>
      ProposeKeepsInv(s, action);
      OwnedSnoc(s.proposals, Registered(Entry(s.term, index, payload), cb));
    case Reject(_, _) => RejectKeepsInv(s, action);
    case NewTerm(term) => NewTermKeepsInv(s, term);
    case Commit(_) => CommitKeepsInv(s, action);
    case Apply => ApplyKeepsInv(s);
    case WriteToDb => WriteKeepsInv(s);
  }

  /** The state after a run; `None` when an action was not enabled or the program panicked. */
  ghost function After(start: Peer, actions: seq<Action>): Option<Peer> {
    if actions == [] then Some(start)
    else
      var before := After(start, actions[..|actions| - 1]);
      var action := actions[|actions| - 1];
      if before.Some? && Enabled(before.value, action) then Step(before.value, action) else None
  }

  /** Every action is one raft grants in the state it meets. */
  ghost predicate Granted(start: Peer, actions: seq<Action>) {
    actions != [] ==>
      && Granted(start, actions[..|actions| - 1])
      && var before := After(start, actions[..|actions| - 1]);
         before.Some? ==> Enabled(before.value, actions[|actions| - 1])
  }

  ghost function Handed(actions: seq<Action>): multiset<Callback> {
    if actions == [] then multiset{} else Handed(actions[..|actions| - 1]) + Brought(actions[|actions| - 1])
  }

  /** No run panics, and a callback handed in is in exactly one place, or answered, once. */
  lemma {:induction false} EveryCallbackIsAccountedFor(history: seq<Entry>, term: nat, actions: seq<Action>)
    requires LogOk(history) && Granted(Started(history, term), actions)
    ensures After(Started(history, term), actions).Some? && Inv(After(Started(history, term), actions).value)
    ensures Held(After(Started(history, term), actions).value) == Handed(actions)
  {
    if actions == [] {
      assert Inv(Started(history, term)) && Held(Started(history, term)) == multiset{};
    } else {
      hide Inv, Held, Brought, Step, Enabled;
      EveryCallbackIsAccountedFor(history, term, actions[..|actions| - 1]);
      StepKeepsInv(After(Started(history, term), actions[..|actions| - 1]).value, actions[|actions| - 1]);
    }
  }

  /** A callback handed in once is invoked once or sits in exactly one of the queues. */
  lemma InvokedOnceOrQueuedOnce(history: seq<Entry>, term: nat, actions: seq<Action>, cb: Callback)
    requires LogOk(history) && Granted(Started(history, term), actions) && Handed(actions)[cb] == 1
    ensures After(Started(history, term), actions).Some?
    ensures var s := After(Started(history, term), actions).value;
            && s.pending == []
            && Answered(s.invoked)[cb] + Answered(s.batch)[cb] + Scheduled(s.tasks)[cb] + Owned(s.proposals)[cb] == 1
  {
    EveryCallbackIsAccountedFor(history, term, actions);
    assert Owned([]) == multiset{};
    assert Held(After(Started(history, term), actions).value)[cb] == 1;
  }

  /** What a callback is told: the positions of its own committed entry, or that the entry is stale,
      and then it is not committed, whatever is committed later. */
  lemma AnswersAreTruthful(history: seq<Entry>, term: nat, actions: seq<Action>, k: nat, later: seq<Entry>)
    requires LogOk(history) && Granted(Started(history, term), actions)
    requires After(Started(history, term), actions).Some? && k < |After(Started(history, term), actions).value.invoked|
    requires LogOk(After(Started(history, term), actions).value.committed + later)
    ensures var s := After(Started(history, term), actions).value;
            var a := s.invoked[k];
            a.Reply? ==>
              && Registered(a.entry, a.cb) in s.proposed
              && (a.resp == STALE ==> !Committed(s.committed + later, a.entry))
              && (a.resp != STALE ==> Committed(s.committed, a.entry) && a.resp == ResponseOf(a.entry))
  {
    EveryCallbackIsAccountedFor(history, term, actions);
    var s := After(Started(history, term), actions).value;
    var a := s.invoked[k];
    assert AnswerOk(a, s.committed, s.proposed);
    if a.Reply? && a.resp == STALE { StaysStale(s.committed, s.committed + later, a.entry); }
  }
}
