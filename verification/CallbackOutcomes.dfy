/** What becomes of every proposal: which wait, which were called stale, which were answered. */
module CallbackOutcomes {
  import opened WalletTypes
  import opened Batching
  import opened Callbacks
  import opened CallbackSystem
  import opened CallbackTheorems

  ghost function StaleReply(r: Registered): Answer { Reply(r.cb, r.entry, STALE) }

  ghost predicate InTasks(tasks: seq<ApplyTask>, r: Registered) {
    exists i | 0 <= i < |tasks| :: r in tasks[i].cbs
  }

  /** A committed proposal is on its way to the apply thread or has the response of its own entry. */
  ghost predicate Underway(s: Peer, r: Registered) {
    r.cb.NoCallback? || InTasks(s.tasks, r) || OwnReply(r) in s.batch || OwnReply(r) in s.invoked
  }

  ghost predicate Settled(s: Peer, r: Registered) {
    || r in s.proposals
    || (if Committed(s.committed, r.entry) then Underway(s, r) else StaleReply(r) in s.invoked)
  }

  /** With `n` entries committed at the start: every proposal is settled, and once more are committed
      nothing in the queue lies before the last of them. */
  ghost predicate OutcomesOk(s: Peer, n: nat) {
    && n <= |s.committed|
    && (forall k | 0 <= k < |s.proposed| :: Settled(s, s.proposed[k]))
    && (if n == |s.committed| then s.proposals == s.proposed
        else var last := s.committed[|s.committed| - 1];
             last.term <= s.term && AllAfter(s.proposals, last))
  }

  lemma ProposeSettles(s: Peer, n: nat, action: Action)
    requires Inv(s) && OutcomesOk(s, n) && action.Propose? && Enabled(s, action) && Step(s, action).Some?
    ensures OutcomesOk(Step(s, action).value, n)
  {
    hide Inv, Underway;
    var s' := Step(s, action).value;
    var r := Registered(Entry(s.term, action.index, action.payload), action.cb);
    LastIndex(s);
    forall k | 0 <= k < |s'.proposed| ensures Settled(s', s'.proposed[k]) {
      if k < |s.proposed| {
        assert Settled(s, s.proposed[k]);
        if Underway(s, s.proposed[k]) { SameUnderway(s, s', s.proposed[k]); }
      } else {
        assert s'.proposals[|s.proposals|] == r;
      }
    }
  }

  lemma LastIndex(s: Peer)
    requires Inv(s)
    ensures forall k | 0 <= k < |s.committed| :: s.committed[k].index == k + 1
  {
  }

  lemma SameUnderway(s: Peer, s': Peer, r: Registered)
    requires Underway(s, r) && s'.tasks == s.tasks
    requires forall a <- s.batch :: a in s'.batch || a in s'.invoked
    requires forall a <- s.invoked :: a in s'.invoked
    ensures Underway(s', r)
  {
  }

  /** Rejections, new terms and writes move no registration. */
  lemma QuietSettles(s: Peer, n: nat, action: Action)
    requires OutcomesOk(s, n) && (action.Reject? || action.NewTerm? || action.WriteToDb?) && Enabled(s, action)
    ensures OutcomesOk(Step(s, action).value, n)
  {
    hide Underway;
    var s' := Step(s, action).value;
    forall k | 0 <= k < |s'.proposed| ensures Settled(s', s'.proposed[k]) {
      var r := s.proposed[k];
      assert Settled(s, r);
      if Underway(s, r) { SameUnderway(s, s', r); }
    }
  }

  lemma ApplySettles(s: Peer, n: nat)
    requires Inv(s) && OutcomesOk(s, n) && s.tasks != [] && Step(s, Apply).Some?
    ensures OutcomesOk(Step(s, Apply).value, n)
  {
    hide Inv, Settled, OwnReply;
    var s' := Step(s, Apply).value;
    var added := TaskIsServed(s);
    hide Step;
    forall k | 0 <= k < |s.proposed| ensures Settled(s', s.proposed[k]) {
      var r := s.proposed[k];
      assert Settled(s, r);
      AppliedSettles(s, s', r, added);
    }
  }

  /** The whole effect of applying the next task. */
  lemma TaskIsServed(s: Peer) returns (added: seq<Answer>)
    requires Inv(s) && s.tasks != [] && Step(s, Apply).Some?
    ensures AppliedAs(s, Step(s, Apply).value, added)
  {
    hide AnswersOk, Matches, QueueOk, Answered, Owned, TaskOk, Within, ApplyAll;
    RunOfLog(s.committed, s.applied, |s.tasks[0].entries|);
    added := ApplyTaskIsExact(s, s.tasks[0]);
  }

  ghost predicate AppliedAs(s: Peer, s': Peer, added: seq<Answer>) {
    && s.tasks != [] && s'.tasks == s.tasks[1..] && s'.batch == s.batch + added && s'.invoked == s.invoked
    && s'.proposals == s.proposals && s'.proposed == s.proposed && s'.committed == s.committed && s'.term == s.term
    && forall k | 0 <= k < |s.tasks[0].cbs| :: OwnReply(s.tasks[0].cbs[k]) in added
  }

  lemma AppliedSettles(s: Peer, s': Peer, r: Registered, added: seq<Answer>)
    requires AppliedAs(s, s', added) && Settled(s, r)
    ensures Settled(s', r)
  {
    hide OwnReply;
    if InTasks(s.tasks, r) {
      var i :| 0 <= i < |s.tasks| && r in s.tasks[i].cbs;
      if i > 0 { assert r in s'.tasks[i - 1].cbs; }
    }
  }

  lemma CommitSettles(s: Peer, n: nat, action: Action)
    requires Inv(s) && OutcomesOk(s, n) && action.Commit? && Enabled(s, action) && Step(s, action).Some?
    ensures OutcomesOk(Step(s, action).value, n)
  {
    hide LogOk, Matches, QueueOk, HandOver, Owned, TaskOk, Within, Settled, Placed, Chain;
    var s', log' := Step(s, action).value, s.committed + action.entries;
    HandoverIsExact(s.proposals, s.committed, action.entries, s.proposed);
    var h := HandOver(s.proposals, action.entries);
    assert log'[|log'| - 1] == action.entries[|action.entries| - 1];
    forall k | 0 <= k < |s.proposed| ensures Settled(s', s.proposed[k]) {
      var r := s.proposed[k];
      assert Settled(s, r);
      if r in s.proposals {
        var j :| 0 <= j < |s.proposals| && s.proposals[j] == r;
        assert Placed(s.proposals[j], h, log');
        HandedOver(s, s', h, r);
      } else {
        LeftBefore(s, s', r);
      }
    }
  }

  /** The peer after the entries were handed over as `h`. */
  ghost predicate CommittedTo(s: Peer, s': Peer, h: Handover) {
    && h.Handover? && s.committed <= s'.committed && LogOk(s'.committed) && Outdated(h.stale, s'.committed)
    && s'.proposals == h.rest && s'.invoked == s.invoked + StaleReplies(h.stale) && s'.batch == s.batch
    && |s'.tasks| == |s.tasks| + 1 && s'.tasks[..|s.tasks|] == s.tasks && s'.tasks[|s.tasks|].cbs == h.cbs
  }

  lemma HandedOver(s: Peer, s': Peer, h: Handover, r: Registered)
    requires CommittedTo(s, s', h) && Placed(r, h, s'.committed)
    ensures Settled(s', r)
  {
    if r in h.stale {
      var j :| 0 <= j < |h.stale| && h.stale[j] == r;
      assert StaleReplies(h.stale)[j] == StaleReply(r);
    } else if r in h.cbs {
      assert r in s'.tasks[|s.tasks|].cbs;
    }
  }

  lemma LeftBefore(s: Peer, s': Peer, r: Registered)
    requires AnswersOk(s.invoked, s.committed, s.proposed) && Settled(s, r) && r !in s.proposals
    requires s.committed <= s'.committed && LogOk(s'.committed) && s.batch == s'.batch && s.invoked <= s'.invoked
    requires s.tasks <= s'.tasks
    ensures Settled(s', r)
  {
    if Committed(s.committed, r.entry) {
      assert s'.committed[r.entry.index - 1] == s.committed[r.entry.index - 1];
      if InTasks(s.tasks, r) {
        var i :| 0 <= i < |s.tasks| && r in s.tasks[i].cbs;
        assert r in s'.tasks[i].cbs;
      }
    } else {
      var j :| 0 <= j < |s.invoked| && s.invoked[j] == StaleReply(r);
      assert AnswerOk(s.invoked[j], s.committed, s.proposed);
      StaysStale(s.committed, s'.committed, r.entry);
      assert s'.invoked[j] == StaleReply(r);
    }
  }

  lemma StepSettles(s: Peer, n: nat, action: Action)
    requires Inv(s) && OutcomesOk(s, n) && Enabled(s, action) && Step(s, action).Some?
    ensures OutcomesOk(Step(s, action).value, n)
  {
    hide Inv, OutcomesOk, Step, Enabled;
    match action
    case Propose(_, _, _) => ProposeSettles(s, n, action);
    case Commit(_) => CommitSettles(s, n, action);
    case Apply => EnabledApply(s); ApplySettles(s, n);
    case _ => QuietSettles(s, n, action);
  }

  lemma EnabledApply(s: Peer)
    requires Enabled(s, Apply)
    ensures s.tasks != []
  {
  }

  lemma {:induction false} EveryProposalIsSettled(history: seq<Entry>, term: nat, actions: seq<Action>)
    requires LogOk(history) && Granted(Started(history, term), actions)
    ensures After(Started(history, term), actions).Some?
    ensures OutcomesOk(After(Started(history, term), actions).value, |history|)
  {
    EveryCallbackIsAccountedFor(history, term, actions);
    if actions != [] {
      hide Inv, OutcomesOk, Step, Enabled;
      EveryCallbackIsAccountedFor(history, term, actions[..|actions| - 1]);
      EveryProposalIsSettled(history, term, actions[..|actions| - 1]);
      StepSettles(After(Started(history, term), actions[..|actions| - 1]).value, |history|, actions[|actions| - 1]);
    }
  }

  /** Until something is committed every proposal waits.  From then on a proposal waits if and only if
      it lies after the last committed entry; one that does not was called stale if and only if its
      own entry is not committed, and otherwise its callback is on its way or has the response of
      that entry.  So every proposal of an earlier term is out of the queue. */
  lemma ProposalsEndAsTheLogDecides(history: seq<Entry>, term: nat, actions: seq<Action>, r: Registered)
    requires LogOk(history) && Granted(Started(history, term), actions)
    requires After(Started(history, term), actions).Some?
    requires r in After(Started(history, term), actions).value.proposed
    ensures var s := After(Started(history, term), actions).value;
            && |history| <= |s.committed|
            && (|history| == |s.committed| ==> s.proposals == s.proposed)
            && (|history| < |s.committed| ==>
                  var last := s.committed[|s.committed| - 1];
                  && (r in s.proposals <==> Earlier(last, r.entry))
                  && (r.entry.term < last.term ==> r !in s.proposals)
                  && (StaleReply(r) in s.invoked <==> !Earlier(last, r.entry) && !Committed(s.committed, r.entry))
                  && (Committed(s.committed, r.entry) ==> Underway(s, r))
                  && (Committed(s.committed, r.entry) && s.tasks == [] && s.batch == [] && !r.cb.NoCallback?
                      ==> OwnReply(r) in s.invoked))
  {
    hide After, Granted, LogOk, Inv, Underway, Committed, Earlier, OwnReply, StaleReply, Settled, AllAfter;
    EveryCallbackIsAccountedFor(history, term, actions);
    EveryProposalIsSettled(history, term, actions);
    var s := After(Started(history, term), actions).value;
    if |history| < |s.committed| { Decided(s, |history|, r); }
  }

  lemma Decided(s: Peer, n: nat, r: Registered)
    requires Inv(s) && OutcomesOk(s, n) && n < |s.committed| && r in s.proposed
    ensures var last := s.committed[|s.committed| - 1];
            && (r in s.proposals <==> Earlier(last, r.entry))
            && (StaleReply(r) in s.invoked <==> !Earlier(last, r.entry) && !Committed(s.committed, r.entry))
            && (r.entry.term < last.term ==> !Earlier(last, r.entry))
            && (Committed(s.committed, r.entry) ==> Underway(s, r))
            && (Underway(s, r) && s.tasks == [] && s.batch == [] && !r.cb.NoCallback? ==> OwnReply(r) in s.invoked)
  {
    hide Matches, QueueOk, Chain, ProposedOk;
    var last := s.committed[|s.committed| - 1];
    assert Settled(s, r);
    assert Committed(s.committed, r.entry) ==> !Earlier(last, r.entry);
    if StaleReply(r) in s.invoked {
      var j :| 0 <= j < |s.invoked| && s.invoked[j] == StaleReply(r);
      assert AnswerOk(s.invoked[j], s.committed, s.proposed);
    }
  }

  // ---------- where a registration comes from ----------

  /** Every registration is one of the proposals made, with the entry raft gave it. */
  lemma {:induction false} ProposedByAction(history: seq<Entry>, term: nat, actions: seq<Action>, r: Registered)
      returns (k: nat)
    requires LogOk(history) && Granted(Started(history, term), actions)
    requires After(Started(history, term), actions).Some?
    requires r in After(Started(history, term), actions).value.proposed
    ensures k < |actions| && actions[k] == Propose(r.cb, r.entry.payload, r.entry.index)
    ensures |history| < r.entry.index
    decreases |actions|
  {
    var n := |actions| - 1;
    EveryCallbackIsAccountedFor(history, term, actions[..n]);
    EveryProposalIsSettled(history, term, actions[..n]);
    var before := After(Started(history, term), actions[..n]).value;
    ProposedGrows(before, actions[n], r, |history|);
    if r in before.proposed { k := ProposedByAction(history, term, actions[..n], r); } else { k := n; }
  }

  lemma ProposedGrows(s: Peer, action: Action, r: Registered, n: nat)
    requires OutcomesOk(s, n) && Enabled(s, action) && Step(s, action).Some? && r in Step(s, action).value.proposed
    ensures r in s.proposed || (action == Propose(r.cb, r.entry.payload, r.entry.index) && n < r.entry.index)
  {
    hide HandOver, ApplyAll;
  }

  ghost function Times(actions: seq<Action>, cb: Callback): nat { Handed(actions)[cb] }

  lemma TimesLast(actions: seq<Action>, cb: Callback)
    requires actions != []
    ensures var n := |actions| - 1;
            Times(actions, cb) == Times(actions[..n], cb) + if cb in Brought(actions[n]) then 1 else 0
  {
  }

  lemma {:induction false} HandedAtLeast(actions: seq<Action>, i: nat, cb: Callback)
    requires i < |actions| && cb in Brought(actions[i])
    ensures Times(actions, cb) >= 1
  {
    hide Times, Brought;
    var n := |actions| - 1;
    TimesLast(actions, cb);
    if i < n { HandedAtLeast(actions[..n], i, cb); }
  }

  lemma {:induction false} HandedTwice(actions: seq<Action>, i: nat, j: nat, cb: Callback)
    requires i < j < |actions| && cb in Brought(actions[i]) && cb in Brought(actions[j])
    ensures Times(actions, cb) >= 2
  {
    hide Times, Brought;
    var n := |actions| - 1;
    TimesLast(actions, cb);
    if j < n { HandedTwice(actions[..n], i, j, cb); } else { HandedAtLeast(actions[..n], i, cb); }
  }

  /** A callback handed in once belongs to one proposal. */
  lemma OneProposal(actions: seq<Action>, i: nat, j: nat)
    requires i < |actions| && j < |actions| && actions[i].Propose? && actions[j].Propose?
    requires actions[i].cb == actions[j].cb && Handed(actions)[actions[i].cb] == 1
    ensures i == j
  {
    var cb := actions[i].cb;
    if cb.NoCallback? {
      NoneHanded(actions);
    } else if i < j {
      HandedTwice(actions, i, j, cb);
    } else if j < i {
      HandedTwice(actions, j, i, cb);
    }
  }

  lemma {:induction false} NoneHanded(actions: seq<Action>)
    ensures Handed(actions)[NoCallback] == 0
  {
    if actions != [] { NoneHanded(actions[..|actions| - 1]); }
  }
}
