/** The peer and apply objects that move callbacks, proved against the functions of the model. */
module ApplyObjects {
  import opened WalletTypes
  import opened Batching
  import opened Callbacks
  import opened CallbackSystem

  class CommitHandler {
    const proposals: Queue

    constructor (queue: Queue)
      ensures proposals == queue
    {
      proposals := queue;
    }

    /** The callbacks of the committed entries, in entry order, with the stale ones popped on the way. */
    method HandleRaftCommittedEntries(entries: seq<Entry>)
        returns (ok: bool, stale: seq<Registered>, cbs: seq<Registered>)
      modifies proposals
      ensures ok == HandOver(old(proposals.queue), entries).Handover?
      ensures ok ==> HandOver(old(proposals.queue), entries) == Handover(proposals.queue, stale, cbs)
    {
      hide Find;
      ok, stale, cbs := true, [], [];
      var i := 0;
      while i < |entries|
        invariant 0 <= i <= |entries|
        invariant ok && HandOver(old(proposals.queue), entries[..i]) == Handover(proposals.queue, stale, cbs)
      {
        assert entries[..i + 1][..i] == entries[..i];
        var found, older, hit := proposals.FindCallback(entries[i]);
        if !found {
          ok := false;
          PanicStays(old(proposals.queue), entries, i + 1);
          return;
        }
        stale := stale + older;
        if hit.Some? && !hit.value.cb.NoCallback? {
          cbs := cbs + [hit.value];
        } else {
          assert cbs + [] == cbs;
        }
        i := i + 1;
      }
      assert entries[..i] == entries;
    }
  }

  lemma {:induction false} PanicStays(q: seq<Registered>, entries: seq<Entry>, n: nat)
    requires n <= |entries| && HandOver(q, entries[..n]).Panic?
    ensures HandOver(q, entries).Panic?
    decreases |entries| - n
  {
    if n == |entries| {
      assert entries[..n] == entries;
    } else {
      assert entries[..n + 1][..n] == entries[..n];
      PanicStays(q, entries, n + 1);
    }
  }

  lemma NoReplies(q: seq<Registered>)
    ensures StaleReplies(q[..0]) == []
  {
  }

  lemma OneMoreReply(q: seq<Registered>, i: nat)
    requires i < |q|
    ensures StaleReplies(q[..i + 1]) == StaleReplies(q[..i]) + [Reply(q[i].cb, q[i].entry, STALE)]
  {
  }

  class ApplyDelegate {
    const pending: Queue
    var appliedIndex: nat
    var commitIndex: nat
    var commitTerm: nat
    var batch: seq<Answer>
    var invoked: seq<Answer>

    constructor (queue: Queue, applied: nat, index: nat, term: nat)
      ensures pending == queue && appliedIndex == applied && commitIndex == index && commitTerm == term
      ensures batch == [] && invoked == []
    {
      pending, appliedIndex, commitIndex, commitTerm := queue, applied, index, term;
      batch, invoked := [], [];
    }

    ghost function Now(): Applying
      reads this, pending
    {
      Applying(pending.queue, batch, invoked)
    }

    /** The apply side of a peer of the model. */
    ghost predicate Represents(s: Peer)
      reads this, pending
    {
      && s.pending == pending.queue && s.batch == batch && s.invoked == invoked && s.applied == appliedIndex
      && s.commitIndex == commitIndex && s.commitTerm == commitTerm
    }

    /** Answer the front registrations of terms before `term` as stale.  Indices stay below the
        largest 64-bit number, so only the term decides. */
    method DropOlder(term: nat)
      modifies pending, `batch
      ensures var n := OlderCount(old(pending.queue), term);
              pending.queue == old(pending.queue)[n..] && batch == old(batch) + StaleReplies(old(pending.queue)[..n])
    {
      hide StaleReplies;
      ghost var q := pending.queue;
      ghost var i := 0;
      NoReplies(q);
      while pending.queue != [] && pending.queue[0].entry.term < term
        invariant i <= |q| && pending.queue == q[i..] && batch == old(batch) + StaleReplies(q[..i])
        invariant OlderCount(q, term) == i + OlderCount(q[i..], term)
        decreases |q| - i
      {
        var head := pending.queue[0];
        pending.queue := pending.queue[1..];
        batch := batch + [Reply(head.cb, head.entry, STALE)];
        assert q[i..][1..] == q[i + 1..];
        OneMoreReply(q, i);
        i := i + 1;
      }
    }

    method NotifyStale(stale: seq<Registered>)
      modifies `invoked
      ensures invoked == old(invoked) + StaleReplies(stale)
    {
      var i := 0;
      assert invoked + StaleReplies(stale[..0]) == invoked;
      while i < |stale|
        invariant 0 <= i <= |stale| && invoked == old(invoked) + StaleReplies(stale[..i])
      {
        invoked := invoked + [Reply(stale[i].cb, stale[i].entry, STALE)];
        assert StaleReplies(stale[..i + 1]) == StaleReplies(stale[..i]) + [Reply(stale[i].cb, stale[i].entry, STALE)];
        i := i + 1;
      }
      assert stale[..i] == stale;
    }

    method HandleRaftEntryNormal(e: Entry) returns (ok: bool)
      modifies pending, `batch, `invoked, `appliedIndex
      ensures ok == ApplyEntry(old(Now()), e).Applying?
      ensures ok ==> Now() == ApplyEntry(old(Now()), e) && appliedIndex == e.index
    {
      hide Find;
      if e.payload.Empty? {
        if e.term == 0 { return false; }
        appliedIndex := e.index;
        DropOlder(e.term);
        return true;
      }
      if e.index == 0 { return false; }
      var resp := RaftCmdResponse(None, []);
      if e.payload.Requests? {
        var executed, r := ExecWriteCmd(e.index, e.payload.requests);
        if !executed { return false; }
        resp := r;
      }
      var found, stale, hit := pending.FindCallback(e);
      if !found { return false; }
      NotifyStale(stale);
      if hit.Some? {
        batch := batch + [Reply(hit.value.cb, e, resp)];
      } else {
        assert batch + [] == batch;
      }
      appliedIndex := e.index;
      return true;
    }

    method HandleRaftCommittedEntries(entries: seq<Entry>) returns (ok: bool)
      modifies pending, `batch, `invoked, `appliedIndex
      ensures ok == ApplyAll(old(appliedIndex), old(Now()), entries).Applying?
      ensures ok ==> Now() == ApplyAll(old(appliedIndex), old(Now()), entries)
                     && appliedIndex == old(appliedIndex) + |entries|
    {
      hide ApplyEntry;
      var i := 0;
      while i < |entries|
        invariant 0 <= i <= |entries| && appliedIndex == old(appliedIndex) + i
        invariant Now() == ApplyAll(old(appliedIndex), old(Now()), entries[..i])
      {
        assert entries[..i + 1][..i] == entries[..i];
        if entries[i].index != appliedIndex + 1 {
          ApplyPanicStays(old(appliedIndex), old(Now()), entries, i + 1);
          return false;
        }
        var handled := HandleRaftEntryNormal(entries[i]);
        if !handled {
          ApplyPanicStays(old(appliedIndex), old(Now()), entries, i + 1);
          return false;
        }
        i := i + 1;
      }
      assert entries[..i] == entries;
      return true;
    }

    /** One apply task, as `ApplyStep` of the model: false where the program panics. */
    method HandleApply(task: ApplyTask, ghost s: Peer) returns (ok: bool)
      requires task.entries != [] && s.tasks != [] && s.tasks[0] == task
      requires Represents(s)
      modifies this, pending
      ensures ok == ApplyStep(s, task).Some?
      ensures ok ==> Represents(ApplyStep(s, task).value)
    {
      var last := task.entries[|task.entries| - 1];
      if commitIndex > last.index || commitTerm > last.term { return false; }
      commitIndex, commitTerm := last.index, last.term;
      AppendProposal(task.cbs);
      ok := HandleRaftCommittedEntries(task.entries);
    }

    method AppendProposal(cbs: seq<Registered>)
      modifies pending
      ensures pending.queue == old(pending.queue) + cbs
    {
      var i := 0;
      while i < |cbs|
        invariant 0 <= i <= |cbs| && pending.queue == old(pending.queue) + cbs[..i]
      {
        pending.queue := pending.queue + [cbs[i]];
        i := i + 1;
      }
      assert cbs[..i] == cbs;
    }

    /** Invoke the callbacks of the applied batch, in order. */
    method WriteToDb()
      modifies `batch, `invoked
      ensures batch == [] && invoked == old(invoked) + old(batch)
    {
      var drained := batch;
      batch := [];
      var i := 0;
      while i < |drained|
        invariant 0 <= i <= |drained| && batch == [] && invoked == old(invoked) + drained[..i]
      {
        invoked := invoked + [drained[i]];
        i := i + 1;
      }
      assert drained[..i] == drained;
    }
  }

  lemma {:induction false} ApplyPanicStays(applied: nat, a: Applying, entries: seq<Entry>, n: nat)
    requires a.Applying? && n <= |entries| && ApplyAll(applied, a, entries[..n]).ApplyPanic?
    ensures ApplyAll(applied, a, entries).ApplyPanic?
    decreases |entries| - n
  {
    if n == |entries| {
      assert entries[..n] == entries;
    } else {
      assert entries[..n + 1][..n] == entries[..n];
      ApplyPanicStays(applied, a, entries, n + 1);
    }
  }
}
