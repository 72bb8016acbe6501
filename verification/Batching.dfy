/** Client commands batched into raft entries, and the response slices handed back to them. */
module Batching {
  import opened WalletTypes

  datatype CmdType = MessageQueue | Invalid

  datatype Request = Request(cmdType: CmdType, payload: seq<uint8>)

  datatype RaftCmdRequest = RaftCmdRequest(header: nat, requests: seq<Request>)

  /** What `handle_message_queue` answers to one request. */
  datatype MqResponse = MqResponse(index: nat, offset: nat)

  datatype RaftCmdResponse = RaftCmdResponse(error: Option<string>, responses: seq<MqResponse>)

  /** A callback of a client, or the callback of a batch that fans a response out. */
  datatype Callback = NoCallback | Write(id: nat) | Fan(parts: seq<Part>)
  datatype Part = Part(callback: Callback, count: nat)

  datatype Invocation = Invocation(id: nat, response: RaftCmdResponse)

  /** The part of a response that belongs to requests `[from, to)`; an error goes to everybody. */
  function Slice(resp: RaftCmdResponse, from: nat, to: nat): RaftCmdResponse
    requires from <= to
  {
    RaftCmdResponse(resp.error, if resp.error.Some? || |resp.responses| < to then [] else resp.responses[from..to])
  }

  /** The client callbacks an invocation reaches, and with what. */
  function Invoke(cb: Callback, resp: RaftCmdResponse): seq<Invocation>
    decreases cb, if cb.Fan? then |cb.parts| + 2 else 0
  {
    match cb
    case NoCallback => []
    case Write(id) => [Invocation(id, resp)]
    case Fan(parts) => InvokeParts(cb, 0, resp, 0)
  }

  function InvokeParts(cb: Callback, k: nat, resp: RaftCmdResponse, from: nat): seq<Invocation>
    requires cb.Fan? && k <= |cb.parts|
    decreases cb, |cb.parts| - k + 1
  {
    if k == |cb.parts| then []
    else
      var part := cb.parts[k];
      var to := from + part.count;
      Invoke(part.callback, Slice(resp, from, to)) + InvokeParts(cb, k + 1, resp, to)
  }

  // ---------- commands and the entries they become ----------

  datatype Command = Command(request: RaftCmdRequest, size: nat, callback: Callback)

  datatype Proposal = Proposal(request: RaftCmdRequest, callback: Callback)

  function Concat<T>(xs: seq<seq<T>>): seq<T> {
    if xs == [] then [] else Concat(xs[..|xs| - 1]) + xs[|xs| - 1]
  }

  function RequestsOf(cmds: seq<Command>): seq<Request> {
    if cmds == [] then [] else RequestsOf(cmds[..|cmds| - 1]) + cmds[|cmds| - 1].request.requests
  }

  function PartsOf(cmds: seq<Command>): seq<Part> {
    seq(|cmds|, i requires 0 <= i < |cmds| => Part(cmds[i].callback, |cmds[i].request.requests|))
  }

  function SizeOf(cmds: seq<Command>): nat {
    if cmds == [] then 0 else SizeOf(cmds[..|cmds| - 1]) + cmds[|cmds| - 1].size
  }

  /** The entry a group of commands is proposed as. */
  function Merge(cmds: seq<Command>): Proposal
    requires cmds != []
  {
    Proposal(RaftCmdRequest(cmds[0].request.header, RequestsOf(cmds)),
             if |cmds| == 1 then cmds[0].callback else Fan(PartsOf(cmds)))
  }

  predicate AllQueued(requests: seq<Request>) {
    forall i | 0 <= i < |requests| :: requests[i].cmdType.MessageQueue?
  }

  predicate Batchable(max: real, cmd: Command) {
    cmd.request.requests != [] && cmd.size as real <= max * 0.2 && AllQueued(cmd.request.requests)
  }

  /** A proposed group: one command that could not join a batch, or commands with one header, each
      of at most 20% of the entry limit and together of at most 60%. */
  ghost predicate GoodGroup(max: real, group: seq<Command>) {
    && group != []
    && (|group| == 1 || Batched(max, group))
  }

  ghost predicate Batched(max: real, group: seq<Command>) {
    && (forall i | 0 <= i < |group| :: Batchable(max, group[i]) && group[i].request.header == group[0].request.header)
    && SizeOf(group) as real <= max * 0.6
  }

  /** Every proposal is the merge of its group. */
  ghost predicate Proposed(max: real, groups: seq<seq<Command>>, proposals: seq<Proposal>) {
    && |groups| == |proposals|
    && forall i | 0 <= i < |groups| :: GoodGroup(max, groups[i]) && proposals[i] == Merge(groups[i])
  }

  /** Too large to take another command: above 40% of the limit, or more than 256 requests. */
  ghost predicate Full(max: real, group: seq<Command>) {
    SizeOf(group) as real > max * 0.4 || |RequestsOf(group)| > 256
  }

  /** The command could be merged with the group. */
  ghost predicate Joins(max: real, group: seq<Command>, cmd: Command) {
    && group != [] && Batchable(max, cmd) && cmd.request.header == group[0].request.header
    && forall i | 0 <= i < |group| :: Batchable(max, group[i]) && group[i].request.header == group[0].request.header
  }

  /** A command proposed alone because the open batch before it has another header. */
  ghost predicate PushedOut(max: real, groups: seq<seq<Command>>, i: nat)
    requires i < |groups|
  {
    && |groups[i]| == 1 && 0 < i && groups[i - 1] != []
    && groups[i][0].request.header != groups[i - 1][0].request.header
  }

  /** Why group `i` takes no further command: it is full, cannot be merged with anything, was pushed
      out, or the next command does not join it. */
  ghost predicate Ended(max: real, groups: seq<seq<Command>>, i: nat)
    requires i < |groups|
  {
    || Full(max, groups[i])
    || (groups[i] != [] && !Joins(max, groups[i], groups[i][0]))
    || PushedOut(max, groups, i)
    || (i + 1 < |groups| && groups[i + 1] != [] && !Joins(max, groups[i], groups[i + 1][0]))
  }

  /** No group was still open before its last command, and the first `n` ended for a reason. */
  ghost predicate Greedy(max: real, groups: seq<seq<Command>>, n: nat)
    requires n <= |groups|
  {
    && (forall i | 0 <= i < |groups| && 1 < |groups[i]| :: !Full(max, groups[i][..|groups[i]| - 1]))
    && (forall i | 0 <= i < n :: Ended(max, groups, i))
  }

  lemma EndedLonger(max: real, groups: seq<seq<Command>>, more: seq<seq<Command>>, i: nat)
    requires i < |groups| && Ended(max, groups, i)
    ensures Ended(max, groups + more, i)
  {
    hide Full, Joins;
  }

  lemma GreedySnoc(max: real, groups: seq<seq<Command>>, group: seq<Command>)
    requires Greedy(max, groups, |groups|) && (1 < |group| ==> !Full(max, group[..|group| - 1]))
    ensures Greedy(max, groups + [group], |groups|)
    ensures Ended(max, groups + [group], |groups|) ==> Greedy(max, groups + [group], |groups| + 1)
  {
    hide Full, Ended;
    forall i | 0 <= i < |groups| ensures Ended(max, groups + [group], i) { EndedLonger(max, groups, [group], i); }
  }

  /** A batch closed by a command that does not join it, and that command alone. */
  lemma GreedyPair(max: real, groups: seq<seq<Command>>, batch: seq<Command>, cmd: Command)
    requires Greedy(max, groups, |groups|) && batch != [] && !Full(max, batch)
    requires 1 < |batch| ==> !Full(max, batch[..|batch| - 1])
    requires Batchable(max, cmd) ==> cmd.request.header != batch[0].request.header
    ensures Greedy(max, groups + [batch] + [[cmd]], |groups| + 2)
  {
    hide Full;
    var all := groups + [batch] + [[cmd]];
    GreedySnoc(max, groups, batch);
    forall i | 0 <= i < |groups| ensures Ended(max, all, i) {
      assert Ended(max, groups + [batch], i);
      EndedLonger(max, groups + [batch], [[cmd]], i);
    }
    assert all[|groups|] == batch && all[|groups| + 1] == [cmd];
    assert Ended(max, all, |groups|);
    assert Ended(max, all, |groups| + 1);
  }

  lemma {:induction false} FullGrows(max: real, group: seq<Command>, cmd: Command)
    requires Full(max, group)
    ensures Full(max, group + [cmd])
  {
    assert (group + [cmd])[..|group|] == group;
  }

  lemma ProposedSnoc(max: real, groups: seq<seq<Command>>, proposals: seq<Proposal>, group: seq<Command>)
    requires Proposed(max, groups, proposals) && GoodGroup(max, group)
    ensures Proposed(max, groups + [group], proposals + [Merge(group)])
    ensures Concat(groups + [group]) == Concat(groups) + group
  {
    assert (groups + [group])[..|groups|] == groups;
  }

  // ---------- the builder ----------

  const MAX_KEYS: nat := 256

  class BatchRaftCmdRequestBuilder {
    const raftEntryMaxSize: real
    var batchReqSize: nat
    var request: Option<RaftCmdRequest>
    var callbacks: seq<Part>
    ghost var members: seq<Command>

    /** The builder holds the merged members, still below the finishing size. */
    ghost predicate Valid()
      reads this
    {
      && request == (if members == [] then None
                     else Some(RaftCmdRequest(members[0].request.header, RequestsOf(members))))
      && callbacks == PartsOf(members) && batchReqSize == SizeOf(members)
      && (members != [] ==> Batched(raftEntryMaxSize, members))
    }

    constructor (max: real)
      ensures Valid() && members == [] && raftEntryMaxSize == max
    {
      raftEntryMaxSize := max;
      batchReqSize, request, callbacks, members := 0, None, [], [];
    }

    /** Batchable on its own, and with the header of the batch so far. */
    predicate CanBatch(cmd: Command)
      reads this
    {
      Batchable(raftEntryMaxSize, cmd) && (request.Some? ==> request.value.header == cmd.request.header)
    }

    predicate ShouldFinish()
      reads this
    {
      request.Some? && (batchReqSize as real > raftEntryMaxSize * 0.4 || |request.value.requests| > MAX_KEYS)
    }

    method Add(cmd: Command)
      requires Valid() && CanBatch(cmd) && !ShouldFinish()
      modifies this
      ensures Valid() && members == old(members) + [cmd]
    {
      if request.Some? {
        request := Some(request.value.(requests := request.value.requests + cmd.request.requests));
      } else {
        request := Some(cmd.request);
      }
      callbacks := callbacks + [Part(cmd.callback, |cmd.request.requests|)];
      batchReqSize := batchReqSize + cmd.size;
      ghost var was := members;
      members := members + [cmd];
      assert members[..|was|] == was;
      assert was == [] ==> [] + cmd.request.requests == cmd.request.requests;
    }

    /** Hand over the merged batch and start afresh. */
    method Build() returns (r: Option<Proposal>)
      requires Valid()
      modifies this
      ensures Valid() && members == []
      ensures r == if old(members) == [] then None else Some(Merge(old(members)))
    {
      if request.None? { return None; }
      var req := request.value;
      if |callbacks| == 1 {
        r := Some(Proposal(req, callbacks[0].callback));
      } else {
        r := Some(Proposal(req, Fan(callbacks)));
      }
      request, batchReqSize, callbacks, members := None, 0, [], [];
    }

    /** The command messages of one round: the proposals are the merges of consecutive groups, so
        client commands keep their arrival order and none is lost or repeated. */
    method HandleCommands(cmds: seq<Command>) returns (proposals: seq<Proposal>, ghost groups: seq<seq<Command>>)
      requires Valid() && members == []
      modifies this
      ensures Valid() && members == []
      ensures Concat(groups) == cmds && Proposed(raftEntryMaxSize, groups, proposals)
      ensures Greedy(raftEntryMaxSize, groups, if groups == [] then 0 else |groups| - 1)
    {
      hide Proposed, Concat, Merge, GoodGroup, Greedy, Full, Batched;
      proposals, groups := [], [];
      NothingProposed(raftEntryMaxSize);
      var i := 0;
      while i < |cmds|
        invariant 0 <= i <= |cmds| && Valid() && !ShouldFinish()
        invariant Concat(groups) + members == cmds[..i]
        invariant Proposed(raftEntryMaxSize, groups, proposals)
        invariant Greedy(raftEntryMaxSize, groups, |groups|)
      {
        proposals, groups := HandleCommand(cmds[i], proposals, groups);
        assert cmds[..i + 1] == cmds[..i] + [cmds[i]];
        i := i + 1;
      }
      ghost var before, open := groups, members;
      OpenBatch();
      proposals, groups := ProposeBatch(proposals, groups);
      assert before + [] == before;
      if open == [] { FewerEnded(raftEntryMaxSize, before); } else { GreedySnoc(raftEntryMaxSize, before, open); }
      assert cmds[..i] == cmds;
    }

    /** A batch that need not be finished is not full, and was not before its last command. */
    lemma OpenBatch()
      requires Valid() && !ShouldFinish()
      ensures members != [] ==> !Full(raftEntryMaxSize, members)
      ensures 1 < |members| ==> !Full(raftEntryMaxSize, members[..|members| - 1])
    {
      if 1 < |members| {
        var init, last := members[..|members| - 1], members[|members| - 1];
        assert members == init + [last];
        if Full(raftEntryMaxSize, init) { FullGrows(raftEntryMaxSize, init, last); }
      }
    }

    lemma FinishedBatch()
      requires Valid() && ShouldFinish()
      ensures members != [] && Full(raftEntryMaxSize, members)
    {
    }

    method HandleCommand(cmd: Command, proposals: seq<Proposal>, ghost groups: seq<seq<Command>>)
        returns (proposals': seq<Proposal>, ghost groups': seq<seq<Command>>)
      requires Valid() && !ShouldFinish() && Proposed(raftEntryMaxSize, groups, proposals)
      requires Greedy(raftEntryMaxSize, groups, |groups|)
      modifies this
      ensures Valid() && !ShouldFinish() && Proposed(raftEntryMaxSize, groups', proposals')
      ensures Greedy(raftEntryMaxSize, groups', |groups'|)
      ensures Concat(groups') + members == Concat(groups) + old(members) + [cmd]
    {
      hide Proposed, Concat, Merge, Batchable, Batched, RequestsOf, PartsOf, SizeOf, Greedy, Full;
      ghost var was := members;
      OpenBatch();
      if CanBatch(cmd) {
        proposals', groups' := proposals, groups;
        Add(cmd);
        assert Concat(groups) + (was + [cmd]) == Concat(groups) + was + [cmd];
        if ShouldFinish() {
          FinishedBatch();
          FullEnds(raftEntryMaxSize, groups, was, cmd);
          proposals', groups' := ProposeBatch(proposals', groups');
        }
      } else {
        AloneEnds(raftEntryMaxSize, groups, was, cmd);
        proposals', groups' := ProposeBatch(proposals, groups);
        SingletonMerge(cmd);
        ProposedSnoc(raftEntryMaxSize, groups', proposals', [cmd]);
        proposals' := proposals' + [Proposal(cmd.request, cmd.callback)];
        groups' := groups' + [[cmd]];
      }
    }

    method ProposeBatch(proposals: seq<Proposal>, ghost groups: seq<seq<Command>>)
        returns (proposals': seq<Proposal>, ghost groups': seq<seq<Command>>)
      requires Valid() && Proposed(raftEntryMaxSize, groups, proposals)
      modifies this
      ensures Valid() && members == [] && Concat(groups') == Concat(groups) + old(members)
      ensures groups' == groups + if old(members) == [] then [] else [old(members)]
      ensures Proposed(raftEntryMaxSize, groups', proposals')
    {
      hide Proposed, Concat, Merge;
      proposals', groups' := proposals, groups;
      ghost var was := members;
      var r := Build();
      if r.Some? {
        ProposedSnoc(raftEntryMaxSize, groups, proposals, was);
        proposals' := proposals + [r.value];
        groups' := groups + [was];
      }
    }
  }

  lemma FewerEnded(max: real, groups: seq<seq<Command>>)
    requires Greedy(max, groups, |groups|)
    ensures groups != [] ==> Greedy(max, groups, |groups| - 1)
  {
  }

  lemma FullEnds(max: real, groups: seq<seq<Command>>, was: seq<Command>, cmd: Command)
    requires Greedy(max, groups, |groups|) && (was != [] ==> !Full(max, was)) && Full(max, was + [cmd])
    ensures Greedy(max, groups + [was + [cmd]], |groups| + 1)
  {
    hide Full;
    assert (was + [cmd])[..|was|] == was;
    GreedySnoc(max, groups, was + [cmd]);
    assert (groups + [was + [cmd]])[|groups|] == was + [cmd];
  }

  /** A command that does not join the open batch `was`, if there is one, or anything at all. */
  lemma AloneEnds(max: real, groups: seq<seq<Command>>, was: seq<Command>, cmd: Command)
    requires Greedy(max, groups, |groups|) && (was != [] ==> !Full(max, was))
    requires 1 < |was| ==> !Full(max, was[..|was| - 1])
    requires Batchable(max, cmd) ==> was != [] && cmd.request.header != was[0].request.header
    ensures var groups' := groups + if was == [] then [] else [was];
            Greedy(max, groups' + [[cmd]], |groups'| + 1)
  {
    hide Full;
    if was == [] {
      GreedySnoc(max, groups, [cmd]);
      assert groups + [] == groups && (groups + [[cmd]])[|groups|] == [cmd];
      assert Ended(max, groups + [[cmd]], |groups|);
    } else {
      GreedyPair(max, groups, was, cmd);
    }
  }

  lemma NothingProposed(max: real)
    ensures Proposed(max, [], []) && Concat<Command>([]) == [] && Greedy(max, [], 0)
  {
  }

  lemma SingletonMerge(cmd: Command)
    ensures Merge([cmd]) == Proposal(cmd.request, cmd.callback)
  {
    assert [cmd][..0] == [] && RequestsOf([cmd]) == [] + cmd.request.requests;
  }

  lemma {:induction false} RequestsOfConcat(a: seq<Command>, b: seq<Command>)
    ensures RequestsOf(a + b) == RequestsOf(a) + RequestsOf(b)
  {
    if b == [] {
      assert a + b == a;
    } else {
      var init, last := b[..|b| - 1], b[|b| - 1];
      RequestsOfConcat(a, init);
      assert (a + b)[..|a + b| - 1] == a + init && (a + b)[|a + b| - 1] == last;
      assert RequestsOf(a + b) == RequestsOf(a + init) + last.request.requests;
      assert RequestsOf(b) == RequestsOf(init) + last.request.requests;
    }
  }

  ghost function ProposedRequests(proposals: seq<Proposal>): seq<Request> {
    if proposals == [] then []
    else ProposedRequests(proposals[..|proposals| - 1]) + proposals[|proposals| - 1].request.requests
  }

  /** The proposed entries hold the client requests in arrival order. */
  lemma {:induction false} OrderIsKept(max: real, groups: seq<seq<Command>>, proposals: seq<Proposal>)
    requires Proposed(max, groups, proposals)
    ensures ProposedRequests(proposals) == RequestsOf(Concat(groups))
  {
    if groups != [] {
      var n := |groups| - 1;
      OrderIsKept(max, groups[..n], proposals[..n]);
      RequestsOfConcat(Concat(groups[..n]), groups[n]);
    }
  }

  // ---------- responses ----------

  /** Where the requests of command `k` start in its entry. */
  function Start(group: seq<Command>, k: nat): nat
    requires k <= |group|
  {
    |RequestsOf(group[..k])|
  }

  lemma StartStep(group: seq<Command>, k: nat)
    requires k < |group|
    ensures Start(group, k + 1) == Start(group, k) + |group[k].request.requests|
  {
    assert group[..k + 1][..k] == group[..k];
  }

  /** The requests of command `k` sit in the entry from its start on, in order. */
  lemma {:induction false} MergedRequests(group: seq<Command>, k: nat)
    requires k < |group|
    ensures Start(group, k) <= Start(group, k + 1) <= |RequestsOf(group)|
    ensures RequestsOf(group)[Start(group, k)..Start(group, k + 1)] == group[k].request.requests
    decreases |group|
  {
    StartStep(group, k);
    var init := group[..|group| - 1];
    if k < |group| - 1 {
      MergedRequests(init, k);
      assert init[..k] == group[..k] && init[..k + 1] == group[..k + 1];
    } else {
      assert group[..k] == init && group[..k + 1] == group;
    }
  }

  /** What command `k` of a group is told: the error of the entry, or the responses to its own
      requests. */
  ghost predicate Told(group: seq<Command>, resp: RaftCmdResponse, k: nat, own: RaftCmdResponse)
    requires k < |group|
  {
    && own.error == resp.error
    && if resp.error.Some? then own.responses == []
       else Start(group, k) <= Start(group, k + 1) <= |resp.responses|
            && own.responses == resp.responses[Start(group, k)..Start(group, k + 1)]
  }

  /** How many of the first `k` commands have a callback. */
  ghost function Waiting(group: seq<Command>, k: nat): nat
    requires k <= |group|
  {
    if k == 0 then 0 else Waiting(group, k - 1) + if group[k - 1].callback.Write? then 1 else 0
  }

  /** The callbacks are those of clients; a batch is never merged again. */
  ghost predicate FromClients(group: seq<Command>) { forall k | 0 <= k < |group| :: !group[k].callback.Fan? }

  /** `out` invokes the callbacks of the commands from `from` on, in order, each as told. */
  ghost predicate InvokesFrom(group: seq<Command>, resp: RaftCmdResponse, from: nat, out: seq<Invocation>)
    requires from <= |group|
  {
    && |out| == Waiting(group, |group|) - Waiting(group, from)
    && forall k | from <= k < |group| && group[k].callback.Write? ::
         var i := Waiting(group, k) - Waiting(group, from);
         0 <= i < |out| && out[i].id == group[k].callback.id && Told(group, resp, k, out[i].response)
  }

  lemma {:induction false} WaitingGrows(group: seq<Command>, j: nat, k: nat)
    requires j <= k <= |group|
    ensures Waiting(group, j) <= Waiting(group, k)
    decreases k
  {
    if j < k { WaitingGrows(group, j, k - 1); }
  }

  lemma SliceIsTold(group: seq<Command>, resp: RaftCmdResponse, k: nat)
    requires k < |group| && |resp.responses| == if resp.error.Some? then 0 else |RequestsOf(group)|
    ensures Start(group, k) <= Start(group, k + 1)
    ensures Told(group, resp, k, Slice(resp, Start(group, k), Start(group, k + 1)))
  {
    MergedRequests(group, k);
  }

  lemma {:induction false} FanInvokes(group: seq<Command>, resp: RaftCmdResponse, k: nat)
    requires FromClients(group) && k <= |group|
    requires |resp.responses| == if resp.error.Some? then 0 else |RequestsOf(group)|
    ensures InvokesFrom(group, resp, k, InvokeParts(Fan(PartsOf(group)), k, resp, Start(group, k)))
    decreases |group| - k
  {
    hide Start, Slice, Told;
    if k < |group| {
      StartStep(group, k);
      SliceIsTold(group, resp, k);
      FanInvokes(group, resp, k + 1);
      var own := Slice(resp, Start(group, k), Start(group, k + 1));
      var rest := InvokeParts(Fan(PartsOf(group)), k + 1, resp, Start(group, k + 1));
      var out := Invoke(group[k].callback, own) + rest;
      assert InvokeParts(Fan(PartsOf(group)), k, resp, Start(group, k)) == out;
      InvokesOne(group, resp, k, own, rest);
    }
  }

  lemma InvokesOne(group: seq<Command>, resp: RaftCmdResponse, k: nat, own: RaftCmdResponse, rest: seq<Invocation>)
    requires k < |group| && !group[k].callback.Fan? && Told(group, resp, k, own)
    requires InvokesFrom(group, resp, k + 1, rest)
    ensures InvokesFrom(group, resp, k, Invoke(group[k].callback, own) + rest)
  {
    hide Told;
    var out := Invoke(group[k].callback, own) + rest;
    WaitingGrows(group, k + 1, |group|);
    forall j | k <= j < |group| && group[j].callback.Write?
      ensures var i := Waiting(group, j) - Waiting(group, k);
              0 <= i < |out| && out[i].id == group[j].callback.id && Told(group, resp, j, out[i].response)
    {
      if j > k {
        WaitingGrows(group, k + 1, j);
        var i := Waiting(group, j) - Waiting(group, k + 1);
        assert 0 <= i < |rest| && rest[i].id == group[j].callback.id && Told(group, resp, j, rest[i].response);
        assert out[Waiting(group, j) - Waiting(group, k)] == rest[i];
      }
    }
  }

  /** Batching is invisible to a client: the callbacks of a group are invoked once each, in order,
      with exactly the responses to their own requests, or each with the error of the entry. */
  lemma EachClientIsAnswered(group: seq<Command>, resp: RaftCmdResponse)
    requires group != [] && FromClients(group)
    requires |resp.responses| == if resp.error.Some? then 0 else |RequestsOf(group)|
    ensures InvokesFrom(group, resp, 0, Invoke(Merge(group).callback, resp))
  {
    assert group[..0] == [];
    if |group| == 1 {
      assert group[..1] == group;
      assert Start(group, 0) == 0 && Start(group, 1) == |RequestsOf(group)|;
      assert resp.responses[0..|resp.responses|] == resp.responses;
      assert Told(group, resp, 0, resp);
    } else {
      FanInvokes(group, resp, 0);
    }
  }

  lemma {:induction false} AllWaiting(group: seq<Command>, k: nat)
    requires k <= |group| && forall j | 0 <= j < k :: group[j].callback.Write?
    ensures Waiting(group, k) == k
  {
    if k > 0 { AllWaiting(group, k - 1); }
  }

  /** With a callback for every command there are as many invocations, and invocation `k` is that of
      command `k`. */
  lemma EachClientGetsItsSlice(group: seq<Command>, resp: RaftCmdResponse, k: nat)
    requires k < |group| && forall j | 0 <= j < |group| :: group[j].callback.Write?
    requires |resp.responses| == if resp.error.Some? then 0 else |RequestsOf(group)|
    ensures var out := Invoke(Merge(group).callback, resp);
            && |out| == |group|
            && out[k].id == group[k].callback.id && out[k].response.error == resp.error
            && (resp.error.Some? ==> out[k].response.responses == [])
            && (resp.error.None? ==>
                  && Start(group, k) <= Start(group, k + 1) <= |resp.responses|
                  && out[k].response.responses == resp.responses[Start(group, k)..Start(group, k + 1)])
  {
    hide Start, Invoke, Merge, InvokesFrom, Told;
    EachClientIsAnswered(group, resp);
    var out := Invoke(Merge(group).callback, resp);
    AnswerNumber(group, resp, out, k);
    ToldIs(group, resp, k, out[k].response);
  }

  lemma AnswerNumber(group: seq<Command>, resp: RaftCmdResponse, out: seq<Invocation>, k: nat)
    requires forall j | 0 <= j < |group| :: group[j].callback.Write?
    requires InvokesFrom(group, resp, 0, out) && k < |group|
    ensures |out| == |group| && out[k].id == group[k].callback.id && Told(group, resp, k, out[k].response)
  {
    hide Told;
    AllWaiting(group, |group|);
    AllWaiting(group, k);
  }

  lemma ToldIs(group: seq<Command>, resp: RaftCmdResponse, k: nat, own: RaftCmdResponse)
    requires k < |group| && Told(group, resp, k, own)
    ensures own.error == resp.error && (resp.error.Some? ==> own.responses == [])
    ensures resp.error.None? ==>
              Start(group, k) <= Start(group, k + 1) <= |resp.responses|
              && own.responses == resp.responses[Start(group, k)..Start(group, k + 1)]
  {
    hide Start;
  }

  // ---------- executing an entry ----------

  /** The response to a write entry: request `offset` is answered with its log position. */
  function Positions(index: nat, n: nat): seq<MqResponse> { seq(n, i requires 0 <= i < n => MqResponse(index, i)) }

  /** `ok` is false where the program meets a request it calls unreachable. */
  method ExecWriteCmd(index: nat, requests: seq<Request>) returns (ok: bool, resp: RaftCmdResponse)
    ensures ok <==> AllQueued(requests)
    ensures ok ==> resp == RaftCmdResponse(None, Positions(index, |requests|))
  {
    var responses: seq<MqResponse> := [];
    var offset := 0;
    while offset < |requests|
      invariant 0 <= offset <= |requests| && responses == Positions(index, offset)
      invariant forall i | 0 <= i < offset :: requests[i].cmdType.MessageQueue?
    {
      if !requests[offset].cmdType.MessageQueue? { return false, RaftCmdResponse(None, []); }
      responses := responses + [MqResponse(index, offset)];
      offset := offset + 1;
    }
    return true, RaftCmdResponse(None, responses);
  }

  lemma RequestAt(group: seq<Command>, k: nat, r: nat)
    requires k < |group| && r < |group[k].request.requests|
    ensures Start(group, k) + r < |RequestsOf(group)|
    ensures RequestsOf(group)[Start(group, k) + r] == group[k].request.requests[r]
  {
    MergedRequests(group, k);
    StartStep(group, k);
    hide Start, RequestsOf;
    var all := RequestsOf(group);
    assert all[Start(group, k)..Start(group, k + 1)][r] == all[Start(group, k) + r];
  }

  /** The positions a client is told are those its own requests have in the entry. */
  lemma ClientPositions(group: seq<Command>, index: nat, k: nat, r: nat, own: RaftCmdResponse)
    requires k < |group| && r < |group[k].request.requests|
    requires Told(group, RaftCmdResponse(None, Positions(index, |RequestsOf(group)|)), k, own)
    ensures |own.responses| == |group[k].request.requests|
    ensures own.responses[r] == MqResponse(index, Start(group, k) + r)
    ensures Start(group, k) + r < |RequestsOf(group)|
    ensures RequestsOf(group)[own.responses[r].offset] == group[k].request.requests[r]
  {
    hide Start, RequestsOf;
    RequestAt(group, k, r);
    StartStep(group, k);
  }
}
