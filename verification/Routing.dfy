/** From a client's command in a batch, through the log, the wallet and the broker, back to it. */
module Routing {
  import opened WalletTypes
  import opened Batching
  import opened Callbacks
  import opened LogConsumer
  import CS = CallbackSystem
  import CT = CallbackTheorems
  import CO = CallbackOutcomes
  import L = Ledger
  import Wal = WalletSystem
  import WT = WalletTheorems
  import B = MessageBroker
  import Store = WalletStore

  // ---------- the broker answers a channel for its own position, whatever arrives ----------

  /** What holds for every arrival order, with positions repeated or not. */
  ghost predicate Routed(b: B.Broker, reqs: set<B.InflightRequest>, evs: set<B.InflightEvent>) {
    && b.requests.Keys !! b.events.Keys
    && (forall p <- b.requests :: b.requests[p].position == p && b.requests[p] in reqs)
    && (forall p <- b.events :: b.events[p].position == p && b.events[p] in evs)
    && (forall i | 0 <= i < |b.replies| :: B.GoodReply(b.replies[i], reqs, evs))
  }

  lemma {:induction false} EvictRoutes(b: B.Broker, reqs: set<B.InflightRequest>, evs: set<B.InflightEvent>, limit: nat)
    requires Routed(b, reqs, evs)
    ensures Routed(B.Evict(b, limit), reqs, evs)
    decreases |b.events|
  {
    if |b.events| > limit {
      var p := B.First(b.events.Keys);
      B.Shrinks(b.events, p);
      EvictRoutes(b.(events := b.events - {p}, evicted := b.evicted + [b.events[p]]), reqs, evs, limit);
    }
  }

  lemma {:induction false} ExpireRoutes(b: B.Broker, reqs: set<B.InflightRequest>, evs: set<B.InflightEvent>, now: nat)
    requires Routed(b, reqs, evs)
    ensures Routed(B.Expire(b, now), reqs, evs)
    decreases |b.requests|
  {
    if b.requests != map[] {
      var p := B.First(b.requests.Keys);
      B.Shrinks(b.requests, p);
      if B.Expired(b.requests[p], now) {
        ExpireRoutes(B.Answer(b.(requests := b.requests - {p}), b.requests[p].sender, B.TimeoutAt(p)), reqs, evs, now);
      }
    }
  }

  lemma MoreInputs(b: B.Broker, reqs: set<B.InflightRequest>, evs: set<B.InflightEvent>,
                   reqs': set<B.InflightRequest>, evs': set<B.InflightEvent>)
    requires Routed(b, reqs, evs) && reqs <= reqs' && evs <= evs'
    ensures Routed(b, reqs', evs')
  {
    forall i | 0 <= i < |b.replies| ensures B.GoodReply(b.replies[i], reqs', evs') {
      assert B.GoodReply(b.replies[i], reqs, evs);
    }
  }

  lemma {:induction false} EveryReplyIsRouted(actions: seq<B.Action>)
    ensures Routed(B.After(actions), B.Requested(actions), B.Published(actions))
  {
    if actions != [] {
      var init, action := actions[..|actions| - 1], actions[|actions| - 1];
      assert actions == init + [action];
      EveryReplyIsRouted(init);
      B.InputsSnoc(init, action);
      MoreInputs(B.After(init), B.Requested(init), B.Published(init), B.Requested(actions), B.Published(actions));
      StepRoutes(B.After(init), B.Requested(actions), B.Published(actions), action);
    }
  }

  lemma StepRoutes(b: B.Broker, reqs: set<B.InflightRequest>, evs: set<B.InflightEvent>, action: B.Action)
    requires Routed(b, reqs, evs)
    requires (action.Request? ==> action.request in reqs) && (action.Event? ==> action.event in evs)
    ensures Routed(B.Step(b, action), reqs, evs)
  {
    match action
    case Request(r) =>
    case Event(e) =>
    case EvictEvents(limit) => EvictRoutes(b, reqs, evs, limit);
    case ExpireRequests(now) => ExpireRoutes(b, reqs, evs, now);
  }

  // ---------- the wallet's log is the committed raft log ----------

  /** The commands of the committed entries after the bootstrap index, entry by entry. */
  ghost function WalletLog(parse: Parser, committed: seq<Entry>): Wal.Log
    requires Store.INITIAL_APPLIED_INDEX <= |committed|
  {
    seq(|committed| - Store.INITIAL_APPLIED_INDEX,
        i requires 0 <= i < |committed| - Store.INITIAL_APPLIED_INDEX
        => Messages(parse, committed[i + Store.INITIAL_APPLIED_INDEX]))
  }

  lemma CommandOfEntry(parse: Parser, committed: seq<Entry>, e: Entry, offset: nat)
    requires Store.INITIAL_APPLIED_INDEX <= |committed|
    requires Committed(committed, e) && Store.INITIAL_APPLIED_INDEX < e.index
    requires e.payload.Requests? && offset < |e.payload.requests|
    ensures var p := L.Position(e.index, offset);
            && Wal.InLog(WalletLog(parse, committed), p)
            && Wal.CommandAt(WalletLog(parse, committed), p) == parse(e.payload.requests[offset].payload)
  {
    var k := e.index - Store.INITIAL_APPLIED_INDEX - 1;
    assert WalletLog(parse, committed)[k] == Messages(parse, e);
  }

  /** The events the broker is given are the wallet's answers. */
  ghost predicate FedBy(actions: seq<B.Action>, sys: Wal.System) {
    forall i | 0 <= i < |actions| && actions[i].Event? ::
      exists o <- sys.m.sent :: o.position == actions[i].event.position && o.response == actions[i].event.response
  }

  /** Step `k` of the wallet's run executed `cmd` at `p`, and `response` is the answer to `cmd` in the
      state of that moment: its event, its retained event, or its own error. */
  ghost predicate OwnAnswerAt(log: Wal.Log, actions: seq<Wal.Action>, k: nat, p: L.Position, cmd: L.Command,
                              response: L.Response) {
    && WT.AnsweredAt(log, actions, k, p, response)
    && var sys := WT.Reached(log, actions[..k]);
       Wal.AnswerTo(L.State(sys.m.accounts, sys.history), Store.First(sys.m.db), p, cmd, response)
  }

  ghost predicate OwnAnswer(log: Wal.Log, actions: seq<Wal.Action>, p: L.Position, cmd: L.Command,
                            response: L.Response) {
    exists k: nat :: OwnAnswerAt(log, actions, k, p, cmd, response)
  }

  /** In particular an event that comes back carries the id of the command. */
  lemma OwnEvent(log: Wal.Log, actions: seq<Wal.Action>, p: L.Position, cmd: L.Command, event: L.Event)
    requires OwnAnswer(log, actions, p, cmd, Ok(event))
    ensures event.header.commandId == cmd.id
  {
    var k: nat :| OwnAnswerAt(log, actions, k, p, cmd, Ok(event));
  }

  lemma BrokerAnswers(log: Wal.Log, walletActions: seq<Wal.Action>, brokerActions: seq<B.Action>, i: nat)
    requires Wal.After(log, walletActions).Some?
    requires FedBy(brokerActions, WT.Reached(log, walletActions))
    requires i < |B.After(brokerActions).replies|
    requires Wal.InLog(log, B.After(brokerActions).replies[i].event.position)
    ensures var reply := B.After(brokerActions).replies[i];
            var p := reply.event.position;
            B.IsTimeout(reply) || OwnAnswer(log, walletActions, p, Wal.CommandAt(log, p), reply.event.response)
  {
    hide Wal.After, B.After, Wal.AnswerTo, WT.AnsweredAt;
    EveryReplyIsRouted(brokerActions);
    var reply := B.After(brokerActions).replies[i];
    assert B.GoodReply(reply, B.Requested(brokerActions), B.Published(brokerActions));
    if !B.IsTimeout(reply) {
      assert reply.event in B.Published(brokerActions);
      var a :| a in brokerActions && a.Event? && a.event == reply.event;
      var j :| 0 <= j < |brokerActions| && brokerActions[j] == a;
      var sent := WT.Reached(log, walletActions).m.sent;
      var o :| o in sent && o.position == reply.event.position && o.response == reply.event.response;
      var n :| 0 <= n < |sent| && sent[n] == o;
      var k := WT.AnswersAreForTheirCommand(log, walletActions, n);
      var p := reply.event.position;
      assert OwnAnswerAt(log, walletActions, k, p, Wal.CommandAt(log, p), reply.event.response);
    }
  }

  /** A channel used for one request hears only of the position of that request. */
  lemma ChannelHearsItsPosition(actions: seq<B.Action>, request: B.InflightRequest, i: nat)
    requires request in B.Requested(actions)
    requires forall r <- B.Requested(actions) :: r.sender == request.sender ==> r == request
    requires i < |B.After(actions).replies| && B.After(actions).replies[i].sender == request.sender
    ensures B.After(actions).replies[i].event.position == request.position
  {
    hide B.After;
    EveryReplyIsRouted(actions);
    var reply := B.After(actions).replies[i];
    assert B.GoodReply(reply, B.Requested(actions), B.Published(actions));
  }

  // ---------- end to end ----------

  /** The proposal of a merged group. */
  ghost predicate Proposes(action: CS.Action, group: seq<Command>) {
    && group != [] && action.Propose?
    && action.cb == Merge(group).callback && action.payload == Requests(Merge(group).request.requests)
  }

  /** A group of client commands that was proposed, with callbacks used only there, and answered. */
  ghost predicate AnsweredBatch(actions: seq<CS.Action>, s: CS.Peer, group: seq<Command>, a: nat) {
    && (exists i | 0 <= i < |actions| :: Proposes(actions[i], group))
    && CT.Handed(actions)[Merge(group).callback] == 1
    && a < |s.invoked| && s.invoked[a].Reply? && s.invoked[a].resp != CS.STALE
    && s.invoked[a].cb == Merge(group).callback
  }

  /** The answered entry is the one the group was proposed as. */
  lemma AnsweredForTheGroup(history: seq<Entry>, term: nat, actions: seq<CS.Action>, group: seq<Command>, a: nat)
    requires LogOk(history) && CT.Granted(CS.Started(history, term), actions)
    requires CT.After(CS.Started(history, term), actions).Some?
    requires AnsweredBatch(actions, CT.After(CS.Started(history, term), actions).value, group, a)
    ensures var e := CT.After(CS.Started(history, term), actions).value.invoked[a].entry;
            e.payload == Requests(Merge(group).request.requests) && |history| < e.index
  {
    hide CT.After, CT.Granted, LogOk, CT.Handed, Merge;
    var s := CT.After(CS.Started(history, term), actions).value;
    assert s.committed + [] == s.committed;
    CT.EveryCallbackIsAccountedFor(history, term, actions);
    assert LogOk(s.committed + []);
    CT.AnswersAreTruthful(history, term, actions, a, []);
    var k := CO.ProposedByAction(history, term, actions, Registered(s.invoked[a].entry, s.invoked[a].cb));
    var i :| 0 <= i < |actions| && Proposes(actions[i], group);
    CO.OneProposal(actions, i, k);
  }

  /** The wallet's command where request `r` of command `k` of an answered batch sits in its entry. */
  lemma CommandOfRequest(parse: Parser, history: seq<Entry>, term: nat, actions: seq<CS.Action>, later: seq<Entry>,
                         group: seq<Command>, a: nat, k: nat, r: nat)
    requires LogOk(history) && CT.Granted(CS.Started(history, term), actions)
    requires CT.After(CS.Started(history, term), actions).Some?
    requires Store.INITIAL_APPLIED_INDEX <= |history|
    requires AnsweredBatch(actions, CT.After(CS.Started(history, term), actions).value, group, a)
    requires LogOk(CT.After(CS.Started(history, term), actions).value.committed + later)
    requires k < |group| && r < |group[k].request.requests|
    ensures var s := CT.After(CS.Started(history, term), actions).value;
            var e, log := s.invoked[a].entry, s.committed + later;
            var p := L.Position(e.index, Start(group, k) + r);
            && s.invoked[a].resp == RaftCmdResponse(None, Positions(e.index, |RequestsOf(group)|))
            && Store.INITIAL_APPLIED_INDEX <= |log|
            && Wal.InLog(WalletLog(parse, log), p)
            && Wal.CommandAt(WalletLog(parse, log), p) == parse(group[k].request.requests[r].payload)
  {
    hide CT.After, CT.Granted, LogOk, Wal.InLog, Wal.CommandAt, WalletLog, Start;
    var s := CT.After(CS.Started(history, term), actions).value;
    var e := s.invoked[a].entry;
    AnsweredForTheGroup(history, term, actions, group, a);
    CT.AnswersAreTruthful(history, term, actions, a, later);
    RequestAt(group, k, r);
    assert Committed(s.committed + later, e);
    CommandOfEntry(parse, s.committed + later, e, Start(group, k) + r);
  }

  /** Client `k` of an answered batch is called with one position per request, in order, and the
      wallet's command at that position is the one the client sent. */
  lemma PositionsAreOwn(parse: Parser, history: seq<Entry>, term: nat, actions: seq<CS.Action>, later: seq<Entry>,
                        group: seq<Command>, a: nat, k: nat, r: nat)
    requires LogOk(history) && CT.Granted(CS.Started(history, term), actions)
    requires CT.After(CS.Started(history, term), actions).Some?
    requires Store.INITIAL_APPLIED_INDEX <= |history|
    requires AnsweredBatch(actions, CT.After(CS.Started(history, term), actions).value, group, a)
    requires LogOk(CT.After(CS.Started(history, term), actions).value.committed + later)
    requires FromClients(group) && k < |group| && group[k].callback.Write? && r < |group[k].request.requests|
    ensures var s := CT.After(CS.Started(history, term), actions).value;
            var log, out, i := s.committed + later, Invoke(Merge(group).callback, s.invoked[a].resp), Waiting(group, k);
            && i < |out| && out[i].id == group[k].callback.id && out[i].response.error.None?
            && var told := out[i].response.responses;
            && |told| == |group[k].request.requests|
            && told[r] == MqResponse(s.invoked[a].entry.index, Start(group, k) + r)
            && Store.INITIAL_APPLIED_INDEX <= |log|
            && var p := L.Position(told[r].index, told[r].offset);
            && Wal.InLog(WalletLog(parse, log), p)
            && Wal.CommandAt(WalletLog(parse, log), p) == parse(group[k].request.requests[r].payload)
  {
    hide CT.After, CT.Granted, LogOk, Invoke, Wal.InLog, Wal.CommandAt, WalletLog, Start, Told;
    var s := CT.After(CS.Started(history, term), actions).value;
    var e, resp := s.invoked[a].entry, s.invoked[a].resp;
    CommandOfRequest(parse, history, term, actions, later, group, a, k, r);
    EachClientIsAnswered(group, resp);
    var out, i := Invoke(Merge(group).callback, resp), Waiting(group, k);
    assert Told(group, resp, k, out[i].response);
    ClientPositions(group, e.index, k, r, out[i].response);
    ToldIs(group, resp, k, out[i].response);
  }

  /** A client that registers its channel at the position it was told hears on that channel only the
      answer to its own command, or a timeout: the exit on a mismatched command id is unreachable. */
  lemma ClientGetsItsOwnAnswer(parse: Parser, history: seq<Entry>, term: nat, actions: seq<CS.Action>,
                               later: seq<Entry>,
                               group: seq<Command>, a: nat, k: nat, r: nat, walletActions: seq<Wal.Action>,
                               brokerActions: seq<B.Action>, request: B.InflightRequest, i: nat)
    requires LogOk(history) && CT.Granted(CS.Started(history, term), actions)
    requires CT.After(CS.Started(history, term), actions).Some?
    requires Store.INITIAL_APPLIED_INDEX <= |history|
    requires AnsweredBatch(actions, CT.After(CS.Started(history, term), actions).value, group, a)
    requires LogOk(CT.After(CS.Started(history, term), actions).value.committed + later)
    requires k < |group| && r < |group[k].request.requests|
    requires var log := CT.After(CS.Started(history, term), actions).value.committed + later;
             && Store.INITIAL_APPLIED_INDEX <= |log|
             && Wal.After(WalletLog(parse, log), walletActions).Some?
             && FedBy(brokerActions, WT.Reached(WalletLog(parse, log), walletActions))
    requires request in B.Requested(brokerActions)
    requires request.position
          == L.Position(CT.After(CS.Started(history, term), actions).value.invoked[a].entry.index, Start(group, k) + r)
    requires forall q <- B.Requested(brokerActions) :: q.sender == request.sender ==> q == request
    requires i < |B.After(brokerActions).replies| && B.After(brokerActions).replies[i].sender == request.sender
    ensures var reply := B.After(brokerActions).replies[i];
            var log := WalletLog(parse, CT.After(CS.Started(history, term), actions).value.committed + later);
            var cmd := parse(group[k].request.requests[r].payload);
            && reply.event.position == request.position
            && (B.IsTimeout(reply) || OwnAnswer(log, walletActions, request.position, cmd, reply.event.response))
  {
    hide CT.After, CT.Granted, Wal.After, B.After, LogOk, OwnAnswer, FedBy, Wal.InLog, Wal.CommandAt, WalletLog,
         B.IsTimeout, B.Requested, AnsweredBatch, Start;
    var s := CT.After(CS.Started(history, term), actions).value;
    CommandOfRequest(parse, history, term, actions, later, group, a, k, r);
    ChannelHearsItsPosition(brokerActions, request, i);
    BrokerAnswers(WalletLog(parse, s.committed + later), walletActions, brokerActions, i);
  }
}
