/** The message broker: requests and events meet by log position, in whatever order they arrive. */
module MessageBroker {
  import opened WalletTypes
  import opened Ledger

  const EVENT_LIMIT: nat := 10000
  const TIMEOUT_MS: nat := 1000

  /** A waiting caller, known by its reply channel. */
  datatype InflightRequest = InflightRequest(position: Position, sender: nat, sendTime: nat)

  datatype InflightEvent = InflightEvent(position: Position, response: Response)

  datatype Reply = Reply(sender: nat, event: InflightEvent)

  datatype Broker = Broker(
    requests: map<Position, InflightRequest>,
    events: map<Position, InflightEvent>,
    replies: seq<Reply>,
    evicted: seq<InflightEvent>)

  const EMPTY_BROKER: Broker := Broker(map[], map[], [], [])

  // ---------- positions in log order ----------

  predicate Before(p: Position, q: Position) {
    p.logIndex < q.logIndex || (p.logIndex == q.logIndex && p.offset < q.offset)
  }

  predicate IsFirst(p: Position, keys: set<Position>) { p in keys && forall q <- keys :: !Before(q, p) }

  lemma {:induction false} FirstExists(keys: set<Position>)
    requires keys != {}
    ensures exists p :: IsFirst(p, keys)
    decreases |keys|
  {
    var q :| q in keys;
    var rest := keys - {q};
    if rest == {} {
      assert keys == {q};
      assert IsFirst(q, keys);
    } else {
      FirstExists(rest);
      var p :| IsFirst(p, rest);
      if Before(q, p) {
        forall x | x in keys ensures !Before(x, q) { assert x == q || !Before(x, p); }
        assert IsFirst(q, keys);
      } else {
        assert IsFirst(p, keys);
      }
    }
  }

  ghost function First(keys: set<Position>): (p: Position)
    requires keys != {}
    ensures IsFirst(p, keys)
  {
    FirstExists(keys);
    var p :| IsFirst(p, keys); p
  }

  lemma FirstIsUnique(p: Position, keys: set<Position>)
    requires IsFirst(p, keys)
    ensures keys != {} && p == First(keys)
  {
    var q := First(keys);
    assert !Before(p, q) && !Before(q, p);
  }

  // ---------- steps ----------

  function Answer(b: Broker, sender: nat, e: InflightEvent): Broker {
    b.(replies := b.replies + [Reply(sender, e)])
  }

  function OnRequest(b: Broker, r: InflightRequest): Broker {
    if r.position in b.events then
      Answer(b.(events := b.events - {r.position}), r.sender, b.events[r.position])
    else b.(requests := b.requests[r.position := r])
  }

  function OnEvent(b: Broker, e: InflightEvent): Broker {
    if e.position in b.requests then
      Answer(b.(requests := b.requests - {e.position}), b.requests[e.position].sender, e)
    else b.(events := b.events[e.position := e])
  }

  /** Evict the oldest positions until `limit` events are left. */
  ghost function Evict(b: Broker, limit: nat): Broker
    decreases |b.events|
  {
    if |b.events| <= limit then b
    else
      var p := First(b.events.Keys);
      Shrinks(b.events, p);
      Evict(b.(events := b.events - {p}, evicted := b.evicted + [b.events[p]]), limit)
  }

  predicate Expired(r: InflightRequest, now: nat) { r.sendTime + TIMEOUT_MS <= now }

  function TimeoutAt(p: Position): InflightEvent { InflightEvent(p, Err(Timeout)) }

  /** Time out requests from the oldest position on, up to the first that is still in time. */
  ghost function Expire(b: Broker, now: nat): Broker
    decreases |b.requests|
  {
    if b.requests == map[] then b
    else
      var p := First(b.requests.Keys);
      var r := b.requests[p];
      Shrinks(b.requests, p);
      if !Expired(r, now) then b
      else Expire(Answer(b.(requests := b.requests - {p}), r.sender, TimeoutAt(p)), now)
  }

  lemma Shrinks<V>(m: map<Position, V>, p: Position)
    requires p in m
    ensures |m - {p}| == |m| - 1
  {
    assert (m - {p}).Keys == m.Keys - {p};
  }

  // ---------- runs ----------

  datatype Action =
    | Request(request: InflightRequest)
    | Event(event: InflightEvent)
    | EvictEvents(limit: nat)
    | ExpireRequests(now: nat)

  ghost function Step(b: Broker, action: Action): Broker {
    match action
    case Request(r) => OnRequest(b, r)
    case Event(e) => OnEvent(b, e)
    case EvictEvents(limit) => Evict(b, limit)
    case ExpireRequests(now) => Expire(b, now)
  }

  ghost function After(actions: seq<Action>): Broker {
    if actions == [] then EMPTY_BROKER else Step(After(actions[..|actions| - 1]), actions[|actions| - 1])
  }

  ghost function Requested(actions: seq<Action>): set<InflightRequest> {
    set a <- actions | a.Request? :: a.request
  }

  ghost function Published(actions: seq<Action>): set<InflightEvent> {
    set a <- actions | a.Event? :: a.event
  }

  /** No position is requested twice. */
  ghost predicate DistinctRequests(actions: seq<Action>) {
    forall i, j | 0 <= i < j < |actions| && actions[i].Request? && actions[j].Request? ::
      actions[i].request.position != actions[j].request.position
  }

  /** No position is published twice, and a published event is not itself a timeout. */
  ghost predicate DistinctEvents(actions: seq<Action>) {
    && (forall i, j | 0 <= i < j < |actions| && actions[i].Event? && actions[j].Event? ::
          actions[i].event.position != actions[j].event.position)
    && (forall i | 0 <= i < |actions| :: actions[i].Event? ==> actions[i].event.response != Err(Timeout))
  }

  ghost predicate Distinct(actions: seq<Action>) { DistinctRequests(actions) && DistinctEvents(actions) }

  ghost predicate IsTimeout(reply: Reply) { reply.event == TimeoutAt(reply.event.position) }

  ghost function Replied(b: Broker): set<Position> { set r <- b.replies :: r.event.position }

  ghost predicate RepliedOnce(b: Broker) {
    forall i, j | 0 <= i < j < |b.replies| :: b.replies[i].event.position != b.replies[j].event.position
  }

  ghost predicate EvictedOnce(b: Broker) {
    forall i, j | 0 <= i < j < |b.evicted| :: b.evicted[i].position != b.evicted[j].position
  }

  /** Positions of events that were matched, evicted, or are waiting. */
  ghost function Matched(b: Broker): set<Position> { set r <- b.replies | !IsTimeout(r) :: r.event.position }
  ghost function Evicted(b: Broker): set<Position> { set e <- b.evicted :: e.position }

  ghost predicate GoodReply(reply: Reply, reqs: set<InflightRequest>, evs: set<InflightEvent>) {
    && (exists r <- reqs :: r.sender == reply.sender && r.position == reply.event.position)
    && (reply.event in evs || IsTimeout(reply))
  }

  /** Every request is waiting or was answered once, to its own channel, with the event of its own
      position or a timeout. */
  ghost predicate RequestSide(b: Broker, reqs: set<InflightRequest>, evs: set<InflightEvent>) {
    && (forall p <- b.requests :: b.requests[p].position == p && b.requests[p] in reqs)
    && (forall i | 0 <= i < |b.replies| :: GoodReply(b.replies[i], reqs, evs))
    && RepliedOnce(b)
    && Replied(b) !! b.requests.Keys
    && (forall r <- reqs :: r.position in b.requests || r.position in Replied(b))
  }

  /** Every event is waiting, was handed over once, or was evicted. */
  ghost predicate EventSide(b: Broker, evs: set<InflightEvent>) {
    && (forall p <- b.events :: b.events[p].position == p && b.events[p] in evs)
    && EvictedOnce(b)
    && Matched(b) !! b.events.Keys && Evicted(b) !! b.events.Keys && Matched(b) !! Evicted(b)
    && (forall i | 0 <= i < |b.evicted| :: b.evicted[i] in evs)
    && (forall e <- evs :: e.position in b.events || e.position in Matched(b) || e.position in Evicted(b))
  }

  ghost predicate Accounted(b: Broker, reqs: set<InflightRequest>, evs: set<InflightEvent>) {
    b.requests.Keys !! b.events.Keys && RequestSide(b, reqs, evs) && EventSide(b, evs)
  }

  lemma AnswerSets(b: Broker, sender: nat, e: InflightEvent)
    ensures var b' := Answer(b, sender, e);
            && Replied(b') == Replied(b) + {e.position}
            && Matched(b') == Matched(b) + (if e == TimeoutAt(e.position) then {} else {e.position})
            && Evicted(b') == Evicted(b)
            && (RepliedOnce(b) && e.position !in Replied(b) ==> RepliedOnce(b'))
  {
    var b', reply := Answer(b, sender, e), Reply(sender, e);
    assert b'.replies == b.replies + [reply];
    forall i | 0 <= i < |b.replies| ensures b.replies[i].event.position in Replied(b) {
      assert b.replies[i] in b.replies;
    }
  }

  lemma NotYetReplied(b: Broker, reqs: set<InflightRequest>, evs: set<InflightEvent>, p: Position)
    requires Accounted(b, reqs, evs) && forall x <- reqs :: x.position != p
    ensures p !in Replied(b) && p !in b.requests
  {
    forall i | 0 <= i < |b.replies| ensures b.replies[i].event.position != p {
      assert GoodReply(b.replies[i], reqs, evs);
    }
  }

  /** A reply to `sender` for its position, which then no longer waits. */
  lemma AnsweredSide(b: Broker, b': Broker, reqs: set<InflightRequest>, reqs': set<InflightRequest>,
                     evs: set<InflightEvent>, evs': set<InflightEvent>, r: InflightRequest, e: InflightEvent)
    requires RequestSide(b, reqs, evs) && reqs <= reqs' && evs <= evs' && r in reqs' && r.position == e.position
    requires forall x <- reqs' :: x in reqs || x == r
    requires e in evs' || e == TimeoutAt(e.position)
    requires e.position !in Replied(b)
    requires b'.requests == b.requests - {e.position} && b'.replies == b.replies + [Reply(r.sender, e)]
    ensures RequestSide(b', reqs', evs')
  {
    forall i | 0 <= i < |b'.replies| ensures GoodReply(b'.replies[i], reqs', evs') {
      if i < |b.replies| { assert GoodReply(b.replies[i], reqs, evs); }
    }
    var b1 := Answer(b, r.sender, e);
    AnswerSets(b, r.sender, e);
    assert Replied(b') == Replied(b1) && RepliedOnce(b');
    hide Replied, GoodReply, RepliedOnce;
  }

  /** The event side sees a reply only through the set of matched positions. */
  lemma MatchedSide(b: Broker, b': Broker, evs: set<InflightEvent>, evs': set<InflightEvent>, p: Position)
    requires EventSide(b, evs) && evs <= evs' && forall x <- evs' :: x in evs || x.position == p
    requires p !in Matched(b) && p !in Evicted(b)
    requires b'.events == b.events - {p} && b'.evicted == b.evicted && Matched(b') == Matched(b) + {p}
    ensures EventSide(b', evs')
  {
    assert Evicted(b') == Evicted(b) && EvictedOnce(b');
    hide Matched, Evicted, EvictedOnce;
  }

  lemma SameEventSide(b: Broker, b': Broker, evs: set<InflightEvent>)
    requires EventSide(b, evs) && b'.events == b.events && b'.evicted == b.evicted && Matched(b') == Matched(b)
    ensures EventSide(b', evs)
  {
    assert Evicted(b') == Evicted(b) && EvictedOnce(b');
    hide Matched, Evicted, EvictedOnce;
  }

  lemma SameRequestSide(b: Broker, b': Broker, reqs: set<InflightRequest>, evs: set<InflightEvent>,
                        evs': set<InflightEvent>)
    requires RequestSide(b, reqs, evs) && evs <= evs' && b'.requests == b.requests && b'.replies == b.replies
    ensures RequestSide(b', reqs, evs')
  {
    forall i | 0 <= i < |b.replies| ensures GoodReply(b.replies[i], reqs, evs') {
      assert GoodReply(b.replies[i], reqs, evs);
    }
    assert Replied(b') == Replied(b) && RepliedOnce(b');
    hide Replied, GoodReply, RepliedOnce;
  }

  lemma WaitKeeps(b: Broker, reqs: set<InflightRequest>, evs: set<InflightEvent>, r: InflightRequest)
    requires Accounted(b, reqs, evs) && r.position !in Replied(b) && r.position !in b.requests
    requires r.position !in b.events
    ensures Accounted(b.(requests := b.requests[r.position := r]), reqs + {r}, evs)
  {
    var b' := b.(requests := b.requests[r.position := r]);
    assert Replied(b') == Replied(b) && Matched(b') == Matched(b) && RepliedOnce(b) == RepliedOnce(b');
    SameEventSide(b, b', evs);
    forall i | 0 <= i < |b.replies| ensures GoodReply(b.replies[i], reqs + {r}, evs) {
      assert GoodReply(b.replies[i], reqs, evs);
    }
    hide Replied, Matched, Evicted, GoodReply, EventSide, RepliedOnce;
  }

  lemma ServeKeeps(b: Broker, reqs: set<InflightRequest>, evs: set<InflightEvent>, r: InflightRequest)
    requires Accounted(b, reqs, evs) && r.position !in Replied(b) && r.position !in b.requests && r.position in b.events
    requires forall e <- evs :: e.response != Err(Timeout)
    ensures Accounted(Answer(b.(events := b.events - {r.position}), r.sender, b.events[r.position]), reqs + {r}, evs)
  {
    var e, p := b.events[r.position], r.position;
    var b' := Answer(b.(events := b.events - {p}), r.sender, e);
    AnswerSets(b.(events := b.events - {p}), r.sender, e);
    assert Matched(b') == Matched(b) + {p};
    assert b.requests - {p} == b.requests && p !in Matched(b) && p !in Evicted(b) && e in evs;
    hide RequestSide, EventSide, Replied, Matched, Evicted;
    AnsweredSide(b, b', reqs, reqs + {r}, evs, evs, r, e);
    MatchedSide(b, b', evs, evs, p);
  }

  lemma RequestKeeps(b: Broker, reqs: set<InflightRequest>, evs: set<InflightEvent>, r: InflightRequest)
    requires Accounted(b, reqs, evs) && forall x <- reqs :: x.position != r.position
    requires forall e <- evs :: e.response != Err(Timeout)
    ensures Accounted(OnRequest(b, r), reqs + {r}, evs)
  {
    hide Accounted, Replied;
    NotYetReplied(b, reqs, evs, r.position);
    if r.position in b.events { ServeKeeps(b, reqs, evs, r); } else { WaitKeeps(b, reqs, evs, r); }
  }

  /** A position that was not published before is neither matched, evicted nor waiting. */
  lemma NotYetPublished(b: Broker, reqs: set<InflightRequest>, evs: set<InflightEvent>, p: Position)
    requires Accounted(b, reqs, evs) && forall x <- evs :: x.position != p
    ensures p !in Matched(b) && p !in Evicted(b) && p !in b.events
  {
    forall i | 0 <= i < |b.replies| && !IsTimeout(b.replies[i]) ensures b.replies[i].event.position != p {
      assert GoodReply(b.replies[i], reqs, evs);
    }
  }

  lemma EventKeeps(b: Broker, reqs: set<InflightRequest>, evs: set<InflightEvent>, e: InflightEvent)
    requires Accounted(b, reqs, evs) && forall x <- evs :: x.position != e.position
    requires e.response != Err(Timeout)
    ensures Accounted(OnEvent(b, e), reqs, evs + {e})
  {
    hide Accounted, Matched, Evicted;
    NotYetPublished(b, reqs, evs, e.position);
    if e.position in b.requests { HandOverKeeps(b, reqs, evs, e); } else { PublishKeeps(b, reqs, evs, e); }
  }

  lemma HandOverKeeps(b: Broker, reqs: set<InflightRequest>, evs: set<InflightEvent>, e: InflightEvent)
    requires Accounted(b, reqs, evs) && e.position !in Matched(b) && e.position !in Evicted(b)
    requires e.position !in b.events && e.position in b.requests && e.response != Err(Timeout)
    ensures Accounted(OnEvent(b, e), reqs, evs + {e})
  {
    var r, p := b.requests[e.position], e.position;
    var b' := OnEvent(b, e);
    AnswerSets(b.(requests := b.requests - {p}), r.sender, e);
    assert Matched(b') == Matched(b) + {p};
    assert b.events - {p} == b.events && p !in Replied(b) && r.position == p && r in reqs;
    hide RequestSide, EventSide, Replied, Matched, Evicted;
    AnsweredSide(b, b', reqs, reqs, evs, evs + {e}, r, e);
    MatchedSide(b, b', evs, evs + {e}, p);
  }

  lemma PublishKeeps(b: Broker, reqs: set<InflightRequest>, evs: set<InflightEvent>, e: InflightEvent)
    requires Accounted(b, reqs, evs) && e.position !in Matched(b) && e.position !in Evicted(b)
    requires e.position !in b.events && e.position !in b.requests
    ensures Accounted(OnEvent(b, e), reqs, evs + {e})
  {
    var b' := OnEvent(b, e);
    SameRequestSide(b, b', reqs, evs, evs + {e});
    assert Matched(b') == Matched(b) && Evicted(b') == Evicted(b) && EvictedOnce(b');
    hide Matched, Evicted, EvictedOnce, RequestSide;
  }

  lemma EvictOneKeeps(b: Broker, reqs: set<InflightRequest>, evs: set<InflightEvent>, p: Position)
    requires Accounted(b, reqs, evs) && p in b.events
    ensures Accounted(b.(events := b.events - {p}, evicted := b.evicted + [b.events[p]]), reqs, evs)
  {
    var b' := b.(events := b.events - {p}, evicted := b.evicted + [b.events[p]]);
    SameRequestSide(b, b', reqs, evs, evs);
    assert Matched(b') == Matched(b);
    assert b'.evicted == b.evicted + [b.events[p]];
    assert Evicted(b') == Evicted(b) + {p};
    forall i | 0 <= i < |b.evicted| ensures b.evicted[i].position != p { assert b.evicted[i] in b.evicted; }
    hide Matched, Evicted, RequestSide;
  }

  lemma {:induction false} EvictKeeps(b: Broker, reqs: set<InflightRequest>, evs: set<InflightEvent>, limit: nat)
    requires Accounted(b, reqs, evs)
    ensures Accounted(Evict(b, limit), reqs, evs)
    decreases |b.events|
  {
    if |b.events| > limit {
      var p := First(b.events.Keys);
      Shrinks(b.events, p);
      EvictOneKeeps(b, reqs, evs, p);
      hide Accounted;
      EvictKeeps(b.(events := b.events - {p}, evicted := b.evicted + [b.events[p]]), reqs, evs, limit);
    }
  }

  lemma ExpireOneKeeps(b: Broker, reqs: set<InflightRequest>, evs: set<InflightEvent>, p: Position)
    requires Accounted(b, reqs, evs) && p in b.requests
    ensures Accounted(Answer(b.(requests := b.requests - {p}), b.requests[p].sender, TimeoutAt(p)), reqs, evs)
  {
    var r, e := b.requests[p], TimeoutAt(p);
    var b1 := b.(requests := b.requests - {p});
    var b' := Answer(b1, r.sender, e);
    AnswerSets(b1, r.sender, e);
    assert Matched(b') == Matched(b);
    assert p !in Replied(b) && r.position == p && r in reqs;
    hide RequestSide, EventSide, Replied, Matched;
    AnsweredSide(b, b', reqs, reqs, evs, evs, r, e);
    SameEventSide(b, b', evs);
  }

  lemma {:induction false} ExpireKeeps(b: Broker, reqs: set<InflightRequest>, evs: set<InflightEvent>, now: nat)
    requires Accounted(b, reqs, evs)
    ensures Accounted(Expire(b, now), reqs, evs)
    decreases |b.requests|
  {
    if b.requests != map[] {
      var p := First(b.requests.Keys);
      var r := b.requests[p];
      Shrinks(b.requests, p);
      if Expired(r, now) {
        ExpireOneKeeps(b, reqs, evs, p);
        hide Accounted;
        ExpireKeeps(Answer(b.(requests := b.requests - {p}), r.sender, TimeoutAt(p)), reqs, evs, now);
      }
    }
  }

  lemma InputsSnoc(actions: seq<Action>, action: Action)
    ensures Requested(actions + [action]) == Requested(actions) + (if action.Request? then {action.request} else {})
    ensures Published(actions + [action]) == Published(actions) + (if action.Event? then {action.event} else {})
  {
    var actions' := actions + [action];
    assert forall a :: a in actions' <==> a in actions || a == action;
  }

  lemma FreshInput(actions: seq<Action>)
    requires actions != [] && Distinct(actions)
    ensures var init, action := actions[..|actions| - 1], actions[|actions| - 1];
            && Distinct(init)
            && (action.Request? ==> forall x <- Requested(init) :: x.position != action.request.position)
            && (action.Event? ==> action.event.response != Err(Timeout)
                                  && forall x <- Published(init) :: x.position != action.event.position)
            && (forall e <- Published(init) :: e.response != Err(Timeout))
  {
    var init := actions[..|actions| - 1];
    assert forall a <- init :: exists i :: 0 <= i < |init| && actions[i] == a;
  }

  lemma NothingIsAccounted()
    ensures Accounted(EMPTY_BROKER, Requested([]), Published([]))
  {
    assert Requested([]) == {} && Published([]) == {};
  }

  lemma StepKeeps(b: Broker, reqs: set<InflightRequest>, evs: set<InflightEvent>, action: Action)
    requires Accounted(b, reqs, evs) && forall e <- evs :: e.response != Err(Timeout)
    requires action.Request? ==> forall x <- reqs :: x.position != action.request.position
    requires action.Event? ==> action.event.response != Err(Timeout)
    requires action.Event? ==> forall x <- evs :: x.position != action.event.position
    ensures Accounted(Step(b, action), reqs + (if action.Request? then {action.request} else {}),
                      evs + (if action.Event? then {action.event} else {}))
  {
    hide Accounted, Evict, Expire, OnRequest, OnEvent;
    assert reqs + {} == reqs && evs + {} == evs;
    match action
    case Request(r) => RequestKeeps(b, reqs, evs, r);
    case Event(e) => EventKeeps(b, reqs, evs, e);
    case EvictEvents(limit) => EvictKeeps(b, reqs, evs, limit);
    case ExpireRequests(now) => ExpireKeeps(b, reqs, evs, now);
  }

  /** For every arrival order of distinct requests and events, and every moment of eviction and
      expiry, the broker accounts for all of them. */
  lemma {:induction false} EveryRunIsAccounted(actions: seq<Action>)
    requires Distinct(actions)
    ensures Accounted(After(actions), Requested(actions), Published(actions))
  {
    hide Accounted, Step, Distinct, Requested, Published;
    if actions == [] {
      NothingIsAccounted();
    } else {
      var init, action := actions[..|actions| - 1], actions[|actions| - 1];
      assert actions == init + [action];
      FreshInput(actions);
      InputsSnoc(init, action);
      EveryRunIsAccounted(init);
      StepKeeps(After(init), Requested(init), Published(init), action);
    }
  }

  // ---------- eviction and expiry take the oldest positions ----------

  lemma {:induction false} EvictTakesTheOldest(b: Broker, limit: nat)
    ensures var b' := Evict(b, limit);
            && |b'.events| == (if |b.events| <= limit then |b.events| else limit)
            && (forall p <- b'.events :: p in b.events && b'.events[p] == b.events[p])
            && (forall p, q | p in b.events && p !in b'.events && q in b'.events :: Before(p, q))
    decreases |b.events|
  {
    if |b.events| > limit {
      var p := First(b.events.Keys);
      Shrinks(b.events, p);
      var b1 := b.(events := b.events - {p}, evicted := b.evicted + [b.events[p]]);
      EvictTakesTheOldest(b1, limit);
      var b' := Evict(b, limit);
      assert b' == Evict(b1, limit);
      forall x, y | x in b.events && x !in b'.events && y in b'.events ensures Before(x, y) {
        if x == p { assert y in b.events.Keys; } else { assert x in b1.events; }
      }
    }
  }

  /** Only expired requests are timed out, oldest first; what remains starts with one in time. A
      request behind it may have expired and still be waiting. */
  lemma {:induction false} ExpireTakesAPrefix(b: Broker, now: nat)
    ensures var b' := Expire(b, now);
            && (forall p <- b'.requests :: p in b.requests && b'.requests[p] == b.requests[p])
            && (forall p <- b.requests :: p !in b'.requests ==> b.requests[p].sendTime + 1000 <= now)
            && (forall p, q | p in b.requests && p !in b'.requests && q in b'.requests :: Before(p, q))
            && (b'.requests != map[] ==> now < b'.requests[First(b'.requests.Keys)].sendTime + 1000)
    decreases |b.requests|
  {
    if b.requests != map[] {
      var p := First(b.requests.Keys);
      Shrinks(b.requests, p);
      if Expired(b.requests[p], now) {
        var b1 := Answer(b.(requests := b.requests - {p}), b.requests[p].sender, TimeoutAt(p));
        ExpireTakesAPrefix(b1, now);
        var b' := Expire(b, now);
        assert b' == Expire(b1, now);
        forall x, y | x in b.requests && x !in b'.requests && y in b'.requests ensures Before(x, y) {
          if x == p { assert y in b.requests.Keys; } else { assert x in b1.requests; }
        }
      }
    }
  }

  // ---------- the broker object ----------

  ghost function RequestAll(b: Broker, rs: seq<InflightRequest>): Broker {
    if rs == [] then b else OnRequest(RequestAll(b, rs[..|rs| - 1]), rs[|rs| - 1])
  }

  ghost function EventAll(b: Broker, es: seq<InflightEvent>): Broker {
    if es == [] then b else OnEvent(EventAll(b, es[..|es| - 1]), es[|es| - 1])
  }

  /** One turn of the broker loop, as actions. */
  ghost function Turn(rs: seq<InflightRequest>, es: seq<InflightEvent>, now: nat): seq<Action> {
    RequestActions(rs) + EventActions(es) + [EvictEvents(EVENT_LIMIT)] + [ExpireRequests(now)]
  }

  ghost function RequestActions(rs: seq<InflightRequest>): seq<Action> {
    if rs == [] then [] else RequestActions(rs[..|rs| - 1]) + [Request(rs[|rs| - 1])]
  }

  ghost function EventActions(es: seq<InflightEvent>): seq<Action> {
    if es == [] then [] else EventActions(es[..|es| - 1]) + [Action.Event(es[|es| - 1])]
  }

  lemma AfterSnoc(actions: seq<Action>, action: Action)
    ensures After(actions + [action]) == Step(After(actions), action)
  {
    assert (actions + [action])[..|actions|] == actions;
  }

  lemma {:induction false} AfterRequests(actions: seq<Action>, rs: seq<InflightRequest>)
    ensures After(actions + RequestActions(rs)) == RequestAll(After(actions), rs)
  {
    hide OnRequest;
    if rs == [] {
      assert actions + [] == actions;
    } else {
      var init, r := rs[..|rs| - 1], rs[|rs| - 1];
      AfterRequests(actions, init);
      AfterSnoc(actions + RequestActions(init), Request(r));
      assert actions + RequestActions(rs) == actions + RequestActions(init) + [Request(r)];
    }
  }

  lemma {:induction false} AfterEvents(actions: seq<Action>, es: seq<InflightEvent>)
    ensures After(actions + EventActions(es)) == EventAll(After(actions), es)
  {
    hide OnEvent;
    if es == [] {
      assert actions + [] == actions;
    } else {
      var init, e := es[..|es| - 1], es[|es| - 1];
      AfterEvents(actions, init);
      AfterSnoc(actions + EventActions(init), Action.Event(e));
      assert actions + EventActions(es) == actions + EventActions(init) + [Action.Event(e)];
    }
  }

  /** A turn of the broker object is a stretch of a run. */
  lemma TurnIsARun(actions: seq<Action>, rs: seq<InflightRequest>, es: seq<InflightEvent>, now: nat)
    ensures After(actions + Turn(rs, es, now))
         == Expire(Evict(EventAll(RequestAll(After(actions), rs), es), EVENT_LIMIT), now)
  {
    hide RequestAll, EventAll, Evict, Expire, After;
    var a1 := actions + RequestActions(rs);
    var a2 := a1 + EventActions(es);
    AfterRequests(actions, rs);
    AfterEvents(a1, es);
    AfterSnoc(a2, EvictEvents(EVENT_LIMIT));
    AfterSnoc(a2 + [EvictEvents(EVENT_LIMIT)], ExpireRequests(now));
    assert actions + Turn(rs, es, now) == a2 + [EvictEvents(EVENT_LIMIT)] + [ExpireRequests(now)];
  }

  class MessageBroker {
    var requests: map<Position, InflightRequest>
    var events: map<Position, InflightEvent>
    var replies: seq<Reply>
    ghost var evicted: seq<InflightEvent>

    ghost function Abs(): Broker
      reads this
    {
      Broker(requests, events, replies, evicted)
    }

    constructor ()
      ensures Abs() == EMPTY_BROKER
    {
      requests, events, replies, evicted := map[], map[], [], [];
    }

    method JoinRequests(batch: seq<InflightRequest>)
      modifies this
      ensures Abs() == RequestAll(old(Abs()), batch)
    {
      var i := 0;
      while i < |batch|
        invariant 0 <= i <= |batch| && Abs() == RequestAll(old(Abs()), batch[..i])
      {
        var r := batch[i];
        assert batch[..i + 1][..i] == batch[..i];
        if r.position in events {
          replies := replies + [Reply(r.sender, events[r.position])];
          events := events - {r.position};
        } else {
          requests := requests[r.position := r];
        }
        i := i + 1;
      }
      assert batch[..i] == batch;
    }

    method JoinEvents(batch: seq<InflightEvent>)
      modifies this
      ensures Abs() == EventAll(old(Abs()), batch)
    {
      var i := 0;
      while i < |batch|
        invariant 0 <= i <= |batch| && Abs() == EventAll(old(Abs()), batch[..i])
      {
        var e := batch[i];
        assert batch[..i + 1][..i] == batch[..i];
        if e.position in requests {
          replies := replies + [Reply(requests[e.position].sender, e)];
          requests := requests - {e.position};
        } else {
          events := events[e.position := e];
        }
        i := i + 1;
      }
      assert batch[..i] == batch;
    }

    method GcInflightEvents()
      modifies this
      ensures Abs() == Evict(old(Abs()), EVENT_LIMIT)
      ensures |events| == if |old(events)| <= 10000 then |old(events)| else 10000
    {
      EvictTakesTheOldest(Abs(), EVENT_LIMIT);
      while |events| > EVENT_LIMIT
        invariant Evict(Abs(), EVENT_LIMIT) == Evict(old(Abs()), EVENT_LIMIT)
        decreases |events|
      {
        FirstExists(events.Keys);
        var p :| IsFirst(p, events.Keys);
        FirstIsUnique(p, events.Keys);
        Shrinks(events, p);
        evicted := evicted + [events[p]];
        events := events - {p};
      }
    }

    method GcInflightRequests(now: nat)
      modifies this
      ensures Abs() == Expire(old(Abs()), now)
    {
      while requests != map[]
        invariant Expire(Abs(), now) == Expire(old(Abs()), now)
        decreases |requests|
      {
        FirstExists(requests.Keys);
        var p :| IsFirst(p, requests.Keys);
        FirstIsUnique(p, requests.Keys);
        Shrinks(requests, p);
        if !Expired(requests[p], now) { break; }
        replies := replies + [Reply(requests[p].sender, TimeoutAt(p))];
        requests := requests - {p};
      }
    }

    /** One turn of the loop: requests, events, eviction, expiry. */
    method RunOnce(newRequests: seq<InflightRequest>, newEvents: seq<InflightEvent>, now: nat)
      modifies this
      ensures Abs() == Expire(Evict(EventAll(RequestAll(old(Abs()), newRequests), newEvents), EVENT_LIMIT), now)
    {
      JoinRequests(newRequests);
      JoinEvents(newEvents);
      GcInflightEvents();
      GcInflightRequests(now);
    }
  }
}
