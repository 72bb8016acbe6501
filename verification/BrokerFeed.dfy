/** What the wallet publishes to the broker between two crashes: each position once, in log order. */
module BrokerFeed {
  import opened WalletTypes
  import opened Ledger
  import opened WalletSystem
  import opened WalletTheorems
  import B = MessageBroker
  import M = WalletMachine
  import Store = WalletStore

  /** From answer `from` on the positions grow, all before `next`. */
  ghost predicate Ascending(sent: seq<M.Sent>, from: nat, next: Position) {
    && from <= |sent|
    && (forall i, j | from <= i < j < |sent| :: B.Before(sent[i].position, sent[j].position))
    && (forall i | from <= i < |sent| :: B.Before(sent[i].position, next))
  }

  lemma StepAscends(log: Log, sys: System, action: Action, from: nat)
    requires Inv(log, sys) && Enabled(log, sys, action) && !action.Crash?
    requires Ascending(sys.m.sent, from, NextPosition(sys))
    ensures var sys' := Step(log, sys, action); Ascending(sys'.m.sent, from, NextPosition(sys'))
  {
    hide Inv, M.Exec, Run;
    if action.Execute? {
      ExecuteIs(log, sys);
    } else {
      OtherStepsSendNothing(log, sys, action);
    }
  }

  /** The answers sent since action `start`, if no crash came after it, have growing positions: none
      is sent twice. */
  lemma {:induction false} PositionsAscend(log: Log, actions: seq<Action>, start: nat)
    requires After(log, actions).Some? && start <= |actions|
    requires forall k | start <= k < |actions| :: !actions[k].Crash?
    ensures After(log, actions[..start]).Some?
    ensures Ascending(Reached(log, actions).m.sent, |Reached(log, actions[..start]).m.sent|,
                      NextPosition(Reached(log, actions)))
    decreases |actions|
  {
    hide After, Inv, Step, Enabled, Ascending;
    PrefixReached(log, actions, start);
    assert actions[..|actions|] == actions;
    if start == |actions| {
      NothingSent(Reached(log, actions));
    } else {
      var n := |actions| - 1;
      LastStep(log, actions, n);
      assert actions[..n][..start] == actions[..start];
      PositionsAscend(log, actions[..n], start);
      ReachedInv(log, actions[..n]);
      StepAscends(log, Reached(log, actions[..n]), actions[n], |Reached(log, actions[..start]).m.sent|);
    }
  }

  lemma NothingSent(sys: System)
    ensures Ascending(sys.m.sent, |sys.m.sent|, NextPosition(sys))
  {
  }

  /** A crash does make it send a position again: the command is applied again after the restart. */
  lemma CrashRepeatsAPosition(cmd: Command)
    ensures var log := [[cmd]];
            var actions := [Execute, Crash(0), Execute];
            && After(log, actions).Some?
            && var sent := Reached(log, actions).m.sent;
               |sent| == 2 && sent[0].position == sent[1].position
  {
    hide M.Exec, Run, Inv;
    var log := [[cmd]];
    var actions := [Execute, Crash(0), Execute];
    assert actions[..0] == [];
    var one, two := [Execute], [Execute, Crash(0)];
    assert one[..0] == [] && two[..1] == one && actions[..2] == two;
    EveryRunIsSafe(log, []);
    ExecuteIs(log, INITIAL);
    assert After(log, one) == Some(Step(log, INITIAL, Execute));
    EveryRunIsSafe(log, two);
    ExecuteIs(log, Reached(log, two));
  }

  // ---------- the broker of one run of the process ----------

  ghost function EventsOf(actions: seq<B.Action>): seq<B.InflightEvent> {
    if actions == [] then []
    else
      var init, action := actions[..|actions| - 1], actions[|actions| - 1];
      EventsOf(init) + (if action.Event? then [action.event] else [])
  }

  function Outputs(sent: seq<M.Sent>): seq<B.InflightEvent> {
    seq(|sent|, i requires 0 <= i < |sent| => B.InflightEvent(sent[i].position, sent[i].response))
  }

  ghost predicate Strict(events: seq<B.InflightEvent>) {
    && (forall i, j | 0 <= i < j < |events| :: B.Before(events[i].position, events[j].position))
    && (forall i | 0 <= i < |events| :: events[i].response != Err(Timeout))
  }

  lemma {:induction false} EventAt(actions: seq<B.Action>, i: nat) returns (k: nat)
    requires i < |actions| && actions[i].Event?
    ensures k < |EventsOf(actions)| && EventsOf(actions)[k] == actions[i].event
  {
    var n := |actions| - 1;
    if i == n { k := |EventsOf(actions[..n])|; } else { k := EventAt(actions[..n], i); }
  }

  lemma {:induction false} StrictEventsAreDistinct(actions: seq<B.Action>)
    requires Strict(EventsOf(actions))
    ensures B.DistinctEvents(actions)
  {
    if actions != [] {
      var n := |actions| - 1;
      var init, events := actions[..n], EventsOf(actions[..n]);
      assert events == EventsOf(actions)[..|events|];
      StrictEventsAreDistinct(init);
      forall i | 0 <= i < n && actions[i].Event? && actions[n].Event?
        ensures actions[i].event.position != actions[n].event.position
      {
        var k := EventAt(init, i);
        assert EventsOf(actions)[k] == actions[i].event && EventsOf(actions)[|events|] == actions[n].event;
      }
      forall i | 0 <= i < |actions| && actions[i].Event? ensures actions[i].event.response != Err(Timeout) {
        var k := EventAt(actions, i);
      }
      assert actions == init + [actions[n]];
    }
  }

  /** The channel from the wallet to the broker keeps order and loses nothing it has delivered: the
      events are the answers sent since the process started, or the first of them. */
  ghost predicate PublishedBy(actions: seq<B.Action>, sent: seq<M.Sent>, from: nat) {
    from <= |sent| && EventsOf(actions) <= Outputs(sent[from..])
  }

  lemma SentIsStrict(log: Log, actions: seq<Action>, start: nat)
    requires After(log, actions).Some? && start <= |actions|
    requires forall k | start <= k < |actions| :: !actions[k].Crash?
    ensures After(log, actions[..start]).Some?
    ensures var sent, from := Reached(log, actions).m.sent, |Reached(log, actions[..start]).m.sent|;
            from <= |sent| && Strict(Outputs(sent[from..]))
  {
    hide After, AnswerTo, AnsweredAt;
    PositionsAscend(log, actions, start);
    var sent, from := Reached(log, actions).m.sent, |Reached(log, actions[..start]).m.sent|;
    forall i | from <= i < |sent| ensures sent[i].response != Err(Timeout) {
      var k := AnswersAreForTheirCommand(log, actions, i);
      NoTimeout(Reached(log, actions[..k]), sent[i].position, CommandAt(log, sent[i].position), sent[i].response);
    }
  }

  lemma NoTimeout(sys: System, p: Position, cmd: Command, response: Response)
    requires AnswerTo(State(sys.m.accounts, sys.history), Store.First(sys.m.db), p, cmd, response)
    ensures response != Err(Timeout)
  {
    hide Handle, Lookup;
  }

  /** The broker beside the wallet, from one start of the process on: if clients ask for each position
      once, every request and every event is accounted for, whatever the timing. */
  lemma BrokerAccountsForTheWallet(log: Log, actions: seq<Action>, start: nat, brokerActions: seq<B.Action>)
    requires After(log, actions).Some? && start <= |actions|
    requires forall k | start <= k < |actions| :: !actions[k].Crash?
    requires After(log, actions[..start]).Some?
    requires PublishedBy(brokerActions, Reached(log, actions).m.sent, |Reached(log, actions[..start]).m.sent|)
    requires B.DistinctRequests(brokerActions)
    ensures B.Accounted(B.After(brokerActions), B.Requested(brokerActions), B.Published(brokerActions))
  {
    hide After, B.Accounted, B.After;
    SentIsStrict(log, actions, start);
    StrictEventsAreDistinct(brokerActions);
    B.EveryRunIsAccounted(brokerActions);
  }
}
