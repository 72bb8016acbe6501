/** The main results about the wallet, each for every log and every schedule of commands, flushes,
    garbage-collection batches and crashes. */
module WalletTheorems {
  import opened WalletTypes
  import opened Decimals
  import opened Accounts
  import opened Ledger
  import opened EventSourcing
  import opened Conservation
  import opened WalletStore
  import opened WalletMachine
  import opened WalletRefinement
  import opened EventLogGc
  import opened WalletSystem
  import opened Transparency
  import opened EventQuery
  import HistoryMeaning

  ghost function Reached(log: Log, actions: seq<Action>): System
    requires After(log, actions).Some?
  {
    After(log, actions).value
  }

  lemma ReachedInv(log: Log, actions: seq<Action>)
    requires After(log, actions).Some?
    ensures var sys := Reached(log, actions);
            && Inv(log, sys) && Refines(sys.m, State(sys.m.accounts, sys.history))
            && (sys.offset == 0 ==> AtBoundary(sys.m))
            && Sound(State(sys.m.accounts, sys.history))
  {
    hide Inv, After;
    EveryRunIsSafe(log, actions);
    InvRefines(log, Reached(log, actions));
  }

  /** Event sourcing is complete: replaying the full event history from nothing rebuilds the live
      accounts. */
  lemma EventSourcingIsComplete(log: Log, actions: seq<Action>)
    requires After(log, actions).Some?
    ensures var sys := Reached(log, actions);
            && Live(sys.m.accounts) == Fold(sys.history)
            && Numbered(sys.history) && sys.m.lastSeqNum == |sys.history|
  {
    hide After, Inv;
    ReachedInv(log, actions);
  }

  function Get<K, V>(m: map<K, V>, k: K): Option<V> { if k in m then Some(m[k]) else None }

  /** Memory is the database overlaid by the write batch: the same live accounts, and lookups that
      try the cache and then the database find what the overlay holds. A flush drops no live
      account. */
  lemma MemoryIsTheOverlay(log: Log, actions: seq<Action>)
    requires After(log, actions).Some?
    ensures var m := Reached(log, actions).m;
            var overlay := ApplyOps(m.db, m.wb);
            && Live(m.accounts) == Live(overlay.data)
            && (forall c: Id :: GetSeqNum(m, c) == Get(overlay.dedup, c))
            && (forall n: nat :: WalletMachine.GetEvent(m, n) == Get(overlay.events, n))
            && (forall id <- m.toBeDeleted :: id in m.accounts && m.accounts[id].state.Deleted?)
            && Live(Flush(m).accounts) == Live(m.accounts)
            && (Reached(log, actions).offset == 0 ==>
                  Applied(overlay) == m.appliedIndex && Last(overlay) == m.lastSeqNum)
  {
    hide After, Inv;
    ReachedInv(log, actions);
    var m := Reached(log, actions).m;
    RefinesLayered(m, State(m.accounts, Reached(log, actions).history));
    ForgetTombstones(m.accounts, m.toBeDeleted);
    Overlay(m.db, m.wb);
    hide ApplyOps, DbOk, Sound, CachesOk, Layered, Forget, Live;
  }

  /** Exactly once within retention: the dedup ids and the retained events are in one-to-one
      correspondence, and a command id that took effect twice did so after its earlier event had
      been collected. */
  lemma ExactlyOnceWithinRetention(log: Log, actions: seq<Action>)
    requires After(log, actions).Some?
    ensures var sys := Reached(log, actions);
            var m, h, first := sys.m, sys.history, First(sys.m.db);
            && (forall c: Id, n: nat :: GetSeqNum(m, c) == Some(n) <==>
                  AtLeastOne(first) <= n <= |h| && h[n - 1].header.commandId == c)
            && (forall n: nat | AtLeastOne(first) <= n <= |h| :: WalletMachine.GetEvent(m, n) == Some(h[n - 1]))
            && (forall i, j | 0 <= i < j < |h| && h[i].header.commandId == h[j].header.commandId :: i + 1 < first)
  {
    hide After, Inv, Refines, GetSeqNum, WalletMachine.GetEvent, Unique, Lookup, First, AtBoundary, Sound, AtLeastOne;
    var sys := Reached(log, actions);
    ReachedInv(log, actions);
    hide Reached;
    SeqNumsExactly(sys.m, sys.history);
    RetainedExactly(sys.m, sys.history);
  }

  lemma SeqNumsExactly(m: Machine, h: seq<Event>)
    requires Refines(m, State(m.accounts, h))
    ensures forall c: Id, n: nat :: GetSeqNum(m, c) == Some(n) <==>
              AtLeastOne(First(m.db)) <= n <= |h| && h[n - 1].header.commandId == c
  {
    hide Refines, GetSeqNum, First;
    forall c: Id, n: nat ensures GetSeqNum(m, c) == Some(n) <==>
                                 AtLeastOne(First(m.db)) <= n <= |h| && h[n - 1].header.commandId == c
    {
      SeqNumExactly(m, State(m.accounts, h), c, n);
    }
  }

  lemma UniqueHistory(m: Machine, s: State)
    requires Refines(m, s)
    ensures Unique(s.history, First(m.db))
  {
  }

  lemma RetainedExactly(m: Machine, h: seq<Event>)
    requires Refines(m, State(m.accounts, h))
    ensures var first := First(m.db);
            && (forall n: nat | AtLeastOne(first) <= n <= |h| :: WalletMachine.GetEvent(m, n) == Some(h[n - 1]))
            && (forall i, j | 0 <= i < j < |h| && h[i].header.commandId == h[j].header.commandId :: i + 1 < first)
  {
    hide Refines, WalletMachine.GetEvent, First;
    UniqueHistory(m, State(m.accounts, h));
    forall n: nat | AtLeastOne(First(m.db)) <= n <= |h| ensures WalletMachine.GetEvent(m, n) == Some(h[n - 1]) {
      EventRefines(m, State(m.accounts, h), n);
    }
  }

  lemma SeqNumExactly(m: Machine, s: State, c: Id, n: nat)
    requires Refines(m, s)
    ensures GetSeqNum(m, c) == Some(n)
            <==> AtLeastOne(First(m.db)) <= n <= |s.history| && s.history[n - 1].header.commandId == c
  {
    hide Refines, GetSeqNum;
    SeqNumRefines(m, s, c);
    UniqueHistory(m, s);
    if AtLeastOne(First(m.db)) <= n <= |s.history| && s.history[n - 1].header.commandId == c {
      LookupUnique(s.history, First(m.db), n);
    }
  }

  lemma LookupUnique(h: seq<Event>, first: nat, n: nat)
    requires Unique(h, first) && AtLeastOne(first) <= n <= |h|
    ensures Lookup(h, first, h[n - 1].header.commandId) == Some(n)
  {
    var k := Lookup(h, first, h[n - 1].header.commandId);
    assert k.Some?;
    assert h[k.value - 1].header.commandId == h[n - 1].header.commandId;
  }

  /** A command whose event is retained changes nothing: it is answered with that event, or with a
      conflict if the event is of another type. */
  lemma DuplicateChangesNothing(log: Log, actions: seq<Action>, position: Position, cmd: Command)
    requires After(log, actions).Some? && GetSeqNum(Reached(log, actions).m, cmd.id).Some?
    ensures var sys := Reached(log, actions);
            var n := GetSeqNum(sys.m, cmd.id).value;
            && 1 <= n <= |sys.history|
            && Exec(sys.m, position, cmd) == Send(sys.m, position, MatchEvent(cmd, sys.history[n - 1]))
  {
    hide After, Inv, Refines, AtBoundary, Exec, GetSeqNum, Sound, Handle, MatchEvent;
    ReachedInv(log, actions);
    var sys := Reached(log, actions);
    var s := State(sys.m.accounts, sys.history);
    SeqNumRefines(sys.m, s, cmd.id);
    QuietRefines(sys.m, s, position, cmd);
  }

  /** The database holds exactly the events numbered `max(first, 1)` to `last`, each the event of
      the history with that number; and so does every version a crash can fall back to. */
  lemma EventWindow(log: Log, actions: seq<Action>, version: nat)
    requires After(log, actions).Some? && version < |Reached(log, actions).versions|
    ensures var sys := Reached(log, actions);
            var d := sys.versions[version];
            && First(d) <= Last(d) <= |sys.history|
            && (forall n: nat :: n in d.events <==> AtLeastOne(First(d)) <= n <= Last(d))
            && (forall n <- d.events :: d.events[n] == sys.history[n - 1] && d.events[n].header.seqNum == n)
            && sys.versions[|sys.versions| - 1] == sys.m.db
  {
    hide After, Refines, AtBoundary, Sound, AlwaysBalanced, PlaceOk, GcOk, VersionOk, First, Last;
    ReachedInv(log, actions);
    var sys := Reached(log, actions);
    VersionWindow(log, sys.versions[version], sys.history);
  }

  lemma VersionWindow(log: Log, d: Db, h: seq<Event>)
    requires VersionOk(log, d, h)
    ensures First(d) <= Last(d) <= |h|
    ensures forall n: nat :: n in d.events <==> AtLeastOne(First(d)) <= n <= Last(d)
    ensures forall n <- d.events :: d.events[n] == h[n - 1] && d.events[n].header.seqNum == n
  {
    hide First, Last, DedupIs, Unique, AccountsOk, Live, Fold;
  }

  /** The money in the wallet is what its events brought in; if no transfer goes to its own source
      and every batch names distinct accounts, that is what batches deposited. */
  lemma MoneyIsConserved(log: Log, actions: seq<Action>)
    requires After(log, actions).Some?
    ensures var sys := Reached(log, actions);
            && Total(sys.m.accounts) == Total(Live(sys.m.accounts)) == NetOf(sys.history)
            && ((forall i | 0 <= i < |sys.history| :: Conserving(sys.history[i].request))
                ==> Total(sys.m.accounts) == Deposits(sys.history))
  {
    hide After;
    ReachedInv(log, actions);
    var sys := Reached(log, actions);
    TombstonesAreEmpty(sys.m.accounts);
    assert sys.history[..|sys.history|] == sys.history && Balanced(sys.history);
    hide Refines, AtBoundary, VersionsOk;
    if forall i | 0 <= i < |sys.history| :: Conserving(sys.history[i].request) { ConservingHistory(sys.history); }
  }

  /** Every stored account is well formed: reservations are positive, deleted accounts are empty.
      The limit of a live account is the one last set for it, and once a balance operation has
      succeeded under it, the available amount stays within it until it is next replaced. */
  lemma LimitsAreRespected(log: Log, actions: seq<Action>, id: Id)
    requires After(log, actions).Some? && id in Reached(log, actions).m.accounts
    ensures var sys := Reached(log, actions);
            var a := sys.m.accounts[id];
            && a.id == id && WellFormed(a)
            && (!a.state.Deleted? ==>
                  var limit := HistoryMeaning.LimitOf(sys.history, id);
                  && a.config.limit == limit
                  && (limit.Some? && LimitInForce(sys.history, id) ==>
                        Admits(limit.value, Value(a.balance.available))))
  {
    hide After;
    ReachedInv(log, actions);
    var sys := Reached(log, actions);
    assert sys.history[..|sys.history|] == sys.history && Balanced(sys.history);
    hide Refines, AtBoundary, VersionsOk;
    assert !sys.m.accounts[id].state.Deleted? ==> id in Fold(sys.history);
    if !sys.m.accounts[id].state.Deleted? { HistoryMeaning.LimitsAreThoseSet(log, actions, id); }
  }

  /** The last action of a schedule, unless a crash: a balance changes only in state Normal, an
      account is dropped only if deleted, and appears only by a command. */
  lemma BalancesChangeOnlyInNormal(log: Log, actions: seq<Action>, id: Id)
    requires actions != [] && After(log, actions).Some? && !actions[|actions| - 1].Crash?
    ensures After(log, actions[..|actions| - 1]).Some?
    ensures var before, after := Reached(log, actions[..|actions| - 1]).m.accounts, Reached(log, actions).m.accounts;
            && (id in before && id in after && before[id].balance != after[id].balance ==> before[id].state.Normal?)
            && (id in before && id !in after ==> before[id].state.Deleted?)
            && (id !in before && id in after ==> actions[|actions| - 1].Execute?)
  {
    hide Inv, Exec, Run;
    ReachedInv(log, actions[..|actions| - 1]);
    var sys, action := Reached(log, actions[..|actions| - 1]), actions[|actions| - 1];
    RefinesAccounts(sys.m, State(sys.m.accounts, sys.history));
    if action.Execute? { BalancesInNormal(log, sys, id); }
    else if action.FlushBatch? { RefinesLayered(sys.m, State(sys.m.accounts, sys.history)); }
  }

  lemma BalancesInNormal(log: Log, sys: System, id: Id)
    requires Inv(log, sys) && Enabled(log, sys, Execute)
    ensures var before, after := sys.m.accounts, Step(log, sys, Execute).m.accounts;
            && (id in before ==> id in after)
            && (id in before && before[id].balance != after[id].balance ==> before[id].state.Normal?)
  {
    hide Inv, Exec, Handle;
    ExecuteIs(log, sys);
    InvRefines(log, sys);
    var s, cmd := State(sys.m.accounts, sys.history), Current(log, sys.m)[sys.offset];
    var h := Handle(s.accounts, cmd.request);
    if h.Ok? {
      WriteAllAt(s.accounts, h.value.writes, id);
      forall w | w in h.value.writes
        ensures w.id in s.accounts && s.accounts[w.id].balance != w.balance ==> s.accounts[w.id].state.Normal?
      {
        BalanceNeedsNormal(s.accounts, cmd.request, w);
      }
    }
  }

  // ---------- answers ----------

  /** Action `k` of the schedule executed the command at `p`, and `response` is its outcome there. */
  ghost predicate AnsweredAt(log: Log, actions: seq<Action>, k: nat, p: Position, response: Response) {
    && k < |actions| && actions[k] == Execute && After(log, actions[..k]).Some?
    && var sys := After(log, actions[..k]).value;
       Enabled(log, sys, Execute) && p == NextPosition(sys) && response == Outcome(log, sys).1
  }

  lemma OtherStepsSendNothing(log: Log, sys: System, action: Action)
    requires Enabled(log, sys, action) && !action.Execute?
    ensures Step(log, sys, action).m.sent == sys.m.sent
  {
  }

  /** Answer `i` was sent by the one step that found `i` answers before it, and is the outcome of
      the command at its position in the state of that moment. */
  lemma {:induction false} AnswersAreOutcomes(log: Log, actions: seq<Action>, i: nat) returns (k: nat)
    requires After(log, actions).Some? && i < |Reached(log, actions).m.sent|
    ensures var o := Reached(log, actions).m.sent[i]; AnsweredAt(log, actions, k, o.position, o.response)
    ensures |After(log, actions[..k]).value.m.sent| == i
    decreases |actions|
  {
    hide Inv, Step, Enabled, Outcome;
    var n := |actions| - 1;
    ReachedInv(log, actions[..n]);
    var sys := Reached(log, actions[..n]);
    assert Enabled(log, sys, actions[n]) && Reached(log, actions) == Step(log, sys, actions[n]);
    if actions[n].Execute? { ExecuteIs(log, sys); } else { OtherStepsSendNothing(log, sys, actions[n]); }
    hide After;
    if actions[n].Execute? && i == |sys.m.sent| {
      k := n;
    } else {
      k := AnswersAreOutcomes(log, actions[..n], i);
      assert actions[..n][..k] == actions[..k];
    }
  }

  /** Every answer ever sent is that of the command at its log position, in the state the wallet was
      in when it executed the command: its event, its retained event, or its own error.  The unwrap
      of a duplicate's event never fails. */
  lemma AnswersAreForTheirCommand(log: Log, actions: seq<Action>, i: nat) returns (k: nat)
    requires After(log, actions).Some? && i < |Reached(log, actions).m.sent|
    ensures k < |actions| && After(log, actions[..k]).Some?
    ensures var o, sys := Reached(log, actions).m.sent[i], Reached(log, actions[..k]);
            && AnsweredAt(log, actions, k, o.position, o.response)
            && InLog(log, o.position)
            && AnswerTo(State(sys.m.accounts, sys.history), First(sys.m.db), o.position,
                        CommandAt(log, o.position), o.response)
  {
    hide After, AnswerTo, Run;
    k := AnswersAreOutcomes(log, actions, i);
    var sys := Reached(log, actions[..k]);
    RunAnswers(State(sys.m.accounts, sys.history), First(sys.m.db), NextPosition(sys), Current(log, sys.m)[sys.offset]);
  }

  // ---------- queries against a running wallet ----------

  lemma {:induction false} PrefixReached(log: Log, actions: seq<Action>, k: nat)
    requires After(log, actions).Some? && k <= |actions|
    ensures After(log, actions[..k]).Some?
    decreases |actions|
  {
    hide Enabled, Step;
    if k < |actions| {
      PrefixReached(log, actions[..|actions| - 1], k);
      assert actions[..|actions| - 1][..k] == actions[..k];
    } else {
      assert actions[..k] == actions;
    }
  }

  lemma LastStep(log: Log, actions: seq<Action>, k: nat)
    requires k < |actions| && After(log, actions[..k + 1]).Some?
    ensures After(log, actions[..k]).Some? && Enabled(log, Reached(log, actions[..k]), actions[k])
    ensures Reached(log, actions[..k + 1]) == Step(log, Reached(log, actions[..k]), actions[k])
  {
    hide Enabled, Step;
    assert actions[..k + 1][..k] == actions[..k];
  }

  lemma {:induction false} SegmentGrows(log: Log, actions: seq<Action>, j: nat, k: nat)
    requires After(log, actions).Some? && j <= k <= |actions|
    requires forall i | j <= i < k :: !actions[i].Crash?
    ensures After(log, actions[..j]).Some? && After(log, actions[..k]).Some?
    ensures Grows(Reached(log, actions[..j]), Reached(log, actions[..k]))
    decreases k
  {
    hide After, Enabled, Step, Inv, Refines, AtBoundary;
    PrefixReached(log, actions, j);
    PrefixReached(log, actions, k);
    if j < k {
      SegmentGrows(log, actions, j, k - 1);
      LastStep(log, actions, k - 1);
      ReachedInv(log, actions[..k - 1]);
      StepGrows(log, Reached(log, actions[..k - 1]), actions[k - 1]);
    }
  }

  ghost function DbAt(log: Log, actions: seq<Action>, k: nat): Db {
    if k <= |actions| && After(log, actions[..k]).Some? then Reached(log, actions[..k]).m.db else EMPTY_DB
  }

  /** Reads taken at any moments of a run without a crash see databases that evolve as
      `QueryEvents` expects: it is correct under every interleaving with the collector. */
  lemma ReadsEvolve(log: Log, actions: seq<Action>, start: nat, times: nat -> nat)
    requires After(log, actions).Some?
    requires forall i: nat :: start <= times(i) <= |actions|
    requires forall i: nat, j: nat | i <= j :: times(i) <= times(j)
    requires forall i | start <= i < |actions| :: !actions[i].Crash?
    ensures Evolves((i: nat) => DbAt(log, actions, times(i)), Reached(log, actions).history)
  {
    hide After, DbOk, First, Last;
    var snap := (i: nat) => DbAt(log, actions, times(i));
    var h := Reached(log, actions).history;
    forall i: nat ensures Last(snap(i)) <= |h| && DbOk(snap(i), h[..Last(snap(i))]) {
      ReadIsGood(log, actions, times(i));
    }
    forall i: nat, j: nat | i <= j
      ensures First(snap(i)) <= First(snap(j)) && Last(snap(i)) <= Last(snap(j))
    {
      SegmentGrows(log, actions, times(i), times(j));
    }
  }

  lemma ReadIsGood(log: Log, actions: seq<Action>, k: nat)
    requires After(log, actions).Some? && k <= |actions|
    requires forall i | k <= i < |actions| :: !actions[i].Crash?
    ensures var h := Reached(log, actions).history;
            var d := DbAt(log, actions, k);
            Last(d) <= |h| && DbOk(d, h[..Last(d)])
  {
    hide After, Inv, Refines, AtBoundary, DbOk;
    SegmentGrows(log, actions, k, |actions|);
    assert actions[..|actions|] == actions;
    ReachedInv(log, actions[..k]);
    var sys := Reached(log, actions[..k]);
    RefinesAccounts(sys.m, State(sys.m.accounts, sys.history));
    assert sys.history[..Last(sys.m.db)] == Reached(log, actions).history[..Last(sys.m.db)];
  }
}
