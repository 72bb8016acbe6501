/** The log consumer beside the raft log it turns: many turns, each reading the store three times. */
module ConsumerRuns {
  import opened WalletTypes
  import opened Callbacks
  import opened RaftLog
  import opened RaftFetch
  import opened LogConsumer
  import R = RaftLogSystem
  import RS = RaftLogSuffix

  // ---------- the store at a moment ----------

  ghost function At(actions: seq<R.Action>, t: nat): R.Store {
    if t <= |actions| && R.After(actions[..t]).Some? then R.After(actions[..t]).value else R.Bootstrap()
  }

  /** What the consumer turns of the stored apply state. */
  ghost function WindowOf(s: R.Store): Window {
    if s.kv == [] then Window(0, 0) else Window(R.Last(s.kv).truncIndex + 1, R.Last(s.kv).applied)
  }

  ghost function EngineOf(s: R.Store): map<nat, Entry> { if s.raft == [] then map[] else R.Last(s.raft) }

  lemma {:induction false} PrefixGranted(actions: seq<R.Action>, t: nat)
    requires R.Granted(actions) && t <= |actions|
    ensures R.Granted(actions[..t])
    decreases |actions|
  {
    hide R.Enabled, R.After;
    if t < |actions| {
      PrefixGranted(actions[..|actions| - 1], t);
      assert actions[..|actions| - 1][..t] == actions[..t];
    } else {
      assert actions[..t] == actions;
    }
  }

  lemma AtInv(actions: seq<R.Action>, t: nat)
    requires R.Granted(actions) && t <= |actions|
    ensures R.After(actions[..t]) == Some(At(actions, t)) && R.Inv(At(actions, t))
    ensures At(actions, t).raft != [] && At(actions, t).kv != []
  {
    PrefixGranted(actions, t);
    R.EveryRunIsSafe(actions[..t]);
  }

  lemma AtStep(actions: seq<R.Action>, t: nat)
    requires R.Granted(actions) && t < |actions|
    ensures At(actions, t).raft != [] && At(actions, t).kv != [] && R.Enabled(At(actions, t), actions[t])
    ensures R.Step(At(actions, t), actions[t]) == Some(At(actions, t + 1))
  {
    hide R.Enabled, R.Step, R.Inv;
    AtInv(actions, t);
    AtInv(actions, t + 1);
    assert actions[..t + 1][..t] == actions[..t] && R.Last(actions[..t + 1]) == actions[t];
  }

  /** A later store: what was committed stays. */
  ghost predicate Follows(s: R.Store, s': R.Store) {
    && s.commit <= |s.full| && s.commit <= s'.commit <= |s'.full| && s.full[..s.commit] == s'.full[..s.commit]
  }

  lemma StepFollows(s: R.Store, action: R.Action)
    requires R.Inv(s) && s.raft != [] && s.kv != [] && R.Enabled(s, action) && R.Step(s, action).Some?
    ensures Follows(s, R.Step(s, action).value)
  {
    hide R.KvOk, R.RaftOk, R.ResultsOk, R.StateOk, R.GcOk, R.CompactsOk, LogOk, R.ApplyAll, R.Delete, R.Restartable;
    R.StepKeepsInv(s, action);
    if action.GcStep? { DeleteKeepsLog(s); }
  }

  lemma DeleteKeepsLog(s: R.Store)
    requires s.deleting != [] && s.raft != [] && R.Delete(s).Some?
    ensures var s' := R.Delete(s).value; s'.full == s.full && s'.commit == s.commit && s'.kv == s.kv
  {
  }

  lemma StepAdvances(s: R.Store, action: R.Action)
    requires R.Inv(s) && s.raft != [] && s.kv != [] && R.Enabled(s, action) && !action.Crash?
    requires R.Step(s, action).Some?
    ensures WindowOf(s).applied <= WindowOf(R.Step(s, action).value).applied
  {
    hide R.RaftOk, R.ResultsOk, R.GcOk, R.Delete;
    if action.Apply? {
      hide R.ApplyAll, LogOk, R.CompactsOk;
      var a := R.Last(s.kv);
      assert R.StateOk(a, s.full, s.commit);
      R.ApplyRange(a.(commitIndex := action.index, commitTerm := s.full[action.index - 1].term), s.full, action.index);
    } else if action.GcStep? {
      DeleteKeepsLog(s);
    }
  }

  lemma {:induction false} StoresFollow(actions: seq<R.Action>, t: nat, t': nat)
    requires R.Granted(actions) && t <= t' <= |actions|
    ensures Follows(At(actions, t), At(actions, t'))
    ensures (forall k | t <= k < t' :: !actions[k].Crash?) ==>
              WindowOf(At(actions, t)).applied <= WindowOf(At(actions, t')).applied
    decreases t'
  {
    hide R.Inv, R.Step, R.Enabled, At, WindowOf, Follows;
    if t == t' {
      AtInv(actions, t);
      FollowsItself(At(actions, t));
    } else {
      StoresFollow(actions, t, t' - 1);
      AtInv(actions, t' - 1);
      AtStep(actions, t' - 1);
      StepFollows(At(actions, t' - 1), actions[t' - 1]);
      FollowsOn(At(actions, t), At(actions, t' - 1), At(actions, t'));
      if !actions[t' - 1].Crash? { StepAdvances(At(actions, t' - 1), actions[t' - 1]); }
    }
  }

  lemma FollowsItself(s: R.Store)
    requires R.Inv(s)
    ensures Follows(s, s)
  {
  }

  lemma FollowsOn(a: R.Store, b: R.Store, c: R.Store)
    requires Follows(a, b) && Follows(b, c)
    ensures Follows(a, c)
  {
    assert b.full[..b.commit][..a.commit] == c.full[..b.commit][..a.commit];
  }

  // ---------- turns ----------

  /** The moments of a turn: the window, the window again, the engine. */
  datatype Reads = Reads(window: nat, again: nat, engine: nat)

  ghost function TurnAt(actions: seq<R.Action>, logIndex: nat, r: Reads): Turn {
    TurnOf(EngineOf(At(actions, r.engine)), logIndex, WindowOf(At(actions, r.window)), WindowOf(At(actions, r.again)))
  }

  datatype Progress = Progress(next: nat, delivered: seq<Entry>)

  /** A consumer that starts at `first`, after the given turns; `None` when one of them panicked. */
  ghost function Consume(actions: seq<R.Action>, first: nat, turns: seq<Reads>): Option<Progress> {
    if turns == [] then Some(Progress(first, []))
    else
      match Consume(actions, first, turns[..|turns| - 1])
      case None => None
      case Some(p) => Advance(actions, p, turns[|turns| - 1])
  }

  ghost function Advance(actions: seq<R.Action>, p: Progress, r: Reads): Option<Progress> {
    match TurnAt(actions, p.next, r)
    case Panic => None
    case Wait => Some(p)
    case Skip(next) => Some(p.(next := next))
    case Deliver(next) =>
      Some(Progress(next, p.delivered + Unbroken(EngineOf(At(actions, r.engine)), p.next, next)))
  }

  /** The turns of one process: it starts after action `start`, and no crash follows. */
  ghost predicate Ordered(actions: seq<R.Action>, start: nat, turns: seq<Reads>) {
    && start <= |actions|
    && (forall k | start <= k < |actions| :: !actions[k].Crash?)
    && (forall k | 0 <= k < |turns| ::
          start <= turns[k].window <= turns[k].again <= turns[k].engine <= |actions|)
  }

  /** The range of the turn was inside both windows, is longer than eight, and the engine holds none of
      it any more when it is read. */
  ghost predicate Overtaken(actions: seq<R.Action>, logIndex: nat, r: Reads) {
    var window, m := WindowOf(At(actions, r.window)), EngineOf(At(actions, r.engine));
    var end := Min(logIndex + CONSUME_LIMIT, window.applied);
    && window.start <= logIndex <= window.applied && WindowOf(At(actions, r.again)).start <= logIndex
    && MULTI_GET_COUNT < end + 1 - logIndex
    && forall i | logIndex <= i <= end :: i !in m
  }

  lemma WindowInLog(actions: seq<R.Action>, t: nat)
    requires R.Granted(actions) && t <= |actions|
    ensures WindowOf(At(actions, t)).applied <= At(actions, t).commit <= |At(actions, t).full|
    ensures LogOk(At(actions, t).full)
  {
    AtInv(actions, t);
    var s := At(actions, t);
    R.KvNonempty(s.kv, s.full, s.commit);
  }

  lemma EngineAt(actions: seq<R.Action>, t: nat) returns (gone: nat)
    requires R.Granted(actions) && t <= |actions|
    ensures Keeps(EngineOf(At(actions, t)), At(actions, t).full, gone)
  {
    PrefixGranted(actions, t);
    gone := RS.EngineKeepsASuffix(actions[..t]);
  }

  /** One turn against the final log: it skips if and only if it is overtaken, and what it delivers is
      what the log holds there. */
  lemma TurnOfARun(actions: seq<R.Action>, start: nat, r: Reads, logIndex: nat)
    requires R.Granted(actions) && Ordered(actions, start, [r]) && 1 <= logIndex
    ensures var turn, final := TurnAt(actions, logIndex, r), At(actions, |actions|);
            && (turn.Skip? <==> Overtaken(actions, logIndex, r))
            && (turn.Skip? || turn.Deliver? ==> logIndex < turn.next <= final.commit + 1 <= |final.full| + 1)
            && (turn.Deliver? ==>
                  Unbroken(EngineOf(At(actions, r.engine)), logIndex, turn.next)
                  == final.full[logIndex - 1..turn.next - 1])
  {
    hide R.Granted, R.After, R.Inv, At, WindowOf, EngineOf, Unbroken, TurnOf, Fetching, LogOk, Keeps;
    assert [r][0] == r;
    var w, w', s, final := At(actions, r.window), At(actions, r.again), At(actions, r.engine), At(actions, |actions|);
    StoresFollow(actions, r.window, r.again);
    StoresFollow(actions, r.again, r.engine);
    StoresFollow(actions, r.engine, |actions|);
    WindowInLog(actions, r.window);
    WindowInLog(actions, r.engine);
    var gone := EngineAt(actions, r.engine);
    var m, end := EngineOf(s), Min(logIndex + CONSUME_LIMIT, WindowOf(w).applied);
    TurnExactly(m, s.full, gone, logIndex, WindowOf(w), WindowOf(w'));
    TurnEnds(m, logIndex, WindowOf(w), WindowOf(w'));
    if logIndex <= WindowOf(w).applied {
      GoneExactly(m, s.full, gone, logIndex, end);
      if gone < logIndex { StillThere(m, s, final, gone, logIndex, end); }
    }
  }

  lemma StillThere(m: map<nat, Entry>, s: R.Store, s': R.Store, gone: nat, from: nat, end: nat)
    requires Keeps(m, s.full, gone) && Follows(s, s') && gone < from <= end <= s.commit
    ensures Unbroken(m, from, end + 1) == s'.full[from - 1..end]
  {
    WholeRange(m, s.full, gone, from, end + 1);
    SamePart(s, s', from, end);
  }

  lemma GoneExactly(m: map<nat, Entry>, log: seq<Entry>, gone: nat, from: nat, end: nat)
    requires Keeps(m, log, gone) && from <= end <= |log|
    ensures end <= gone <==> forall i | from <= i <= end :: i !in m
  {
    if gone < end { assert end in m; }
  }

  lemma SamePart(s: R.Store, s': R.Store, from: nat, end: nat)
    requires Follows(s, s') && 1 <= from <= end <= s.commit
    ensures s.full[from - 1..end] == s'.full[from - 1..end]
  {
    assert s.full[from - 1..end] == s.full[..s.commit][from - 1..end];
    assert s'.full[from - 1..end] == s'.full[..s.commit][from - 1..end];
  }

  /** Turn `k` of the run is overtaken. */
  ghost predicate OvertakenAt(actions: seq<R.Action>, first: nat, turns: seq<Reads>, k: nat)
    requires k < |turns|
  {
    && Consume(actions, first, turns[..k]).Some?
    && Overtaken(actions, Consume(actions, first, turns[..k]).value.next, turns[k])
  }

  ghost predicate NeverOvertaken(actions: seq<R.Action>, first: nat, turns: seq<Reads>) {
    forall k | 0 <= k < |turns| :: !OvertakenAt(actions, first, turns, k)
  }

  ghost predicate Delivery(p: Progress, first: nat, final: R.Store, gapFree: bool) {
    && 1 <= first <= p.next <= final.commit + 1 <= |final.full| + 1
    && |p.delivered| <= p.next - first
    && (gapFree ==> p.delivered == final.full[first - 1..p.next - 1])
    && (!gapFree ==> |p.delivered| < p.next - first)
  }

  lemma NeverOvertakenSnoc(actions: seq<R.Action>, first: nat, turns: seq<Reads>)
    requires turns != []
    ensures var n := |turns| - 1;
            NeverOvertaken(actions, first, turns)
            <==> NeverOvertaken(actions, first, turns[..n]) && !OvertakenAt(actions, first, turns, n)
  {
    hide Overtaken, Consume;
    var n := |turns| - 1;
    forall k | 0 <= k < n ensures OvertakenAt(actions, first, turns[..n], k) == OvertakenAt(actions, first, turns, k) {
      assert turns[..n][..k] == turns[..k];
    }
  }

  lemma {:induction false} EveryDelivery(actions: seq<R.Action>, start: nat, first: nat, turns: seq<Reads>)
    requires R.Granted(actions) && Ordered(actions, start, turns)
    requires 1 <= first <= At(actions, start).commit + 1
    requires Consume(actions, first, turns).Some?
    ensures Delivery(Consume(actions, first, turns).value, first, At(actions, |actions|),
                     NeverOvertaken(actions, first, turns))
    decreases |turns|
  {
    hide R.Granted, R.After, At, Overtaken, NeverOvertaken;
    var final := At(actions, |actions|);
    if turns == [] {
      StoresFollow(actions, start, |actions|);
      assert NeverOvertaken(actions, first, []) by { NothingRead(actions, first); }
    } else {
      var n := |turns| - 1;
      var p := Consume(actions, first, turns[..n]).value;
      EveryDelivery(actions, start, first, turns[..n]);
      NeverOvertakenSnoc(actions, first, turns);
      TurnOfARun(actions, start, turns[n], p.next);
      Advances(actions, first, p, turns[n], final, NeverOvertaken(actions, first, turns[..n]));
    }
  }

  lemma NothingRead(actions: seq<R.Action>, first: nat)
    ensures NeverOvertaken(actions, first, [])
  {
  }

  lemma Advances(actions: seq<R.Action>, first: nat, p: Progress, r: Reads, final: R.Store, gapFree: bool)
    requires Delivery(p, first, final, gapFree) && Advance(actions, p, r).Some?
    requires var turn := TurnAt(actions, p.next, r);
             && (turn.Skip? || turn.Deliver? ==> p.next < turn.next <= final.commit + 1 <= |final.full| + 1)
             && (turn.Deliver? ==>
                   Unbroken(EngineOf(At(actions, r.engine)), p.next, turn.next)
                   == final.full[p.next - 1..turn.next - 1])
    ensures Delivery(Advance(actions, p, r).value, first, final, gapFree && !TurnAt(actions, p.next, r).Skip?)
  {
    hide TurnAt, Unbroken, At;
    var turn := TurnAt(actions, p.next, r);
    if turn.Deliver? && gapFree {
      assert final.full[first - 1..turn.next - 1]
          == final.full[first - 1..p.next - 1] + final.full[p.next - 1..turn.next - 1];
    }
  }

  /** Whatever the raft log does meanwhile: what a run of turns has delivered is every entry from the
      first on, as the log holds them, if and only if no turn was overtaken by the collector. */
  lemma GapFreeRun(actions: seq<R.Action>, start: nat, first: nat, turns: seq<Reads>)
    requires R.Granted(actions) && Ordered(actions, start, turns)
    requires 1 <= first <= At(actions, start).commit + 1
    requires Consume(actions, first, turns).Some?
    ensures var p, full := Consume(actions, first, turns).value, At(actions, |actions|).full;
            && first <= p.next <= |full| + 1
            && (p.delivered == full[first - 1..p.next - 1] <==> NeverOvertaken(actions, first, turns))
  {
    hide NeverOvertaken, Consume, At, R.Granted;
    EveryDelivery(actions, start, first, turns);
  }
}
