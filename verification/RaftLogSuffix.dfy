/** The raft engine loses entries from the front only: what it holds is always a suffix of the log. */
module RaftLogSuffix {
  import opened WalletTypes
  import opened Callbacks
  import opened RaftLog
  import opened RaftLogSystem

  /** With an entry, every later one. */
  ghost predicate UpClosed(m: map<nat, Entry>, n: nat) {
    forall i, j | i in m && i <= j <= n :: j in m
  }

  /** Each task starts where the one before ended, from `from` to `to`. */
  ghost predicate Linked(q: seq<Task>, from: nat, to: nat) {
    if q == [] then from == to
    else q[0].from == from && q[0].from <= q[0].to && Linked(q[1..], q[0].to, to)
  }

  /** Where the next deletion starts. */
  function Front(q: seq<Task>, lastCompacted: nat): nat { if q == [] then lastCompacted else q[0].from }

  /** The tasks lead from there to the last index compacted, and nothing stored lies before them. */
  ghost predicate TaskList(q: seq<Task>, lastCompacted: nat, m: map<nat, Entry>) {
    Linked(q, Front(q, lastCompacted), lastCompacted) && forall k <- m :: Front(q, lastCompacted) <= k
  }

  ghost predicate SuffixInv(s: Store) {
    && s.raft != []
    && (forall w | 0 <= w < |s.raft| :: UpClosed(s.raft[w], |s.full|))
    && TaskList(s.deleting + s.tasks, s.lastCompacted, Last(s.raft))
  }

  lemma {:induction false} LinkedGrows(q: seq<Task>, from: nat, to: nat)
    requires Linked(q, from, to)
    ensures from <= to
    decreases |q|
  {
    if q != [] { LinkedGrows(q[1..], q[0].to, to); }
  }

  lemma {:induction false} LinkedSnoc(q: seq<Task>, from: nat, to: nat, t: Task)
    requires Linked(q, from, to) && t.from == to && t.from <= t.to
    ensures Linked(q + [t], from, t.to)
    decreases |q|
  {
    if q == [] {
      assert ([] + [t])[1..] == [];
    } else {
      LinkedSnoc(q[1..], q[0].to, to, t);
      assert (q + [t])[1..] == q[1..] + [t];
    }
  }

  // ---------- steps ----------

  lemma AppendUpClosed(m: map<nat, Entry>, full: seq<Entry>, entries: seq<Entry>, first: nat)
    requires UpClosed(m, |full|) && entries != [] && Consecutive(entries, first) && 1 <= first <= |full| + 1
    ensures UpClosed(Cut(Put(m, entries), first + |entries|, |full| + 1), |full[..first - 1] + entries|)
    ensures forall k <- Cut(Put(m, entries), first + |entries|, |full| + 1) :: k in m || first <= k
  {
    PutAt(m, entries, first);
  }

  /** Entries appended at or after the last index compacted. */
  lemma LaterKeys(q: seq<Task>, lastCompacted: nat, m: map<nat, Entry>, m': map<nat, Entry>, first: nat)
    requires TaskList(q, lastCompacted, m) && lastCompacted <= first
    requires forall k <- m' :: k in m || first <= k
    ensures TaskList(q, lastCompacted, m')
  {
    LinkedGrows(q, Front(q, lastCompacted), lastCompacted);
  }

  /** New entries come right after a prefix of the log that holds everything compacted. */
  lemma AppendPlace(s: Store, action: Action)
    requires Inv(s) && action.Append? && Enabled(s, action) && action.entries != []
    ensures var entries := action.entries;
            var first := entries[0].index;
            && 1 <= first <= |s.full| + 1 && s.last == |s.full| && Consecutive(entries, first)
            && Last(entries).index == first + |entries| - 1
            && s.lastCompacted <= first
  {
    hide Holds, LogOk, CompactsOk, ResultsOk, TasksOk, RaftOk, KvOk;
  }

  lemma AppendSuffix(s: Store, action: Action)
    requires Inv(s) && SuffixInv(s) && action.Append? && Enabled(s, action)
    ensures SuffixInv(AppendStep(s, action.entries, action.hardCommit, action.hardTerm))
  {
    hide UpClosed, TaskList, Put, Cut, Inv, Enabled;
    var entries := action.entries;
    if entries != [] {
      var first := entries[0].index;
      AppendPlace(s, action);
      AppendUpClosed(Last(s.raft), s.full, entries, first);
      var m' := Cut(Put(Last(s.raft), entries), first + |entries|, |s.full| + 1);
      LaterKeys(s.deleting + s.tasks, s.lastCompacted, Last(s.raft), m', first);
      var s' := AppendStep(s, entries, action.hardCommit, action.hardTerm);
      assert s'.full == s.full[..first - 1] + entries && s'.raft == [m'];
    }
  }

  lemma {:induction false} ScheduleLinked(deleting: seq<Task>, tasks: seq<Task>, from: nat, lastCompacted: nat,
                                          compacts: seq<nat>, trunc: nat, trunc': nat)
    requires Linked(deleting + tasks, from, lastCompacted) && lastCompacted <= trunc + 1
    requires Growing(trunc, compacts, trunc')
    ensures var (tasks', last) := Schedule(tasks, lastCompacted, compacts);
            && Linked(deleting + tasks', from, last)
            && (deleting + tasks != [] ==> deleting + tasks' != [] && (deleting + tasks')[0] == (deleting + tasks)[0])
            && (deleting + tasks == [] && deleting + tasks' != [] ==> (deleting + tasks')[0].from == lastCompacted)
            && (deleting + tasks' == [] ==> last == lastCompacted)
    decreases |compacts|
  {
    if compacts != [] {
      var t := Task(lastCompacted, compacts[0] + 1);
      LinkedSnoc(deleting + tasks, from, lastCompacted, t);
      assert deleting + (tasks + [t]) == deleting + tasks + [t];
      ScheduleLinked(deleting, tasks + [t], from, compacts[0] + 1, compacts[1..], compacts[0], trunc');
    }
  }

  lemma NotifySuffix(s: Store)
    requires Inv(s) && SuffixInv(s) && s.results != []
    ensures SuffixInv(Step(s, Notify).value)
  {
    hide UpClosed, Linked, Growing, Schedule, LogOk, CompactsOk, Holds, TasksOk, StateOk, KvOk;
    var r, front := s.results[0], Front(s.deleting + s.tasks, s.lastCompacted);
    ScheduleLinked(s.deleting, s.tasks, front, s.lastCompacted, r.compacts, s.peer.truncIndex, r.state.truncIndex);
  }

  lemma FrontBelow(q: seq<Task>, lastCompacted: nat, m: map<nat, Entry>)
    requires q != [] && TaskList(q, lastCompacted, m)
    ensures forall k <- m :: q[0].from <= k
  {
  }

  lemma HeadDone(q: seq<Task>, lastCompacted: nat, m: map<nat, Entry>)
    requires q != [] && TaskList(q, lastCompacted, m) && (q[0].from >= q[0].to || m == map[])
    ensures TaskList(q[1..], lastCompacted, m)
  {
    assert Linked(q[1..], q[0].to, lastCompacted);
    assert Front(q[1..], lastCompacted) == q[0].to;
  }

  lemma HeadMoves(q: seq<Task>, q': seq<Task>, lastCompacted: nat, m: map<nat, Entry>, m': map<nat, Entry>, from: nat)
    requires q != [] && TaskList(q, lastCompacted, m) && from <= q[0].to && forall k <- m' :: from <= k
    requires q' == [Task(from, q[0].to)] + q[1..]
    ensures TaskList(q', lastCompacted, m')
  {
    assert q'[1..] == q[1..];
  }

  /** The head of the list under one step of the collector. */
  lemma DeleteTasks(s: Store)
    requires Inv(s) && s.raft != [] && s.deleting != []
    requires TaskList(s.deleting + s.tasks, s.lastCompacted, Last(s.raft)) && Delete(s).Some?
    ensures var s' := Delete(s).value;
            s'.raft != [] && TaskList(s'.deleting + s'.tasks, s'.lastCompacted, Last(s'.raft))
  {
    hide Inv, TaskList;
    var t, rest, m := s.deleting[0], s.deleting[1..], Last(s.raft);
    var q := s.deleting + s.tasks;
    assert q[0] == t && q[1..] == rest + s.tasks;
    FrontBelow(q, s.lastCompacted, m);
    if t.from < t.to && t.from == 0 && m != map[] { SeekIsInRange(s); }
    var s' := Delete(s).value;
    if t.from >= t.to || (t.from == 0 && m == map[]) {
      HeadDone(q, s.lastCompacted, m);
    } else {
      var from := if t.from == 0 then FirstKey(m) else t.from + 1;
      assert s'.deleting + s'.tasks == [Task(from, t.to)] + q[1..];
      HeadMoves(q, s'.deleting + s'.tasks, s.lastCompacted, m, Last(s'.raft), from);
    }
  }

  lemma DeleteSuffix(s: Store)
    requires Inv(s) && SuffixInv(s) && s.deleting != []
    ensures Delete(s).Some? && SuffixInv(Delete(s).value)
  {
    hide Inv, UpClosed, TaskList;
    DeleteKeepsInv(s);
    DeleteTasks(s);
    var t := s.deleting[0];
    assert (s.deleting + s.tasks)[0] == t;
    FrontBelow(s.deleting + s.tasks, s.lastCompacted, Last(s.raft));
    WithoutFirst(Last(s.raft), |s.full|, t.from);
  }

  lemma WithoutFirst(m: map<nat, Entry>, n: nat, k: nat)
    requires UpClosed(m, n) && forall i <- m :: k <= i
    ensures UpClosed(m - {k}, n)
  {
  }

  lemma SyncSuffix(s: Store)
    requires SuffixInv(s) && s.kv != [] && s.deleting == []
    ensures SuffixInv(Step(s, GcSync).value)
  {
    hide UpClosed, TaskList;
    assert s.deleting + s.tasks + [] == s.deleting + s.tasks;
  }

  lemma CrashSuffix(s: Store, action: Action)
    requires SuffixInv(s) && s.kv != [] && action.Crash? && Enabled(s, action) && Step(s, action).Some?
    ensures SuffixInv(Step(s, action).value)
  {
    hide UpClosed, Restartable;
  }

  lemma OtherSuffix(s: Store, action: Action)
    requires SuffixInv(s) && s.kv != [] && (action.Commit? || action.Apply?) && Step(s, action).Some?
    ensures SuffixInv(Step(s, action).value)
  {
    hide UpClosed, TaskList, ApplyAll;
  }

  lemma StepSuffix(s: Store, action: Action)
    requires Inv(s) && SuffixInv(s) && Enabled(s, action)
    ensures Step(s, action).Some? && SuffixInv(Step(s, action).value)
  {
    KvNonempty(s.kv, s.full, s.commit);
    StepKeepsInv(s, action);
    hide Inv, SuffixInv;
    match action
    case Append(_, _, _) => AppendSuffix(s, action);
    case Commit(_) => OtherSuffix(s, action);
    case Apply(_) => OtherSuffix(s, action);
    case Notify => NotifySuffix(s);
    case GcSync => SyncSuffix(s);
    case GcStep => DeleteSuffix(s);
    case Crash(_, _) => CrashSuffix(s, action);
  }

  lemma {:induction false} EveryRunIsASuffix(actions: seq<Action>)
    requires Granted(actions)
    ensures After(actions).Some? && Inv(After(actions).value) && SuffixInv(After(actions).value)
  {
    EveryRunIsSafe(actions);
    if actions != [] {
      EveryRunIsASuffix(actions[..|actions| - 1]);
      hide Inv, Step, Enabled, SuffixInv;
      StepSuffix(After(actions[..|actions| - 1]).value, Last(actions));
    }
  }

  /** In every reachable state the engine holds exactly the entries after some index, which lies at or
      below the truncated index of every apply state a crash could leave. */
  lemma EngineKeepsASuffix(actions: seq<Action>) returns (gone: nat)
    requires Granted(actions)
    ensures After(actions).Some?
    ensures var s := After(actions).value;
            && s.raft != [] && s.kv != []
            && Keeps(Last(s.raft), s.full, gone)
            && gone <= s.kv[0].truncIndex <= Last(s.kv).truncIndex
  {
    EveryRunIsASuffix(actions);
    var s := After(actions).value;
    assert s.kv != [] && s.kv[0].truncIndex <= Last(s.kv).truncIndex;
    assert Holds(Last(s.raft), s.full, s.gone) && UpClosed(Last(s.raft), |s.full|) && s.gone <= |s.full|;
    hide After, Granted, Inv, SuffixInv, Holds, UpClosed, Keeps;
    gone := SuffixKeeps(Last(s.raft), s.full, s.gone);
  }

  lemma SuffixKeeps(m: map<nat, Entry>, full: seq<Entry>, gone: nat) returns (g: nat)
    requires Holds(m, full, gone) && UpClosed(m, |full|)
    ensures g <= gone && Keeps(m, full, g)
  {
    if m == map[] {
      g := gone;
    } else {
      g := FirstKey(m) - 1;
      assert FirstKey(m) in m;
      if gone + 1 <= |full| { assert gone + 1 in m; }
    }
  }
}
