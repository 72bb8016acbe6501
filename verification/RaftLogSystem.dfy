/** The raft log of a peer under appends, compaction, delayed garbage collection and crashes. */
module RaftLogSystem {
  import opened WalletTypes
  import opened Callbacks
  import opened RaftLog

  /** `RaftApplyState`: what is applied, compacted, and known committed by the apply thread. */
  datatype ApplyState = ApplyState(applied: nat, truncIndex: nat, truncTerm: nat, commitIndex: nat, commitTerm: nat)

  datatype ApplyRes = ApplyRes(state: ApplyState, compacts: seq<nat>)

  datatype Task = Task(from: nat, to: nat)

  /** `raft` and `kv` list what each engine has held since its last synced write: the last element
      is what is read, any of them may be what a crash leaves.  `last`, `hardCommit`, `hardTerm` are
      the synced raft state.  `full` is the peer's log with its compacted part, `commit` how much of
      it the cluster has committed as far as this peer was told, `gone` the last index deleted. */
  datatype Store = Store(
    raft: seq<map<nat, Entry>>,
    last: nat, hardCommit: nat, hardTerm: nat,
    kv: seq<ApplyState>,
    results: seq<ApplyRes>,
    peer: ApplyState,
    lastCompacted: nat,
    tasks: seq<Task>,
    deleting: seq<Task>,
    full: seq<Entry>, commit: nat, gone: nat)

  function Last<T>(s: seq<T>): T
    requires s != []
  {
    s[|s| - 1]
  }

  const BOOT: ApplyState := ApplyState(INIT_INDEX, INIT_INDEX, INIT_TERM, 0, 0)

  function BootEntries(): seq<Entry> { seq(INIT_INDEX, i requires 0 <= i => Entry(INIT_TERM, i + 1, Empty)) }

  function Bootstrap(): Store {
    Store([map[]], INIT_INDEX, INIT_INDEX, INIT_TERM, [BOOT], [], BOOT, 0, [], [],
          BootEntries(), INIT_INDEX, INIT_INDEX)
  }

  // ---------- applying ----------

  datatype CompactOutcome = Skipped | Failed | Compacted(state: ApplyState)

  /** `exec_compact_log`, on the state before the compaction entry itself is applied. */
  function ExecCompact(a: ApplyState, index: nat, term: nat): CompactOutcome {
    if index <= a.truncIndex + 1 then Skipped
    else if term == 0 then Failed
    else if index <= a.truncIndex || a.applied < index then Failed
    else Compacted(a.(truncIndex := index, truncTerm := term))
  }

  function ApplyEntry(r: ApplyRes, e: Entry): ApplyRes {
    var r' :=
      if !e.payload.Compact? then r
      else
        match ExecCompact(r.state, e.payload.compactIndex, e.payload.compactTerm)
        case Compacted(a) => ApplyRes(a, r.compacts + [a.truncIndex])
        case _ => r;
    r'.(state := r'.state.(applied := e.index))
  }

  function ApplyAll(a: ApplyState, entries: seq<Entry>): ApplyRes {
    if entries == [] then ApplyRes(a, [])
    else ApplyEntry(ApplyAll(a, entries[..|entries| - 1]), entries[|entries| - 1])
  }

  // ---------- steps ----------

  datatype Action =
    | Append(entries: seq<Entry>, hardCommit: nat, hardTerm: nat)
    | Commit(index: nat)
    | Apply(index: nat)
    | Notify
    | GcSync
    | GcStep
    | Crash(kvVersion: nat, raftVersion: nat)

  /** A compaction entry names an earlier index and its term: what the leader proposes, and log
      matching keeps. */
  ghost predicate CompactsOk(full: seq<Entry>) {
    forall i | 0 <= i < |full| && full[i].payload.Compact? ::
      && 1 <= full[i].payload.compactIndex <= i
      && full[i].payload.compactTerm == full[full[i].payload.compactIndex - 1].term
  }

  function AfterAppend(full: seq<Entry>, entries: seq<Entry>): seq<Entry> {
    if entries == [] || entries[0].index == 0 || |full| + 1 < entries[0].index then full
    else full[..entries[0].index - 1] + entries
  }

  /** What raft grants: committed entries are not overwritten, nothing is committed before it is
      stored, and the hard state only grows. */
  ghost predicate Enabled(s: Store, action: Action) {
    match action
    case Append(entries, hardCommit, hardTerm) =>
      var full := AfterAppend(s.full, entries);
      && (entries != [] ==> s.commit < entries[0].index <= |s.full| + 1 && Consecutive(entries, entries[0].index))
      && LogOk(full) && CompactsOk(full) && full != [] && Last(full).term <= hardTerm
      && s.hardCommit <= hardCommit <= s.commit && s.hardTerm <= hardTerm
    case Commit(index) => s.commit <= index <= s.last
    case Apply(index) => s.kv != [] && Last(s.kv).applied < index <= s.commit
    case Notify => s.results != []
    case GcSync => s.deleting == []
    case GcStep => s.deleting != []
    case Crash(v, w) => v < |s.kv| && w < |s.raft|
  }

  /** The delete tasks `on_ready_compact_log` schedules for the compactions of one apply result. */
  function Schedule(tasks: seq<Task>, lastCompacted: nat, compacts: seq<nat>): (seq<Task>, nat)
    decreases |compacts|
  {
    if compacts == [] then (tasks, lastCompacted)
    else Schedule(tasks + [Task(lastCompacted, compacts[0] + 1)], compacts[0] + 1, compacts[1..])
  }

  ghost function FirstKey(m: map<nat, Entry>): (k: nat)
    requires m != map[]
    ensures IsFirstKey(m, k)
  {
    FirstKeyExists(m, m.Keys);
    var k: nat :| IsFirstKey(m, k); k
  }

  lemma {:induction false} FirstKeyExists(m: map<nat, Entry>, keys: set<nat>)
    requires m != map[] && m.Keys == keys
    ensures exists k: nat :: IsFirstKey(m, k)
    decreases keys
  {
    assert keys != {};
    var k: nat :| k in keys;
    var rest := m - {k};
    if rest == map[] {
      forall i <- m ensures k <= i { assert i != k ==> i in rest; }
      assert IsFirstKey(m, k);
    } else {
      FirstKeyExists(rest, rest.Keys);
      var j: nat :| IsFirstKey(rest, j);
      var best := if j < k then j else k;
      forall i <- m ensures best <= i { assert i != k ==> i in rest; }
      assert IsFirstKey(m, best);
    }
  }

  /** One engine-level step of the collector's current task; `None` where `to - from` underflows. */
  ghost function Delete(s: Store): Option<Store>
    requires s.deleting != [] && s.raft != []
  {
    var t, rest, m := s.deleting[0], s.deleting[1..], Last(s.raft);
    if t.from >= t.to then Some(s.(deleting := rest))
    else if t.from == 0 then
      if m == map[] then Some(s.(deleting := rest))
      else if t.to < FirstKey(m) then None
      else Some(s.(deleting := [Task(FirstKey(m), t.to)] + rest))
    else
      Some(s.(raft := s.raft + [m - {t.from}], deleting := [Task(t.from + 1, t.to)] + rest,
              gone := if s.gone < t.from then t.from else s.gone))
  }

  /** The checks a restarting peer makes of what the crash left. */
  predicate Restartable(a: ApplyState, m: map<nat, Entry>, last: nat, hardCommit: nat, hardTerm: nat) {
    var recorded := a.commitIndex;
    var commit := if hardCommit < recorded then recorded else hardCommit;
    && (hardCommit < recorded ==> recorded in m && m[recorded].term == a.commitTerm)
    && a.applied <= commit <= last
    && a.commitTerm <= hardTerm
    && (last == 0 || last == INIT_INDEX || last == a.truncIndex || (INIT_INDEX < last && last in m))
    && (a.applied == INIT_INDEX || a.applied == a.truncIndex || a.applied in m)
  }

  /** A peer that restarts has its applied entry, its last entry and every entry it takes for
      committed inside the log, and terms that do not go back. */
  lemma RestartIsCoherent(a: ApplyState, m: map<nat, Entry>, last: nat, hardCommit: nat, hardTerm: nat)
    requires Restartable(a, m, last, hardCommit, hardTerm)
    ensures a.applied <= last && hardCommit <= last && a.commitIndex <= last && a.commitTerm <= hardTerm
    ensures a.applied != INIT_INDEX && a.applied != a.truncIndex ==> a.applied in m
    ensures last != 0 && last != a.truncIndex && last != INIT_INDEX ==> last in m
    ensures hardCommit < a.commitIndex ==> a.commitIndex in m && m[a.commitIndex].term == a.commitTerm
    ensures a.applied <= hardCommit || a.applied <= a.commitIndex
  {
  }

  /** A synced write of the new entries and the raft state. */
  function AppendStep(s: Store, entries: seq<Entry>, hardCommit: nat, hardTerm: nat): Store
    requires s.raft != []
  {
    var m := Last(s.raft);
    var s' := s.(hardCommit := hardCommit, hardTerm := hardTerm, full := AfterAppend(s.full, entries));
    if entries == [] then s'.(raft := [m])
    else
      var last := Last(entries).index;
      s'.(raft := [Cut(Put(m, entries), last + 1, s.last + 1)], last := last)
  }

  /** One apply task and the write of the state it leads to. */
  function ApplyStep(s: Store, index: nat): Option<Store>
    requires s.kv != []
  {
    var a := Last(s.kv);
    if !(a.applied < index <= |s.full|) || a.commitIndex > index || a.commitTerm > s.full[index - 1].term then None
    else
      var r := ApplyAll(a.(commitIndex := index, commitTerm := s.full[index - 1].term), s.full[a.applied..index]);
      Some(s.(kv := s.kv + [r.state], results := s.results + [r]))
  }

  /** `None` is a panic of the program. */
  ghost function Step(s: Store, action: Action): Option<Store>
    requires s.raft != [] && s.kv != []
  {
    match action
    case Append(entries, hardCommit, hardTerm) => Some(AppendStep(s, entries, hardCommit, hardTerm))
    case Commit(index) => Some(s.(commit := index))
    case Apply(index) => ApplyStep(s, index)
    case Notify =>
      if s.results == [] then None
      else
        var (tasks, lastCompacted) := Schedule(s.tasks, s.lastCompacted, s.results[0].compacts);
        Some(s.(tasks := tasks, lastCompacted := lastCompacted, peer := s.results[0].state, results := s.results[1..]))
    case GcSync => Some(s.(kv := [Last(s.kv)], deleting := s.deleting + s.tasks, tasks := []))
    case GcStep => if s.deleting == [] then None else Delete(s)
    case Crash(v, w) =>
      if !(v < |s.kv| && w < |s.raft|) || !Restartable(s.kv[v], s.raft[w], s.last, s.hardCommit, s.hardTerm) then None
      else
        Some(s.(raft := [s.raft[w]], kv := [s.kv[v]], results := [], peer := s.kv[v], lastCompacted := 0,
                tasks := [], deleting := []))
  }

  // ---------- the invariant ----------

  ghost predicate StateOk(a: ApplyState, full: seq<Entry>, commit: nat)
    requires commit <= |full|
  {
    && INIT_INDEX <= a.truncIndex <= a.applied <= commit
    && (a.truncIndex < a.applied || a.truncIndex == INIT_INDEX)
    && a.truncTerm == full[a.truncIndex - 1].term
    && (if a.commitIndex == 0 then a.applied == INIT_INDEX && a.commitTerm == 0
        else a.commitIndex == a.applied && a.commitTerm == full[a.applied - 1].term)
  }

  /** Compactions from one truncated index to another, strictly growing. */
  ghost predicate Growing(from: nat, compacts: seq<nat>, to: nat)
    decreases |compacts|
  {
    if compacts == [] then from == to else from < compacts[0] && Growing(compacts[0], compacts[1..], to)
  }

  /** The apply results in flight lead from the peer's copy of the state to the stored one. */
  ghost predicate ResultsOk(results: seq<ApplyRes>, a: ApplyState, b: ApplyState, full: seq<Entry>, commit: nat)
    requires commit <= |full|
  {
    if results == [] then a == b
    else
      && StateOk(results[0].state, full, commit)
      && Growing(a.truncIndex, results[0].compacts, results[0].state.truncIndex)
      && ResultsOk(results[1..], results[0].state, b, full, commit)
  }

  ghost predicate KvOk(kv: seq<ApplyState>, full: seq<Entry>, commit: nat)
    requires commit <= |full|
  {
    && kv != []
    && (forall v | 0 <= v < |kv| :: StateOk(kv[v], full, commit))
    && (forall v, w | 0 <= v <= w < |kv| :: kv[v].truncIndex <= kv[w].truncIndex)
  }

  /** Delete tasks end after everything deleted so far and by `hi`, in growing order. */
  ghost predicate TasksOk(q: seq<Task>, gone: nat, hi: nat) {
    && (forall i | 0 <= i < |q| :: q[i].from <= q[i].to && gone < q[i].to <= hi)
    && (forall i, j | 0 <= i <= j < |q| :: q[i].to <= q[j].to)
  }

  ghost predicate RaftOk(raft: seq<map<nat, Entry>>, full: seq<Entry>, gone: nat) {
    raft != [] && forall w | 0 <= w < |raft| :: Holds(raft[w], full, gone)
  }

  ghost predicate LogsOk(s: Store) {
    && LogOk(s.full) && CompactsOk(s.full) && INIT_INDEX <= s.commit <= |s.full| == s.last
    && INIT_INDEX <= s.hardCommit <= s.commit && Last(s.full).term <= s.hardTerm
  }

  ghost predicate GcOk(s: Store)
    requires s.kv != []
  {
    && s.gone <= s.kv[0].truncIndex && s.gone <= s.peer.truncIndex
    && s.lastCompacted <= s.peer.truncIndex + 1
    && TasksOk(s.deleting + s.tasks, s.gone, s.lastCompacted)
    && forall i | 0 <= i < |s.deleting| :: s.deleting[i].to <= s.kv[0].truncIndex + 1
  }

  ghost predicate Inv(s: Store) {
    && LogsOk(s)
    && KvOk(s.kv, s.full, s.commit)
    && RaftOk(s.raft, s.full, s.gone)
    && StateOk(s.peer, s.full, s.commit)
    && ResultsOk(s.results, s.peer, Last(s.kv), s.full, s.commit)
    && GcOk(s)
  }

  lemma BootstrapInv()
    ensures Inv(Bootstrap())
  {
  }

  // ---------- append ----------

  lemma StateSurvives(a: ApplyState, full: seq<Entry>, full': seq<Entry>, commit: nat, commit': nat)
    requires commit <= |full| && commit <= commit' <= |full'| && full[..commit] == full'[..commit]
    requires StateOk(a, full, commit)
    ensures StateOk(a, full', commit')
  {
    assert full[..commit][a.truncIndex - 1] == full'[..commit][a.truncIndex - 1];
    assert full[..commit][a.applied - 1] == full'[..commit][a.applied - 1];
  }

  lemma {:induction false} ResultsSurvive(results: seq<ApplyRes>, a: ApplyState, b: ApplyState,
                                          full: seq<Entry>, full': seq<Entry>, commit: nat, commit': nat)
    requires commit <= |full| && commit <= commit' <= |full'| && full[..commit] == full'[..commit]
    requires ResultsOk(results, a, b, full, commit)
    ensures ResultsOk(results, a, b, full', commit')
    decreases |results|
  {
    hide StateOk, Growing;
    if results != [] {
      StateSurvives(results[0].state, full, full', commit, commit');
      ResultsSurvive(results[1..], results[0].state, b, full, full', commit, commit');
    }
  }

  lemma KvSurvives(kv: seq<ApplyState>, full: seq<Entry>, full': seq<Entry>, commit: nat, commit': nat)
    requires commit <= |full| && commit <= commit' <= |full'| && full[..commit] == full'[..commit]
    requires KvOk(kv, full, commit)
    ensures KvOk(kv, full', commit')
  {
    hide StateOk;
    forall v | 0 <= v < |kv| ensures StateOk(kv[v], full', commit') {
      StateSurvives(kv[v], full, full', commit, commit');
    }
  }

  lemma AppendFacts(s: Store, entries: seq<Entry>)
    requires s.commit <= |s.full| && s.kv != [] && StateOk(s.kv[0], s.full, s.commit) && s.gone <= s.kv[0].truncIndex
    requires entries != [] ==> s.commit < entries[0].index <= |s.full| + 1
    ensures s.gone <= s.commit <= |AfterAppend(s.full, entries)|
    ensures s.full[..s.commit] == AfterAppend(s.full, entries)[..s.commit]
  {
  }

  lemma AppendKeepsLogs(s: Store, action: Action)
    requires LogsOk(s) && RaftOk(s.raft, s.full, s.gone) && s.gone <= s.commit && action.Append? && Enabled(s, action)
    ensures var s' := AppendStep(s, action.entries, action.hardCommit, action.hardTerm);
            LogsOk(s') && RaftOk(s'.raft, s'.full, s'.gone)
  {
    hide Holds, LogOk, CompactsOk, Put, Cut, Consecutive;
    AppendHolds(s, action.entries);
  }

  lemma AppendKeepsInv(s: Store, action: Action)
    requires Inv(s) && action.Append? && Enabled(s, action)
    ensures Inv(AppendStep(s, action.entries, action.hardCommit, action.hardTerm))
  {
    hide StateOk, ResultsOk, KvOk, RaftOk, LogsOk, GcOk, AfterAppend;
    var full' := AfterAppend(s.full, action.entries);
    AppendInside(s, action);
    AppendKeepsLogs(s, action);
    RaftNonempty(s);
    KvNonempty(s.kv, s.full, s.commit);
    KvSurvives(s.kv, s.full, full', s.commit, s.commit);
    StateSurvives(s.peer, s.full, full', s.commit, s.commit);
    ResultsSurvive(s.results, s.peer, Last(s.kv), s.full, full', s.commit, s.commit);
    var s' := AppendStep(s, action.entries, action.hardCommit, action.hardTerm);
    AppendIsAppend(s, action);
    SameGc(s, s');
  }

  lemma RaftNonempty(s: Store)
    requires RaftOk(s.raft, s.full, s.gone)
    ensures s.raft != []
  {
  }

  /** An append keeps what is committed. */
  lemma AppendInside(s: Store, action: Action)
    requires Inv(s) && action.Append? && Enabled(s, action)
    ensures s.gone <= s.commit <= |s.full| && s.commit <= |AfterAppend(s.full, action.entries)|
    ensures s.full[..s.commit] == AfterAppend(s.full, action.entries)[..s.commit]
  {
    hide ResultsOk, TasksOk, RaftOk, LogOk, CompactsOk, Consecutive, AfterAppend;
    assert s.kv != [] && StateOk(s.kv[0], s.full, s.commit);
    AppendFacts(s, action.entries);
  }

  /** The fields an append leaves alone. */
  lemma AppendIsAppend(s: Store, action: Action)
    requires s.raft != [] && action.Append?
    ensures var s' := AppendStep(s, action.entries, action.hardCommit, action.hardTerm);
            && s'.kv == s.kv && s'.peer == s.peer && s'.results == s.results && s'.lastCompacted == s.lastCompacted
            && s'.tasks == s.tasks && s'.deleting == s.deleting && s'.commit == s.commit && s'.gone == s.gone
            && s'.full == AfterAppend(s.full, action.entries)
  {
    hide AfterAppend, Put, Cut;
  }

  lemma SameGc(s: Store, s': Store)
    requires s.kv != [] && GcOk(s)
    requires s'.kv == s.kv && s'.peer == s.peer && s'.lastCompacted == s.lastCompacted
    requires s'.tasks == s.tasks && s'.deleting == s.deleting && s'.gone == s.gone
    ensures GcOk(s')
  {
  }

  lemma KvNonempty(kv: seq<ApplyState>, full: seq<Entry>, commit: nat)
    requires commit <= |full| && KvOk(kv, full, commit)
    ensures kv != [] && StateOk(Last(kv), full, commit)
  {
  }

  lemma AppendHolds(s: Store, entries: seq<Entry>)
    requires RaftOk(s.raft, s.full, s.gone) && s.last == |s.full|
    requires entries != [] ==> s.gone < entries[0].index <= |s.full| + 1 && Consecutive(entries, entries[0].index)
    ensures entries == [] ==> Holds(Last(s.raft), s.full, s.gone)
    ensures entries != [] ==>
      && Last(entries).index == |AfterAppend(s.full, entries)|
      && Holds(Cut(Put(Last(s.raft), entries), Last(entries).index + 1, s.last + 1),
               AfterAppend(s.full, entries), s.gone)
  {
    if entries != [] {
      AppendReplacesTail(Last(s.raft), s.full, s.gone, entries, entries[0].index);
    }
  }

  lemma CommitKeepsInv(s: Store, action: Action)
    requires Inv(s) && action.Commit? && Enabled(s, action)
    ensures Inv(Step(s, action).value)
  {
    assert s.kv != [];
    hide StateOk, ResultsOk, KvOk, TasksOk, Holds, LogOk, CompactsOk, Growing;
    KvSurvives(s.kv, s.full, s.full, s.commit, action.index);
    StateSurvives(s.peer, s.full, s.full, s.commit, action.index);
    ResultsSurvive(s.results, s.peer, Last(s.kv), s.full, s.full, s.commit, action.index);
  }

  // ---------- apply ----------

  lemma {:induction false} GrowingSnoc(from: nat, compacts: seq<nat>, to: nat, c: nat)
    requires Growing(from, compacts, to) && to < c
    ensures Growing(from, compacts + [c], c)
    decreases |compacts|
  {
    if compacts != [] {
      GrowingSnoc(compacts[0], compacts[1..], to, c);
      assert (compacts + [c])[1..] == compacts[1..] + [c];
    } else {
      assert ([] + [c])[1..] == [];
    }
  }

  lemma {:induction false} GrowingGrows(from: nat, compacts: seq<nat>, to: nat)
    requires Growing(from, compacts, to)
    ensures from <= to
    decreases |compacts|
  {
    if compacts != [] { GrowingGrows(compacts[0], compacts[1..], to); }
  }

  /** What applying the entries up to `index` maintains. */
  ghost predicate Applied(a: ApplyState, r: ApplyRes, full: seq<Entry>, index: nat)
    requires index <= |full|
  {
    && r.state.applied == index && r.state.commitIndex == a.commitIndex && r.state.commitTerm == a.commitTerm
    && INIT_INDEX <= r.state.truncIndex <= index && (r.state.truncIndex < index || r.state.truncIndex == INIT_INDEX)
    && r.state.truncTerm == full[r.state.truncIndex - 1].term
    && Growing(a.truncIndex, r.compacts, r.state.truncIndex)
  }

  /** A compaction is taken exactly if it reaches more than one entry further, no further than what is
      applied, and names a term; then it moves the truncated state and nothing else. */
  lemma CompactExactly(a: ApplyState, index: nat, term: nat)
    ensures ExecCompact(a, index, term).Skipped? <==> index <= a.truncIndex + 1
    ensures ExecCompact(a, index, term).Compacted? <==> a.truncIndex + 1 < index <= a.applied && 0 < term
    ensures ExecCompact(a, index, term).Compacted? ==>
              ExecCompact(a, index, term).state
              == ApplyState(a.applied, index, term, a.commitIndex, a.commitTerm)
  {
  }

  /** A compaction entry in the log is never refused. */
  lemma CompactNeverFails(r: ApplyRes, full: seq<Entry>, index: nat)
    requires LogOk(full) && CompactsOk(full) && index < |full| && full[index].payload.Compact?
    requires r.state.applied == index
    ensures !ExecCompact(r.state, full[index].payload.compactIndex, full[index].payload.compactTerm).Failed?
  {
    assert 0 < full[full[index].payload.compactIndex - 1].term;
  }

  lemma ApplyOne(a: ApplyState, r: ApplyRes, full: seq<Entry>, index: nat)
    requires LogOk(full) && CompactsOk(full) && index < |full| && Applied(a, r, full, index)
    ensures Applied(a, ApplyEntry(r, full[index]), full, index + 1)
  {
    var e := full[index];
    assert e.index == index + 1;
    if e.payload.Compact? {
      CompactNeverFails(r, full, index);
      if r.state.truncIndex < e.payload.compactIndex {
        GrowingSnoc(a.truncIndex, r.compacts, r.state.truncIndex, e.payload.compactIndex);
      }
    }
  }

  lemma {:induction false} ApplyRange(a: ApplyState, full: seq<Entry>, index: nat)
    requires LogOk(full) && CompactsOk(full) && a.applied <= index <= |full|
    requires INIT_INDEX <= a.truncIndex <= a.applied && (a.truncIndex < a.applied || a.truncIndex == INIT_INDEX)
    requires a.truncTerm == full[a.truncIndex - 1].term
    ensures Applied(a, ApplyAll(a, full[a.applied..index]), full, index)
    decreases index
  {
    hide LogOk, CompactsOk;
    if a.applied < index {
      hide Applied, ApplyEntry;
      ApplyRange(a, full, index - 1);
      assert full[a.applied..index][..index - 1 - a.applied] == full[a.applied..index - 1];
      ApplyOne(a, ApplyAll(a, full[a.applied..index - 1]), full, index - 1);
    }
  }

  lemma {:induction false} ResultsSnoc(results: seq<ApplyRes>, a: ApplyState, b: ApplyState, r: ApplyRes,
                                       full: seq<Entry>, commit: nat)
    requires commit <= |full| && ResultsOk(results, a, b, full, commit)
    requires StateOk(r.state, full, commit) && Growing(b.truncIndex, r.compacts, r.state.truncIndex)
    ensures ResultsOk(results + [r], a, r.state, full, commit)
    decreases |results|
  {
    hide StateOk, Growing;
    if results == [] {
      assert ([] + [r])[1..] == [];
    } else {
      ResultsSnoc(results[1..], results[0].state, b, r, full, commit);
      assert (results + [r])[1..] == results[1..] + [r];
    }
  }

  lemma KvSnoc(kv: seq<ApplyState>, a: ApplyState, full: seq<Entry>, commit: nat)
    requires commit <= |full| && KvOk(kv, full, commit) && StateOk(a, full, commit)
    requires Last(kv).truncIndex <= a.truncIndex
    ensures KvOk(kv + [a], full, commit)
  {
    hide StateOk;
  }

  /** Applying up to a committed index gives a well-formed state, further compacted or not. */
  lemma ApplyResultOk(a: ApplyState, full: seq<Entry>, commit: nat, index: nat)
    requires commit <= |full| && LogOk(full) && CompactsOk(full) && StateOk(a, full, commit)
    requires a.applied < index <= commit
    ensures var term := full[index - 1].term;
            var r := ApplyAll(a.(commitIndex := index, commitTerm := term), full[a.applied..index]);
            && a.commitIndex <= index && a.commitTerm <= term
            && StateOk(r.state, full, commit)
            && Growing(a.truncIndex, r.compacts, r.state.truncIndex) && a.truncIndex <= r.state.truncIndex
  {
    hide CompactsOk, ApplyAll;
    var term := full[index - 1].term;
    assert full[a.applied - 1].term <= term;
    var a' := a.(commitIndex := index, commitTerm := term);
    ApplyRange(a', full, index);
    var r := ApplyAll(a', full[a.applied..index]);
    GrowingGrows(a.truncIndex, r.compacts, r.state.truncIndex);
  }

  lemma ApplyKeepsInv(s: Store, index: nat)
    requires Inv(s) && Last(s.kv).applied < index <= s.commit
    ensures ApplyStep(s, index).Some? && Inv(ApplyStep(s, index).value)
  {
    hide StateOk, ResultsOk, TasksOk, RaftOk, KvOk, LogOk, CompactsOk, Growing, ApplyAll;
    KvNonempty(s.kv, s.full, s.commit);
    var a := Last(s.kv);
    ApplyResultOk(a, s.full, s.commit, index);
    var r := ApplyAll(a.(commitIndex := index, commitTerm := s.full[index - 1].term), s.full[a.applied..index]);
    KvSnoc(s.kv, r.state, s.full, s.commit);
    ResultsSnoc(s.results, s.peer, a, r, s.full, s.commit);
  }

  // ---------- notify and collect ----------

  lemma {:induction false} ScheduleOk(deleting: seq<Task>, tasks: seq<Task>, gone: nat, lastCompacted: nat,
                                      compacts: seq<nat>, from: nat, to: nat)
    requires TasksOk(deleting + tasks, gone, lastCompacted) && gone <= from && lastCompacted <= from + 1
    requires Growing(from, compacts, to)
    ensures var (tasks', hi) := Schedule(tasks, lastCompacted, compacts);
            TasksOk(deleting + tasks', gone, hi) && hi <= to + 1
    decreases |compacts|
  {
    if compacts != [] {
      var c := compacts[0];
      assert deleting + (tasks + [Task(lastCompacted, c + 1)]) == deleting + tasks + [Task(lastCompacted, c + 1)];
      ScheduleOk(deleting, tasks + [Task(lastCompacted, c + 1)], gone, c + 1, compacts[1..], c, to);
    }
  }

  lemma NotifyKeepsInv(s: Store)
    requires Inv(s) && s.results != []
    ensures Inv(Step(s, Notify).value)
  {
    hide StateOk, KvOk, TasksOk, Holds, LogOk, CompactsOk, Growing, Schedule;
    var r := s.results[0];
    ScheduleOk(s.deleting, s.tasks, s.gone, s.lastCompacted, r.compacts, s.peer.truncIndex, r.state.truncIndex);
    GrowingGrows(s.peer.truncIndex, r.compacts, r.state.truncIndex);
  }

  lemma {:induction false} ResultsGrow(results: seq<ApplyRes>, a: ApplyState, b: ApplyState, full: seq<Entry>,
                                       commit: nat)
    requires commit <= |full| && ResultsOk(results, a, b, full, commit)
    ensures a.truncIndex <= b.truncIndex
    decreases |results|
  {
    if results != [] {
      GrowingGrows(a.truncIndex, results[0].compacts, results[0].state.truncIndex);
      ResultsGrow(results[1..], results[0].state, b, full, commit);
    }
  }

  lemma SyncKeepsInv(s: Store)
    requires Inv(s) && s.deleting == []
    ensures Inv(Step(s, GcSync).value)
  {
    hide ResultsOk, Holds, LogOk, CompactsOk, StateOk;
    ResultsGrow(s.results, s.peer, Last(s.kv), s.full, s.commit);
    assert s.deleting + s.tasks + [] == s.deleting + s.tasks;
    forall i | 0 <= i < |s.tasks| ensures s.tasks[i].to <= s.lastCompacted {
      assert (s.deleting + s.tasks)[i] == s.tasks[i];
    }
  }

  lemma HoldsLess(m: map<nat, Entry>, full: seq<Entry>, gone: nat, k: nat)
    requires Holds(m, full, gone)
    ensures Holds(m - {k}, full, if gone < k then k else gone)
    ensures Holds(m, full, if gone < k then k else gone)
  {
  }

  /** The first stored entry is not past the end of a delete task, so the count never underflows. */
  lemma SeekIsInRange(s: Store)
    requires Inv(s) && s.deleting != [] && Last(s.raft) != map[]
    ensures 1 <= FirstKey(Last(s.raft)) <= s.deleting[0].to
  {
    var m, t := Last(s.raft), s.deleting[0];
    assert (s.deleting + s.tasks)[0] == t;
    assert Holds(m, s.full, s.gone);
    assert s.gone < t.to <= s.peer.truncIndex + 1;
    var k := FirstKey(m);
    assert k in m;
    if s.gone + 1 <= |s.full| { assert s.gone + 1 in m; }
  }

  lemma HeadReplaced(q: seq<Task>, rest: seq<Task>, t: Task, gone: nat, gone': nat, hi: nat)
    requires TasksOk(q, gone, hi) && q != [] && rest == q[1..]
    requires t.to == q[0].to && t.from <= t.to && gone <= gone' < t.to
    ensures TasksOk([t] + rest, gone', hi)
  {
    var q' := [t] + rest;
    forall i, j | 0 <= i <= j < |q'| ensures q'[i].to <= q'[j].to {
      assert q[i].to <= q[j].to;
    }
  }

  lemma HeadInside(q: seq<Task>, gone: nat, hi: nat)
    requires TasksOk(q, gone, hi) && q != []
    ensures q[0].from <= q[0].to && gone < q[0].to <= hi
  {
  }

  lemma HeadDropped(q: seq<Task>, gone: nat, hi: nat)
    requires TasksOk(q, gone, hi) && q != []
    ensures TasksOk(q[1..], gone, hi)
  {
  }

  lemma DeleteKeepsInv(s: Store)
    requires Inv(s) && s.deleting != []
    ensures Delete(s).Some? && Inv(Delete(s).value)
  {
    hide ResultsOk, KvOk, LogOk, CompactsOk, StateOk, TasksOk;
    var t, rest, m := s.deleting[0], s.deleting[1..], Last(s.raft);
    var q := s.deleting + s.tasks;
    assert q[0] == t && q[1..] == rest + s.tasks;
    HeadInside(q, s.gone, s.lastCompacted);
    if t.from >= t.to {
      HeadDropped(q, s.gone, s.lastCompacted);
    } else if t.from == 0 {
      if m == map[] {
        HeadDropped(q, s.gone, s.lastCompacted);
      } else {
        SeekIsInRange(s);
        var t' := Task(FirstKey(m), t.to);
        HeadReplaced(q, q[1..], t', s.gone, s.gone, s.lastCompacted);
        assert [t'] + rest + s.tasks == [t'] + (rest + s.tasks);
      }
    } else {
      hide Holds;
      var gone' := if s.gone < t.from then t.from else s.gone;
      forall w | 0 <= w < |s.raft| ensures Holds(s.raft[w], s.full, gone') {
        HoldsLess(s.raft[w], s.full, s.gone, t.from);
      }
      HoldsLess(m, s.full, s.gone, t.from);
      var t' := Task(t.from + 1, t.to);
      HeadReplaced(q, q[1..], t', s.gone, gone', s.lastCompacted);
      assert [t'] + rest + s.tasks == [t'] + (rest + s.tasks);
    }
  }

  // ---------- crash ----------

  /** Whatever version of either engine a crash leaves, the restart checks pass. */
  lemma AnyVersionRestarts(s: Store, v: nat, w: nat)
    requires Inv(s) && v < |s.kv| && w < |s.raft|
    ensures Restartable(s.kv[v], s.raft[w], s.last, s.hardCommit, s.hardTerm)
  {
    hide ResultsOk, TasksOk, CompactsOk, Growing;
    var a, m := s.kv[v], s.raft[w];
    assert StateOk(a, s.full, s.commit) && Holds(m, s.full, s.gone);
    assert s.gone <= a.truncIndex;
    assert s.full[a.applied - 1].term <= Last(s.full).term;
    assert 0 < s.full[a.applied - 1].term;
  }

  lemma CrashKeepsInv(s: Store, action: Action)
    requires Inv(s) && action.Crash? && Enabled(s, action)
    ensures Step(s, action).Some? && Inv(Step(s, action).value)
  {
    hide LogOk, CompactsOk, StateOk, Holds, Restartable, TasksOk, Growing;
    AnyVersionRestarts(s, action.kvVersion, action.raftVersion);
    NoTasks(s.gone);
  }

  lemma NoTasks(gone: nat)
    ensures TasksOk([] + [], gone, 0)
  {
  }

  // ---------- every run ----------

  lemma StepKeepsInv(s: Store, action: Action)
    requires Inv(s) && Enabled(s, action)
    ensures Step(s, action).Some? && Inv(Step(s, action).value)
  {
    match action
    case Append(_, _, _) => hide Inv, Enabled; AppendKeepsInv(s, action);
    case Commit(_) => hide Inv, Enabled; CommitKeepsInv(s, action);
    case Apply(index) => hide Inv; ApplyKeepsInv(s, index);
    case Notify => NotifyKeepsInv(s);
    case GcSync => SyncKeepsInv(s);
    case GcStep => DeleteKeepsInv(s);
    case Crash(_, _) => hide Inv, Enabled; CrashKeepsInv(s, action);
  }

  /** The state after a run; `None` when an action was not granted or the program panicked. */
  ghost function After(actions: seq<Action>): Option<Store> {
    if actions == [] then Some(Bootstrap())
    else
      var before := After(actions[..|actions| - 1]);
      if before.Some? && before.value.raft != [] && before.value.kv != [] && Enabled(before.value, Last(actions))
      then Step(before.value, Last(actions)) else None
  }

  ghost predicate Granted(actions: seq<Action>) {
    actions != [] ==>
      && Granted(actions[..|actions| - 1])
      && var before := After(actions[..|actions| - 1]);
         before.Some? ==> Enabled(before.value, Last(actions))
  }

  /** Every run raft grants goes through without a panic, and keeps the invariant. */
  lemma {:induction false} EveryRunIsSafe(actions: seq<Action>)
    requires Granted(actions)
    ensures After(actions).Some? && Inv(After(actions).value)
  {
    if actions == [] {
      BootstrapInv();
    } else {
      EveryRunIsSafe(actions[..|actions| - 1]);
      var s := After(actions[..|actions| - 1]).value;
      assert s.raft != [] && s.kv != [];
      hide Inv, Step, Enabled;
      StepKeepsInv(s, Last(actions));
    }
  }

  /** In every reachable state, every entry after the truncated index can be read and is the one
      last appended there: for the peer, for the stored state, and for any pair of engine versions
      a crash could leave.  Nothing beyond the last index is stored. */
  lemma LogIsReadable(actions: seq<Action>, i: nat, v: nat, w: nat)
    requires Granted(actions) && After(actions).Some?
    requires v < |After(actions).value.kv| && w < |After(actions).value.raft|
    ensures var s := After(actions).value;
            && s.last == |s.full|
            && (s.peer.truncIndex < i <= s.last ==> i in Last(s.raft) && Last(s.raft)[i] == s.full[i - 1])
            && (s.kv[v].truncIndex < i <= s.last ==> i in s.raft[w] && s.raft[w][i] == s.full[i - 1])
            && (s.last < i ==> i !in s.raft[w])
            && s.kv[v].truncIndex <= s.kv[v].applied <= s.last
  {
    EveryRunIsSafe(actions);
    var s := After(actions).value;
    assert Holds(s.raft[w], s.full, s.gone) && Holds(Last(s.raft), s.full, s.gone);
    assert StateOk(s.kv[v], s.full, s.commit) && s.kv[0].truncIndex <= s.kv[v].truncIndex;
  }

  // ---------- proposing a compaction ----------

  /** The index the leader compacts to: at most what every follower is known to have, and short
      enough that the compaction entry itself comes after it. */
  method OnRaftGcLogTick(storage: PeerStorage, matched: seq<nat>, limit: nat, ghost full: seq<Entry>)
      returns (r: Option<Payload>)
    requires storage.Stores(full)
    ensures r.Some? <==> storage.truncatedIndex + 1 + limit <= storage.lastIndex
                         && forall i | 0 <= i < |matched| :: storage.truncatedIndex + 1 + limit <= matched[i]
    ensures r.Some? ==>
      && r.value.Compact? && storage.truncatedIndex < r.value.compactIndex <= storage.lastIndex
      && r.value.compactIndex == storage.truncatedIndex + 1 + limit / 10
      && (forall i | 0 <= i < |matched| :: r.value.compactIndex <= matched[i])
      && r.value.compactTerm == full[r.value.compactIndex - 1].term
  {
    var replicated := storage.lastIndex;
    var i := 0;
    while i < |matched|
      invariant 0 <= i <= |matched| && replicated <= storage.lastIndex
      invariant forall k | 0 <= k < i :: replicated <= matched[k]
      invariant replicated == storage.lastIndex || exists k | 0 <= k < i :: replicated == matched[k]
    {
      if replicated > matched[i] { replicated := matched[i]; }
      i := i + 1;
    }
    var first := storage.truncatedIndex + 1;
    if replicated < first { return None; }
    if replicated - first < limit { return None; }
    var index := first + limit / 10;
    var term := storage.Term(index, full);
    return Some(Compact(index, term.value));
  }

  /** A compaction so proposed is one every later log may carry. */
  lemma ProposedCompactionIsOk(full: seq<Entry>, term: nat, p: Payload)
    requires CompactsOk(full) && p.Compact? && 1 <= p.compactIndex <= |full|
    requires p.compactTerm == full[p.compactIndex - 1].term
    ensures CompactsOk(full + [Entry(term, |full| + 1, p)])
  {
    var full' := full + [Entry(term, |full| + 1, p)];
    forall i | 0 <= i < |full'| && full'[i].payload.Compact?
      ensures 1 <= full'[i].payload.compactIndex <= i
      ensures full'[i].payload.compactTerm == full'[full'[i].payload.compactIndex - 1].term
    {
      if i < |full| { assert full'[i] == full[i]; }
    }
  }

  // ---------- the collector ----------

  const MAX_GC_REGION_BATCH: nat := 128

  class KvEngine {
    var versions: seq<ApplyState>

    method Sync()
      requires versions != []
      modifies this
      ensures versions == [Last(old(versions))]
    {
      versions := [versions[|versions| - 1]];
    }
  }

  class Runner {
    const engine: RaftEngine
    const kv: KvEngine
    var tasks: seq<Task>

    constructor (e: RaftEngine, k: KvEngine)
      ensures engine == e && kv == k && tasks == []
    {
      engine, kv, tasks := e, k, [];
    }

    /** The engine holds the log after `gone`, and the tasks end after it, in growing order: what
        holds whenever the collector runs, by `CollectorIsReady`. */
    ghost predicate Ready(full: seq<Entry>, gone: nat, hi: nat)
      reads this, engine
    {
      Holds(engine.log, full, gone) && TasksOk(tasks, gone, hi)
    }

    /** Sync the apply state, then delete: no count underflows, the ranges of all tasks are gone, and
        everything after the last one is kept. */
    method Flush(ghost full: seq<Entry>, ghost gone: nat, ghost hi: nat) returns (ok: bool)
      requires Ready(full, gone, hi) && kv.versions != []
      modifies this, engine, kv
      ensures ok && tasks == [] && kv.versions == [Last(old(kv.versions))]
      ensures Holds(engine.log, full, if old(tasks) == [] then gone else Last(old(tasks)).to - 1)
      ensures forall i | 0 <= i < |old(tasks)| :: Cleared(engine.log, old(tasks)[i])
      ensures forall k <- engine.log :: k in old(engine.log)
    {
      kv.Sync();
      var taken := tasks;
      tasks := [];
      var i := 0;
      ok := true;
      while i < |taken|
        invariant 0 <= i <= |taken| && tasks == [] && ok
        invariant kv.versions == [Last(old(kv.versions))]
        invariant Holds(engine.log, full, if i == 0 then gone else taken[i - 1].to - 1)
        invariant forall j | 0 <= j < i :: Cleared(engine.log, taken[j])
        invariant forall k <- engine.log :: k in old(engine.log)
      {
        ghost var g := if i == 0 then gone else taken[i - 1].to - 1;
        ghost var was := engine.log;
        assert g < taken[i].to;
        var count := engine.Gc(taken[i].from, taken[i].to);
        TaskDone(was, engine.log, full, g, taken[i], count);
        ok := count.Some?;
        i := i + 1;
      }
    }

    /** Tasks gather until there are enough of them for one sync. */
    method Run(task: Task, ghost full: seq<Entry>, ghost gone: nat, ghost hi: nat) returns (ok: bool)
      requires kv.versions != [] && Ready(full, gone, hi)
      requires task.from <= task.to && gone < task.to && hi <= task.to
      modifies this, engine, kv
      ensures ok
      ensures |old(tasks)| + 1 < MAX_GC_REGION_BATCH ==>
        && tasks == old(tasks) + [task] && engine.log == old(engine.log) && kv.versions == old(kv.versions)
        && Ready(full, gone, task.to)
      ensures |old(tasks)| + 1 >= MAX_GC_REGION_BATCH ==>
        && tasks == [] && kv.versions == [Last(old(kv.versions))] && Holds(engine.log, full, task.to - 1)
        && Cleared(engine.log, task) && forall i | 0 <= i < |old(tasks)| :: Cleared(engine.log, old(tasks)[i])
    {
      ghost var before := tasks;
      tasks := tasks + [task];
      assert TasksOk(tasks, gone, task.to);
      if |tasks| < MAX_GC_REGION_BATCH { return true; }
      ghost var all := tasks;
      ok := Flush(full, gone, task.to);
      assert all[|before|] == task && forall i | 0 <= i < |before| :: all[i] == before[i];
    }
  }

  /** No index of the task's range is stored any more. */
  ghost predicate Cleared(m: map<nat, Entry>, t: Task) { forall k <- m :: !(t.from <= k < t.to) }

  /** What one deletion does. */
  lemma TaskDone(m: map<nat, Entry>, m': map<nat, Entry>, full: seq<Entry>, gone: nat, t: Task, count: Option<nat>)
    requires Holds(m, full, gone) && t.from <= t.to && gone < t.to
    requires t.from >= t.to || (t.from == 0 && m == map[]) ==> count == Some(0) && m' == m
    requires t.from < t.to && (t.from == 0 ==> m != map[]) ==>
      exists start: nat :: (if t.from == 0 then IsFirstKey(m, start) else start == t.from)
        && m' == Cut(m, start, t.to) && count == if t.to < start then None else Some(t.to - start)
    ensures count.Some? && Holds(m', full, t.to - 1) && Cleared(m', t)
    ensures forall k <- m' :: k in m
  {
    if t.from < t.to && (t.from == 0 ==> m != map[]) {
      var start: nat :| (if t.from == 0 then IsFirstKey(m, start) else start == t.from)
        && m' == Cut(m, start, t.to) && count == if t.to < start then None else Some(t.to - start);
      CutBelow(m, full, gone, start, t.to);
      assert start <= t.to by {
        if gone + 1 <= |full| { assert gone + 1 in m; } else { assert start in m || start == t.from; }
      }
    }
  }

  /** In every reachable state with no deletion under way, the collector's flush may run. */
  lemma CollectorIsReady(actions: seq<Action>)
    requires Granted(actions) && After(actions).Some? && After(actions).value.deleting == []
    ensures var s := After(actions).value;
            && s.kv != [] && s.raft != []
            && Holds(Last(s.raft), s.full, s.gone) && TasksOk(s.tasks, s.gone, s.lastCompacted)
            && (s.tasks != [] ==> Last(s.tasks).to - 1 <= Last(s.kv).truncIndex)
  {
    EveryRunIsSafe(actions);
    var s := After(actions).value;
    assert [] + s.tasks == s.tasks;
    hide After, Granted;
    ResultsGrow(s.results, s.peer, Last(s.kv), s.full, s.commit);
  }
}
