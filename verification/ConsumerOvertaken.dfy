/** A run of the raft log in which the collector overtakes the log consumer. */
module ConsumerOvertaken {
  import opened WalletTypes
  import opened Callbacks
  import opened RaftLog
  import opened RaftLogSystem
  import RS = RaftLogSuffix
  import C = ConsumerRuns
  import F = RaftFetch
  import L = LogConsumer

  /** Eleven entries of a leader, 6 to 16, and the compaction of all of them. */
  function NewEntries(): seq<Entry> {
    seq(11, i requires 0 <= i < 11 => Entry(6, i + 6, Empty)) + [Entry(6, 17, Compact(16, 6))]
  }

  function Full(): seq<Entry> { BootEntries() + NewEntries() }

  lemma Next(actions: seq<Action>, action: Action, s: Store)
    requires Granted(actions) && After(actions) == Some(s) && Enabled(s, action)
    ensures Granted(actions + [action]) && s.raft != [] && s.kv != []
    ensures Step(s, action).Some? && After(actions + [action]) == Step(s, action)
  {
    hide Step, Enabled, Inv;
    Reachable(actions, s);
    assert (actions + [action])[..|actions|] == actions;
    StepKeepsInv(s, action);
  }

  lemma Reachable(actions: seq<Action>, s: Store)
    requires Granted(actions) && After(actions) == Some(s)
    ensures Inv(s) && s.raft != [] && s.kv != []
  {
    hide After, Granted;
    EveryRunIsSafe(actions);
  }

  lemma NewAt(i: nat)
    requires i < 12
    ensures |NewEntries()| == 12
    ensures NewEntries()[i] == if i < 11 then Entry(6, i + 6, Empty) else Entry(6, 17, Compact(16, 6))
  {
  }

  lemma FullAt(i: nat)
    requires i < 17
    ensures |Full()| == 17
    ensures Full()[i] == if i < 5 then Entry(5, i + 1, Empty) else if i < 16 then Entry(6, i + 1, Empty)
                         else Entry(6, 17, Compact(16, 6))
  {
    if i >= 5 { NewAt(i - 5); }
  }

  lemma FullIsLegal()
    ensures |Full()| == 17 && LogOk(Full()) && CompactsOk(Full()) && Consecutive(NewEntries(), 6)
    ensures Full() == AfterAppend(BootEntries(), NewEntries())
    ensures Full()[16] == Entry(6, 17, Compact(16, 6))
    ensures forall i | 5 <= i < 16 :: Full()[i] == Entry(6, i + 1, Empty)
  {
    forall i | 0 <= i < 12 ensures NewEntries()[i].index == 6 + i && |NewEntries()| == 12 { NewAt(i); }
    NewAt(0);
    assert BootEntries()[..5] == BootEntries();
    assert Full() == AfterAppend(BootEntries(), NewEntries());
    hide NewEntries, BootEntries, Full;
    forall i | 0 <= i < 17
      ensures |Full()| == 17
      ensures Full()[i] == if i < 5 then Entry(5, i + 1, Empty) else if i < 16 then Entry(6, i + 1, Empty)
                           else Entry(6, 17, Compact(16, 6))
    {
      FullAt(i);
    }
    FullAt(15);
    FullAt(16);
  }

  const STORED: seq<Action> := [] + [Append(NewEntries(), 5, 6)] + [Commit(17)]

  lemma Stored() returns (s: Store)
    ensures Granted(STORED) && After(STORED) == Some(s)
    ensures |s.raft| == 1 && (forall k: nat :: k in s.raft[0] <==> 6 <= k <= 17)
    ensures s == Store(s.raft, 17, 5, 6, [BOOT], [], BOOT, 0, [], [], Full(), 17, 5)
  {
    hide LogOk, CompactsOk, Put, Cut, Consecutive;
    FullIsLegal();
    var s0 := Bootstrap();
    assert Granted([]) && After([]) == Some(s0);
    var append := Append(NewEntries(), 5, 6);
    assert Last(Full()) == Full()[16] && NewEntries()[0] == Entry(6, 6, Empty) && |NewEntries()| == 12;
    assert Last(NewEntries()).index == 17;
    Next([], append, s0);
    var s1 := Step(s0, append).value;
    Next([] + [append], Commit(17), s1);
    s := Step(s1, Commit(17)).value;
    EngineAfterAppend();
  }

  lemma EngineAfterAppend()
    requires Consecutive(NewEntries(), 6)
    ensures forall k: nat :: k in Cut(Put(map[], NewEntries()), 18, 6) <==> 6 <= k <= 17
  {
    PutAt(map[], NewEntries(), 6);
  }

  // ---------- applying ----------

  lemma {:induction false} PlainEntries(a: ApplyState, entries: seq<Entry>)
    requires entries != [] && forall i | 0 <= i < |entries| :: !entries[i].payload.Compact?
    ensures ApplyAll(a, entries) == ApplyRes(a.(applied := entries[|entries| - 1].index), [])
  {
    var n := |entries| - 1;
    if n > 0 { PlainEntries(a, entries[..n]); }
  }

  const A16: ApplyState := ApplyState(16, 5, 5, 16, 6)
  const A17: ApplyState := ApplyState(17, 16, 6, 17, 6)

  const APPLIED: seq<Action> := STORED + [Apply(16)]

  lemma AppliedTo16() returns (s: Store)
    ensures Granted(APPLIED) && After(APPLIED) == Some(s)
    ensures |s.raft| == 1 && (forall k: nat :: k in s.raft[0] <==> 6 <= k <= 17)
    ensures s == Store(s.raft, 17, 5, 6, [BOOT, A16], [ApplyRes(A16, [])], BOOT, 0, [], [], Full(), 17, 5)
  {
    var before := Stored();
    hide After, Granted, ApplyAll;
    FullIsLegal();
    Next(STORED, Apply(16), before);
    s := Step(before, Apply(16)).value;
    PlainEntries(BOOT.(commitIndex := 16, commitTerm := 6), Full()[5..16]);
    assert Full()[5..16][10] == Full()[15];
  }

  const SCHEDULED: seq<Action> := APPLIED + [Apply(17)] + [Notify] + [Notify] + [GcSync] + [GcStep]

  lemma CompactionApplies()
    ensures ApplyAll(A16.(commitIndex := 17, commitTerm := 6), Full()[16..17]) == ApplyRes(A17, [16])
  {
    FullIsLegal();
    var a := A16.(commitIndex := 17, commitTerm := 6);
    assert Full()[16..17] == [Full()[16]] && Full()[16..17][..0] == [];
    assert ApplyAll(a, []) == ApplyRes(a, []);
  }

  /** The collector is about to delete entries 6 to 16. */
  lemma Scheduled() returns (s: Store)
    ensures Granted(SCHEDULED) && After(SCHEDULED) == Some(s)
    ensures s.kv == [A17] && s.full == Full() && s.tasks == [] && s.deleting == [Task(6, 17)]
  {
    var s3 := AppliedTo16();
    hide After, Granted, ApplyAll;
    FullIsLegal();
    CompactionApplies();
    Next(APPLIED, Apply(17), s3);
    var s4 := Step(s3, Apply(17)).value;
    assert s4.results == [ApplyRes(A16, []), ApplyRes(A17, [16])] && Last(s4.kv) == A17;
    Next(APPLIED + [Apply(17)], Notify, s4);
    var s5 := Step(s4, Notify).value;
    assert s5.results == [ApplyRes(A17, [16])] && s5.tasks == [] && s5.lastCompacted == 0;
    Next(APPLIED + [Apply(17)] + [Notify], Notify, s5);
    var s6 := Step(s5, Notify).value;
    assert s6.tasks == [Task(0, 17)];
    Next(APPLIED + [Apply(17)] + [Notify] + [Notify], GcSync, s6);
    var s7 := Step(s6, GcSync).value;
    assert s7.deleting == [Task(0, 17)] && Last(s7.raft) == s3.raft[0];
    Next(APPLIED + [Apply(17)] + [Notify] + [Notify] + [GcSync], GcStep, s7);
    s := Step(s7, GcStep).value;
    assert 6 in s3.raft[0];
    assert FirstKey(s3.raft[0]) == 6;
  }

  // ---------- deleting ----------

  function Deletions(n: nat): seq<Action> { if n == 0 then [] else Deletions(n - 1) + [GcStep] }

  lemma {:induction false} Deleting(n: nat) returns (s: Store)
    requires n <= 11
    ensures |Deletions(n)| == n
    ensures Granted(SCHEDULED + Deletions(n)) && After(SCHEDULED + Deletions(n)) == Some(s)
    ensures s.kv == [A17] && s.full == Full() && s.tasks == [] && s.deleting == [Task(6 + n, 17)]
  {
    if n == 0 {
      s := Scheduled();
      assert SCHEDULED + [] == SCHEDULED;
    } else {
      var before := Deleting(n - 1);
      hide After, Granted, Step;
      Next(SCHEDULED + Deletions(n - 1), GcStep, before);
      assert SCHEDULED + Deletions(n) == SCHEDULED + Deletions(n - 1) + [GcStep];
      s := Step(before, GcStep).value;
      DeletesOne(before, 5 + n);
    }
  }

  lemma DeletesOne(s: Store, from: nat)
    requires s.raft != [] && s.kv != [] && s.deleting == [Task(from, 17)] && 0 < from < 17 && s.tasks == []
    ensures Step(s, GcStep).Some?
    ensures var s' := Step(s, GcStep).value;
            s'.kv == s.kv && s'.full == s.full && s'.tasks == [] && s'.deleting == [Task(from + 1, 17)]
  {
  }

  ghost function Overtaking(): seq<Action> { SCHEDULED + Deletions(11) }

  /** All of them are gone, and only the compaction entry is left. */
  lemma Emptied() returns (s: Store)
    ensures Granted(Overtaking()) && |Overtaking()| == 19 && After(Overtaking()) == Some(s)
    ensures s.raft != [] && s.kv == [A17] && s.full == Full()
    ensures Keeps(Last(s.raft), Full(), 16)
  {
    s := Deleting(11);
    RS.EveryRunIsASuffix(Overtaking());
    hide After, Granted, Holds;
    assert s.deleting + s.tasks == [Task(17, 17)];
    EveryRunIsSafe(Overtaking());
    FullIsLegal();
    OnlyLast(s);
  }

  lemma OnlyLast(s: Store)
    requires Inv(s) && RS.SuffixInv(s) && s.kv == [A17] && s.full == Full() && |Full()| == 17
    requires s.deleting + s.tasks == [Task(17, 17)]
    ensures Keeps(Last(s.raft), Full(), 16)
  {
    assert Holds(Last(s.raft), s.full, s.gone) && s.gone <= 16;
  }

  // ---------- the consumer ----------

  /** Before the deletions the window shows 6 to 16. */
  lemma WindowBefore()
    ensures C.WindowOf(C.At(Overtaking(), 3)) == L.Window(6, 16)
  {
    var s := AppliedTo16();
    assert |APPLIED| == 3 && Overtaking()[..3] == APPLIED;
  }

  lemma WindowAfter()
    ensures C.WindowOf(C.At(Overtaking(), 19)) == L.Window(17, 17)
    ensures Keeps(C.EngineOf(C.At(Overtaking(), 19)), Full(), 16)
  {
    var s := Emptied();
    assert Overtaking()[..19] == Overtaking();
  }

  /** The two turns, against the store before and after the deletions. */
  lemma TurnsTaken()
    ensures C.TurnAt(Overtaking(), 6, C.Reads(3, 3, 19)) == L.Skip(17)
    ensures C.Overtaken(Overtaking(), 6, C.Reads(3, 3, 19))
    ensures C.TurnAt(Overtaking(), 17, C.Reads(19, 19, 19)) == L.Deliver(18)
    ensures |Full()| == 17
    ensures F.Unbroken(C.EngineOf(C.At(Overtaking(), 19)), 17, 18) == [Full()[16]]
  {
    WindowBefore();
    WindowAfter();
    FullIsLegal();
    hide Overtaking, C.At, C.WindowOf, C.EngineOf, L.TurnOf, Full, F.Unbroken;
    var m := C.EngineOf(C.At(Overtaking(), 19));
    L.TurnExactly(m, Full(), 16, 6, L.Window(6, 16), L.Window(6, 16));
    L.TurnEnds(m, 6, L.Window(6, 16), L.Window(6, 16));
    L.TurnExactly(m, Full(), 16, 17, L.Window(17, 17), L.Window(17, 17));
    L.TurnEnds(m, 17, L.Window(17, 17), L.Window(17, 17));
    F.WholeRange(m, Full(), 16, 17, 18);
    assert Full()[16..17] == [Full()[16]];
  }

  /** A turn that reads the window before the deletions and the engine after them delivers nothing and
      moves on; the next turn delivers entry 17.  Entries 6 to 16 are never delivered. */
  lemma TheConsumerIsOvertaken()
    ensures Granted(Overtaking()) && |Full()| == 17
    ensures var turns := [C.Reads(3, 3, 19), C.Reads(19, 19, 19)];
            && C.Ordered(Overtaking(), 0, turns)
            && C.OvertakenAt(Overtaking(), 6, turns, 0)
            && C.Consume(Overtaking(), 6, turns) == Some(C.Progress(18, [Full()[16]]))
  {
    hide After, Granted, Overtaking, C.At, C.EngineOf, C.TurnAt, C.Overtaken, F.Unbroken, Full, Keeps;
    var first, second := C.Reads(3, 3, 19), C.Reads(19, 19, 19);
    var turns := [first, second];
    var s := Emptied();
    NoCrash();
    TurnsTaken();
    assert turns[..0] == [] && turns[..1] == [first] && [first][..0] == [];
    assert C.Consume(Overtaking(), 6, []) == Some(C.Progress(6, []));
    assert C.Consume(Overtaking(), 6, [first]) == C.Advance(Overtaking(), C.Progress(6, []), first);
    assert C.Consume(Overtaking(), 6, turns) == C.Advance(Overtaking(), C.Progress(17, []), second);
    assert [] + [Full()[16]] == [Full()[16]];
  }

  lemma NoCrash()
    ensures forall k | 0 <= k < |Overtaking()| :: !Overtaking()[k].Crash?
  {
    NoCrashIn(11);
  }

  lemma {:induction false} NoCrashIn(n: nat)
    ensures forall k | 0 <= k < |Deletions(n)| :: !Deletions(n)[k].Crash?
  {
    if n > 0 { NoCrashIn(n - 1); }
  }
}
