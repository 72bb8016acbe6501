/** Recreating a deleted account: the answer depends on when the wallet flushed. */
module TombstoneTiming {
  import opened WalletTypes
  import opened Decimals
  import opened Accounts
  import opened Ledger
  import opened EventSourcing
  import opened WalletStore
  import opened WalletMachine
  import opened WalletRefinement
  import opened WalletSystem
  import opened Transparency

  /** Create an account, delete it, create it again, each in its own entry. */
  function RecreateLog(x: Id): Log {
    [[Command([1], 0, CreateAccount(x))], [Command([2], 0, DeleteAccount(x))], [Command([3], 0, CreateAccount(x))]]
  }

  lemma OneCommand(s: State, index: nat, cmd: Command)
    ensures var (s', r) := Run(s, 0, Position(index, 0), cmd);
            RunEntry(s, 0, index, [cmd]) == (s', [r])
  {
    hide Run;
    assert RunPrefix(s, 0, index, [cmd], 0) == (s, []);
    var r := Run(s, 0, Position(index, 0), cmd).1;
    assert [] + [r] == [r];
  }

  lemma AfterCreate(x: Id)
    ensures var s := Canon(RecreateLog(x), 1);
            && s.accounts == map[x := New(x)]
            && |s.history| == 1 && s.history[0].header.commandId == [1]
  {
    var cmd := RecreateLog(x)[0][0];
    OneCommand(EMPTY, 6, cmd);
    var s := Run(EMPTY, 0, Position(6, 0), cmd).0;
    WriteOne(map[], New(x));
    assert EntryEnd(RecreateLog(x), 0) == s;
    hide RunEntry;
    assert Live(map[x := New(x)]) == map[x := New(x)];
  }

  lemma DeleteFresh(x: Id)
    ensures Handle(map[x := New(x)], DeleteAccount(x)).Ok?
    ensures Handle(map[x := New(x)], DeleteAccount(x)).value.writes == [New(x).(state := Deleted)]
  {
    ZeroShift(1);
  }

  lemma RunDelete(s: State, x: Id, index: nat, offset: nat)
    requires s.accounts == map[x := New(x)] && |s.history| == 1 && s.history[0].header.commandId == [1]
    ensures var s' := Run(s, 0, Position(index, offset), RecreateLog(x)[1][0]).0;
            && s'.accounts == map[x := New(x).(state := Deleted)]
            && |s'.history| == 2 && s'.history[0] == s.history[0] && s'.history[1].header.commandId == [2]
  {
    hide Handle;
    DeleteFresh(x);
    WriteOne(s.accounts, New(x).(state := Deleted));
    assert s.history[0].header.commandId != [2];
  }

  lemma AfterDelete(x: Id)
    ensures var log := RecreateLog(x);
            && x in Dead(log, 2) && Canon(log, 2).accounts == map[]
            && Lookup(Canon(log, 2).history, 0, [3]).None?
  {
    hide Handle, Run, RunEntry;
    var log, tomb := RecreateLog(x), New(x).(state := Deleted);
    var s := Canon(log, 1);
    AfterCreate(x);
    OneCommand(s, 7, log[1][0]);
    RunDelete(s, x, 7, 0);
    var s' := EntryEnd(log, 1);
    assert x in Tombstones(s'.accounts);
    assert Live(map[x := tomb]) == map[];
    assert s'.history[0].header.commandId == [1] && s'.history[1].header.commandId == [2];
  }

  /** The second creation succeeds after a flush and is refused before it. */
  lemma RecreationIsObservable(x: Id)
    ensures !Transparent(RecreateLog(x))
  {
    var log := RecreateLog(x);
    AfterDelete(x);
    assert Before(log, 2, 0) == Canon(log, 2);
    hide Canon, Dead;
    assert x in Touched(map[], CreateAccount(x)) * Dead(log, 2);
    assert !CleanCommand(log, 2, 0);
    hide CleanCommand, Transparent;
    TransparentExactlyWhenClean(log);
  }
}
