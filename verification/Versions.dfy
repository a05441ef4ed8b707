/** Optimistic concurrency: a version number can be used up only once. */
module Versions {
  import opened Binary
  import opened LedgerTypes
  import opened Accounts
  import opened Ledger

  /** An account that does not exist yet counts as version 0. */
  function VersionIn(accounts: seq<AccountState>, id: Text): u64 {
    match FindAccount(accounts, id)
    case Some(i) => accounts[i].version
    case None => 0
  }

  /** An account that is created on demand starts at the version it counted as before. */
  lemma {:induction false} CreatedVersions(accounts: seq<AccountState>, target: Text, id: Text)
    ensures var (created, i) := GetOrCreate(accounts, target);
      FindAccount(created, target) == Some(i) && VersionIn(created, id) == VersionIn(accounts, id)
  {
    FindAppended(accounts, NewAccount(target), id);
    FindAppended(accounts, NewAccount(target), target);
  }

  lemma UpdatedVersions(accounts: seq<AccountState>, i: nat, a: AccountState, id: Text)
    requires i < |accounts| && a.accountId == accounts[i].accountId
    requires FindAccount(accounts, a.accountId) == Some(i)
    ensures VersionIn(accounts[i := a], id) == if id == a.accountId then a.version else VersionIn(accounts, id)
  {
    var after := accounts[i := a];
    assert forall k :: 0 <= k < |accounts| ==> after[k].accountId == accounts[k].accountId;
    assert FindAccount(after, id) == FindAccount(accounts, id);
  }

  lemma OperateVersions(accounts: seq<AccountState>, target: Text, op: BalanceOperation, amount: u64, id: Text)
    ensures var (after, r) := OperateOn(accounts, target, op, amount);
      VersionIn(after, id) == if r.Ok? && id == target then Bump(VersionIn(accounts, id)) else VersionIn(accounts, id)
  {
    var (created, i) := GetOrCreate(accounts, target);
    CreatedVersions(accounts, target, id);
    OperationMoves(created[i], op, amount);
    UpdatedVersions(created, i, ApplyOperation(created[i], op, amount).0, id);
  }

  lemma BalanceVersions(s: LedgerState, cmd: LedgerCommand, id: Text)
    requires IsBalanceCommand(cmd.commandType)
    ensures var (t, r) := EffectBalance(s, cmd);
      VersionIn(t.accounts, id) ==
        if r.Ok? && id == cmd.partitionKey then Bump(VersionIn(s.accounts, id)) else VersionIn(s.accounts, id)
    ensures ValidateBalance(s, cmd).Ok? && cmd.expectedVersion.Some? ==>
      cmd.expectedVersion.value == VersionIn(s.accounts, cmd.partitionKey)
  {
    OperateVersions(s.accounts, cmd.partitionKey, OperationOf(cmd.commandType), AmountOf(cmd), id);
  }

  lemma TransferVersions(s: LedgerState, cmd: LedgerCommand, id: Text)
    requires VersionIn(s.accounts, id) + 2 <= U64_MAX
    ensures VersionIn(s.accounts, id) <= VersionIn(EffectTransfer(s, cmd).0.accounts, id) <= VersionIn(s.accounts, id) + 2
  {
    var parts := SplitTransfer(cmd.partitionKey);
    if parts.Some? {
      var source, amount := parts.value.source, Amount(cmd);
      OperateVersions(s.accounts, source, Debit, amount, id);
      OperateVersions(OperateOn(s.accounts, source, Debit, amount).0, parts.value.dest, Credit, amount, id);
    }
  }

  /** One command raises any account's version by at most two (a transfer to oneself), and a credit,
      debit, reserve or release by exactly one on its own account. */
  lemma StepVersions(env: Env, s: LedgerState, cmd: LedgerCommand, id: Text)
    requires VersionIn(s.accounts, id) + 2 <= U64_MAX
    ensures var (t, r) := Transition(env, s, cmd);
      && VersionIn(s.accounts, id) <= VersionIn(t.accounts, id) <= VersionIn(s.accounts, id) + 2
      && (r.Ok? && IsBalanceCommand(cmd.commandType) && cmd.partitionKey == id ==>
            && VersionIn(t.accounts, id) == VersionIn(s.accounts, id) + 1
            && (cmd.expectedVersion.Some? ==> cmd.expectedVersion.value == VersionIn(s.accounts, id)))
  {
    if IsBalanceCommand(cmd.commandType) {
      BalanceVersions(s, cmd, id);
    } else if !IsUtxoCommand(cmd.commandType) && cmd.commandType == CommitInternalTransfer {
      TransferVersions(s, cmd, id);
    }
  }

  /** One step of a counter that grows by at most two where it has room. */
  predicate GrowsByTwo(v: nat, w: nat) {
    v + 2 <= U64_MAX ==> v <= w <= v + 2
  }

  lemma {:induction false} CountersGrow(vs: seq<nat>, i: nat, j: nat)
    requires i <= j < |vs|
    requires forall k :: 0 <= k < |vs| - 1 ==> GrowsByTwo(vs[k], vs[k + 1])
    requires vs[0] + 2 * (|vs| - 1) <= U64_MAX
    ensures vs[i] <= vs[j] <= vs[0] + 2 * j
    decreases j
  {
    if j > 0 {
      CountersGrow(vs, if i < j then i else j - 1, j - 1);
      assert GrowsByTwo(vs[j - 1], vs[j - 1 + 1]);
    }
  }

  function VersionAt(env: Env, s: LedgerState, cmds: seq<LedgerCommand>, id: Text, i: nat): u64
    requires i <= |cmds|
  {
    VersionIn(RunState(env, s, cmds[..i]).accounts, id)
  }

  lemma VersionStep(env: Env, s: LedgerState, cmds: seq<LedgerCommand>, id: Text, k: nat)
    requires k < |cmds|
    ensures GrowsByTwo(VersionAt(env, s, cmds, id, k), VersionAt(env, s, cmds, id, k + 1))
  {
    assert cmds[..k + 1][..k] == cmds[..k];
    if VersionAt(env, s, cmds, id, k) + 2 <= U64_MAX {
      StepVersions(env, RunState(env, s, cmds[..k]), cmds[k], id);
    }
  }

  /** Versions only grow along a log. */
  lemma VersionsGrow(env: Env, s: LedgerState, cmds: seq<LedgerCommand>, i: nat, j: nat, id: Text)
    requires i <= j <= |cmds|
    requires VersionIn(s.accounts, id) + 2 * |cmds| <= U64_MAX
    ensures VersionAt(env, s, cmds, id, i) <= VersionAt(env, s, cmds, id, j) <= VersionIn(s.accounts, id) + 2 * j
  {
    var vs: seq<nat> := seq(|cmds| + 1, k requires 0 <= k <= |cmds| => VersionAt(env, s, cmds, id, k));
    assert vs[0] == VersionIn(s.accounts, id);
    forall k | 0 <= k < |vs| - 1 ensures GrowsByTwo(vs[k], vs[k + 1]) {
      VersionStep(env, s, cmds, id, k);
    }
    CountersGrow(vs, i, j);
  }

  /** The command at position `i` is a credit, debit, reserve or release of `id` that carried expected
      version `v` and succeeded. */
  predicate Consumed(env: Env, s: LedgerState, cmds: seq<LedgerCommand>, i: nat, id: Text, v: u64)
    requires i < |cmds|
  {
    && IsBalanceCommand(cmds[i].commandType)
    && cmds[i].partitionKey == id
    && cmds[i].expectedVersion == Some(v)
    && RunResult(env, s, cmds, i).Ok?
  }

  /** No lost update: over any log, accepted and rejected commands mixed, each version of each account
      is consumed at most once, as long as the version counter cannot wrap within the log. */
  lemma NoLostUpdate(env: Env, s: LedgerState, cmds: seq<LedgerCommand>, id: Text, v: u64)
    requires VersionIn(s.accounts, id) + 2 * |cmds| <= U64_MAX
    ensures forall i, j :: 0 <= i < j < |cmds| && Consumed(env, s, cmds, i, id, v) ==> !Consumed(env, s, cmds, j, id, v)
  {
    forall i, j | 0 <= i < j < |cmds| && Consumed(env, s, cmds, i, id, v)
      ensures !Consumed(env, s, cmds, j, id, v)
    {
      VersionsGrow(env, s, cmds, i, i, id);
      VersionsGrow(env, s, cmds, i + 1, j, id);
      ConsumedStep(env, s, cmds, i, id, v);
      if Consumed(env, s, cmds, j, id, v) {
        ConsumedStep(env, s, cmds, j, id, v);
        assert false;
      }
    }
  }

  /** A consumed version was the current one, and is not any more. */
  lemma ConsumedStep(env: Env, s: LedgerState, cmds: seq<LedgerCommand>, i: nat, id: Text, v: u64)
    requires i < |cmds|
    requires VersionAt(env, s, cmds, id, i) + 2 <= U64_MAX
    requires Consumed(env, s, cmds, i, id, v)
    ensures VersionAt(env, s, cmds, id, i) == v && VersionAt(env, s, cmds, id, i + 1) == v + 1
  {
    assert cmds[..i + 1][..i] == cmds[..i];
    StepVersions(env, RunState(env, s, cmds[..i]), cmds[i], id);
  }
}
