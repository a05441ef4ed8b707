/** Replicas that hold the same items in different orders never diverge. */
module Bisimulation {
  import opened Binary
  import opened LedgerTypes
  import opened Sequences
  import opened Accounts
  import opened Chain
  import opened ChainLemmas
  import opened Ledger
  import opened StateRoot
  import opened RootBinding
  import opened StateMachine

  /** Unique keys, and equal up to the order of accounts, journal, reservations, intents, nodes and
      outputs. */
  predicate Bisimilar(s: LedgerState, t: LedgerState) {
    && UniqueAccounts(s.accounts) && UniqueAccounts(t.accounts)
    && UniqueOutpoints(s.utxos) && UniqueOutpoints(t.utxos)
    && s.version == t.version
    && Permuted(s.accounts, t.accounts)
    && Permuted(s.journal, t.journal)
    && Permuted(s.reservations, t.reservations)
    && Permuted(s.consumedIntents, t.consumedIntents)
    && s.membership.clusterId == t.membership.clusterId
    && s.membership.activeProfile == t.membership.activeProfile
    && Permuted(s.membership.nodes, t.membership.nodes)
    && Permuted(s.utxos, t.utxos)
  }

  lemma BisimilarRoots(sha: Bytes -> Digest, s: LedgerState, t: LedgerState)
    requires Bisimilar(s, t)
    ensures Root(sha, s) == Root(sha, t)
  {
    MapPermuted(EntryHash, s.journal, t.journal);
    MapPermuted(ReservationBytes, s.reservations, t.reservations);
    RootIgnoresOrder(sha, s, t);
  }

  // ---------------------------------------------------------------- accounts

  lemma {:induction false} AccountFindPermuted(a: seq<AccountState>, b: seq<AccountState>, id: Text)
    requires Permuted(a, b) && UniqueAccounts(a) && UniqueAccounts(b)
    ensures var i, j := FindAccount(a, id), FindAccount(b, id);
      i.Some? == j.Some? && (i.Some? ==> a[i.value] == b[j.value])
  {
    PermutedMembers(a, b);
    var i, j := FindAccount(a, id), FindAccount(b, id);
    if i.Some? {
      assert a[i.value] in b;
    }
    if j.Some? {
      assert b[j.value] in a;
    }
  }

  lemma CreatedPermuted(a: seq<AccountState>, b: seq<AccountState>, id: Text)
    requires Permuted(a, b) && UniqueAccounts(a) && UniqueAccounts(b)
    ensures var (ca, i), (cb, j) := GetOrCreate(a, id), GetOrCreate(b, id);
      Permuted(ca, cb) && UniqueAccounts(ca) && UniqueAccounts(cb) && ca[i] == cb[j]
  {
    AccountFindPermuted(a, b, id);
    if FindAccount(a, id).None? {
      PermutedAppend(a, b, NewAccount(id));
    }
  }

  lemma UpdateKeepsUnique(a: seq<AccountState>, i: nat, x: AccountState)
    requires UniqueAccounts(a) && i < |a| && x.accountId == a[i].accountId
    ensures UniqueAccounts(a[i := x])
  {
  }

  lemma OperatePermuted(a: seq<AccountState>, b: seq<AccountState>, id: Text, op: BalanceOperation, amount: u64)
    requires Permuted(a, b) && UniqueAccounts(a) && UniqueAccounts(b)
    ensures var (a', r), (b', q) := OperateOn(a, id, op, amount), OperateOn(b, id, op, amount);
      r == q && Permuted(a', b') && UniqueAccounts(a') && UniqueAccounts(b')
  {
    CreatedPermuted(a, b, id);
    var (ca, i) := GetOrCreate(a, id);
    var (cb, j) := GetOrCreate(b, id);
    OperationMoves(ca[i], op, amount);
    var x := ApplyOperation(ca[i], op, amount).0;
    PermutedUpdate(ca, i, cb, j, x);
    UpdateKeepsUnique(ca, i, x);
    UpdateKeepsUnique(cb, j, x);
  }

  lemma AddOncePermuted(a: seq<Text>, b: seq<Text>, x: Text)
    requires Permuted(a, b)
    ensures Permuted(AddOnce(a, x), AddOnce(b, x))
  {
    PermutedMembers(a, b);
  }

  lemma RemainingPermuted(a: seq<Text>, b: seq<Text>, x: Text)
    requires Permuted(a, b)
    ensures Permuted(Remaining(a, x), Remaining(b, x))
  {
    FilterPermuted((n: Text) => n != x, a, b);
  }

  // ---------------------------------------------------------------- one command

  lemma ValidateAgrees(env: Env, s: LedgerState, t: LedgerState, cmd: LedgerCommand)
    requires Bisimilar(s, t)
    ensures Validate(env, s, cmd) == Validate(env, t, cmd)
  {
    if IsBalanceCommand(cmd.commandType) {
      AccountFindPermuted(s.accounts, t.accounts, cmd.partitionKey);
    } else if IsUtxoCommand(cmd.commandType) {
      var decoded := DecodeStep(env, cmd);
      if decoded.Ok? {
        StepPermuted(s.utxos, t.utxos, decoded.value);
      }
    }
  }

  lemma BalanceAgrees(s: LedgerState, t: LedgerState, cmd: LedgerCommand)
    requires Bisimilar(s, t) && IsBalanceCommand(cmd.commandType)
    ensures var (s', r), (t', q) := EffectBalance(s, cmd), EffectBalance(t, cmd); r == q && Bisimilar(s', t')
  {
    OperatePermuted(s.accounts, t.accounts, cmd.partitionKey, OperationOf(cmd.commandType), AmountOf(cmd));
  }

  lemma UtxoAgrees(env: Env, s: LedgerState, t: LedgerState, cmd: LedgerCommand)
    requires Bisimilar(s, t) && IsUtxoCommand(cmd.commandType)
    ensures var (s', r), (t', q) := EffectUtxo(env, s, cmd), EffectUtxo(env, t, cmd); r == q && Bisimilar(s', t')
  {
    var decoded := DecodeStep(env, cmd);
    if decoded.Ok? {
      StepPermuted(s.utxos, t.utxos, decoded.value);
      StepKeepsUnique(s.utxos, decoded.value);
      StepKeepsUnique(t.utxos, decoded.value);
    }
  }

  lemma TransferAgrees(s: LedgerState, t: LedgerState, cmd: LedgerCommand)
    requires Bisimilar(s, t)
    ensures var (s', r), (t', q) := EffectTransfer(s, cmd), EffectTransfer(t, cmd); r == q && Bisimilar(s', t')
  {
    var parts := SplitTransfer(cmd.partitionKey);
    if parts.Some? {
      var source, dest, amount := parts.value.source, parts.value.dest, Amount(cmd);
      OperatePermuted(s.accounts, t.accounts, source, Debit, amount);
      OperatePermuted(OperateOn(s.accounts, source, Debit, amount).0,
                      OperateOn(t.accounts, source, Debit, amount).0, dest, Credit, amount);
    }
  }

  lemma RestAgrees(s: LedgerState, t: LedgerState, cmd: LedgerCommand)
    requires Bisimilar(s, t)
    ensures var (s', r), (t', q) := EffectRest(s, cmd), EffectRest(t, cmd); r == q && Bisimilar(s', t')
  {
    AddOncePermuted(s.consumedIntents, t.consumedIntents, cmd.partitionKey);
    AddOncePermuted(s.membership.nodes, t.membership.nodes, cmd.partitionKey);
    RemainingPermuted(s.membership.nodes, t.membership.nodes, cmd.partitionKey);
  }

  lemma EffectAgrees(env: Env, s: LedgerState, t: LedgerState, cmd: LedgerCommand)
    requires Bisimilar(s, t)
    ensures var (s', r), (t', q) := Effect(env, s, cmd), Effect(env, t, cmd); r == q && Bisimilar(s', t')
  {
    if IsBalanceCommand(cmd.commandType) {
      BalanceAgrees(s, t, cmd);
    } else if IsUtxoCommand(cmd.commandType) {
      UtxoAgrees(env, s, t, cmd);
    } else if cmd.commandType == CommitInternalTransfer {
      TransferAgrees(s, t, cmd);
    } else {
      RestAgrees(s, t, cmd);
    }
  }

  /** A command succeeds on both states with one receipt, roots included, or fails on both with one
      error; either way the states are again equal up to order. */
  lemma StepBisimulation(env: Env, s: LedgerState, t: LedgerState, cmd: LedgerCommand)
    requires Bisimilar(s, t)
    ensures var (s', r), (t', q) := Apply(env, s, cmd), Apply(env, t, cmd); r == q && Bisimilar(s', t')
  {
    ValidateAgrees(env, s, t, cmd);
    EffectAgrees(env, s, t, cmd);
    BisimilarRoots(env.sha, s, t);
    BisimilarRoots(env.sha, Transition(env, s, cmd).0, Transition(env, t, cmd).0);
  }

  // ---------------------------------------------------------------- whole logs

  lemma {:induction false} RunBisimilar(env: Env, s: LedgerState, t: LedgerState, cmds: seq<LedgerCommand>)
    requires Bisimilar(s, t)
    ensures Bisimilar(RunState(env, s, cmds), RunState(env, t, cmds))
  {
    if |cmds| > 0 {
      var n := |cmds| - 1;
      RunBisimilar(env, s, t, cmds[..n]);
      StepBisimulation(env, RunState(env, s, cmds[..n]), RunState(env, t, cmds[..n]), cmds[n]);
    }
  }

  /** Storage order never makes two replicas diverge: over any log, rejected commands included, every
      receipt and every error agree, and so do the final roots. */
  lemma RunBisimulation(env: Env, s: LedgerState, t: LedgerState, cmds: seq<LedgerCommand>)
    requires Bisimilar(s, t)
    ensures forall i :: 0 <= i < |cmds| ==>
      Apply(env, RunState(env, s, cmds[..i]), cmds[i]).1 == Apply(env, RunState(env, t, cmds[..i]), cmds[i]).1
    ensures Bisimilar(RunState(env, s, cmds), RunState(env, t, cmds))
    ensures Root(env.sha, RunState(env, s, cmds)) == Root(env.sha, RunState(env, t, cmds))
  {
    forall i | 0 <= i < |cmds|
      ensures Apply(env, RunState(env, s, cmds[..i]), cmds[i]).1 == Apply(env, RunState(env, t, cmds[..i]), cmds[i]).1
    {
      RunBisimilar(env, s, t, cmds[..i]);
      StepBisimulation(env, RunState(env, s, cmds[..i]), RunState(env, t, cmds[..i]), cmds[i]);
    }
    RunBisimilar(env, s, t, cmds);
    BisimilarRoots(env.sha, RunState(env, s, cmds), RunState(env, t, cmds));
  }
}
