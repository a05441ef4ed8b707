/** When the receipts of a log chain: each starting from the root the one before it ended in. */
module Receipts {
  import opened Binary
  import opened LedgerTypes
  import opened Collisions
  import opened Sequences
  import opened Accounts
  import opened Ledger
  import opened StateRoot
  import opened StateMachine
  import opened RootBinding
  import opened Conservation

  /** What a rejected command changes without a receipt, read off the state before it: it validates, and
      then creates the account it is rejected on, or takes money out on its first leg. */
  predicate LeavesTrace(env: Env, s: LedgerState, cmd: LedgerCommand) {
    if IsBalanceCommand(cmd.commandType) then
      ValidateBalance(s, cmd).Ok? && (FindAccount(s.accounts, cmd.partitionKey).None? || DestroysMoney(env, s, cmd))
    else
      && cmd.commandType == CommitInternalTransfer && SplitTransfer(cmd.partitionKey).Some?
      && (FindAccount(s.accounts, SplitTransfer(cmd.partitionKey).value.source).None? || DestroysMoney(env, s, cmd))
  }

  /** Accounts only get more numerous and poorer; strictly so where something was left. */
  predicate Drifts(before: seq<AccountState>, after: seq<AccountState>, strictly: bool) {
    && |before| <= |after| && Total(after) <= Total(before)
    && (strictly ==> |before| < |after| || Total(after) < Total(before))
  }

  lemma BalanceTrace(s: LedgerState, cmd: LedgerCommand)
    requires IsBalanceCommand(cmd.commandType) && EffectBalance(s, cmd).1.Err?
    ensures var (created, i) := GetOrCreate(s.accounts, cmd.partitionKey);
      var traced := FindAccount(s.accounts, cmd.partitionKey).None? ||
                    SecondLegOverflows(created[i], OperationOf(cmd.commandType), AmountOf(cmd));
      var t := EffectBalance(s, cmd).0;
      Drifts(s.accounts, t.accounts, traced) && (!traced ==> t == s)
  {
    OperateTotal(s.accounts, cmd.partitionKey, OperationOf(cmd.commandType), AmountOf(cmd));
  }

  lemma TransferTrace(s: LedgerState, cmd: LedgerCommand)
    requires EffectTransfer(s, cmd).1.Err?
    ensures var parts := SplitTransfer(cmd.partitionKey);
      var traced := parts.Some? &&
        (FindAccount(s.accounts, parts.value.source).None? || Strands(s.accounts, parts.value, Amount(cmd)));
      var t := EffectTransfer(s, cmd).0;
      Drifts(s.accounts, t.accounts, traced) && (!traced ==> t == s)
  {
    var parts := SplitTransfer(cmd.partitionKey);
    if parts.Some? {
      TransferTotal(s.accounts, parts.value, Amount(cmd));
    }
  }

  /** A rejected command leaves the state exactly as it was unless it leaves a trace, and a trace shows
      in the number of accounts or in the money. */
  lemma TraceExact(env: Env, s: LedgerState, cmd: LedgerCommand)
    requires Transition(env, s, cmd).1.Err?
    ensures var t := Transition(env, s, cmd).0;
      Drifts(s.accounts, t.accounts, LeavesTrace(env, s, cmd)) && (!LeavesTrace(env, s, cmd) ==> t == s)
  {
    if Validate(env, s, cmd).Ok? {
      if IsBalanceCommand(cmd.commandType) {
        BalanceTrace(s, cmd);
      } else if IsUtxoCommand(cmd.commandType) {
        UtxoRejection(env, s, cmd);
      } else if cmd.commandType == CommitInternalTransfer {
        TransferTrace(s, cmd);
      }
    }
  }

  // ---------------------------------------------------------------- along a log

  function StateAt(env: Env, s: LedgerState, cmds: seq<LedgerCommand>, i: nat): LedgerState
    requires i <= |cmds|
  {
    RunState(env, s, cmds[..i])
  }

  function ReceiptAt(env: Env, s: LedgerState, cmds: seq<LedgerCommand>, i: nat): Result<Receipt>
    requires i < |cmds|
  {
    Apply(env, StateAt(env, s, cmds, i), cmds[i]).1
  }

  predicate TraceAt(env: Env, s: LedgerState, cmds: seq<LedgerCommand>, i: nat)
    requires i < |cmds|
  {
    LeavesTrace(env, StateAt(env, s, cmds, i), cmds[i])
  }

  lemma StateAtNext(env: Env, s: LedgerState, cmds: seq<LedgerCommand>, i: nat)
    requires i < |cmds|
    ensures StateAt(env, s, cmds, i + 1) == Transition(env, StateAt(env, s, cmds, i), cmds[i]).0
  {
    assert cmds[..i + 1][..i] == cmds[..i];
  }

  /** A receipt is numbered by the version it found, carries its command's hash, and holds the roots of
      the states before and after. */
  predicate Certifies(sha: Bytes -> Digest, receipt: Receipt, cmd: LedgerCommand, before: LedgerState, after: LedgerState) {
    && receipt.sequence == before.version && receipt.commandHash == cmd.payloadHash
    && receipt.previousStateRoot == Root(sha, before) && receipt.resultingStateRoot == Root(sha, after)
    && after.version == Bump(before.version)
  }

  lemma ReceiptCertifies(env: Env, s: LedgerState, cmds: seq<LedgerCommand>, i: nat)
    requires i < |cmds| && ReceiptAt(env, s, cmds, i).Ok?
    ensures Certifies(env.sha, ReceiptAt(env, s, cmds, i).value, cmds[i], StateAt(env, s, cmds, i), StateAt(env, s, cmds, i + 1))
    ensures RunResult(env, s, cmds, i) == Ok(ReceiptAt(env, s, cmds, i).value.affectedAccounts)
  {
    StateAtNext(env, s, cmds, i);
  }

  lemma RejectedAtDrifts(env: Env, s: LedgerState, cmds: seq<LedgerCommand>, k: nat)
    requires k < |cmds| && RunResult(env, s, cmds, k).Err?
    ensures StretchStep(StateAt(env, s, cmds, k), StateAt(env, s, cmds, k + 1), TraceAt(env, s, cmds, k))
  {
    StateAtNext(env, s, cmds, k);
    TraceExact(env, StateAt(env, s, cmds, k), cmds[k]);
  }

  ghost predicate Traced(env: Env, s: LedgerState, cmds: seq<LedgerCommand>, a: nat, b: nat)
    requires b <= |cmds|
  {
    exists k :: a <= k < b && TraceAt(env, s, cmds, k)
  }

  predicate StretchStep(s: LedgerState, t: LedgerState, traced: bool) {
    Drifts(s.accounts, t.accounts, traced) && (!traced ==> t == s) && t.version == s.version
  }

  ghost predicate Marked(left: nat -> bool, a: nat, b: nat) {
    exists k: nat :: a <= k < b && left(k)
  }

  /** Steps that drift add up to a drift, strict if any of them is. */
  lemma {:induction false} StretchAdds(at: nat -> LedgerState, left: nat -> bool, a: nat, b: nat)
    requires a <= b
    requires forall k: nat :: a <= k < b ==> StretchStep(at(k), at(k + 1), left(k))
    ensures StretchStep(at(a), at(b), Marked(left, a, b))
    decreases b
  {
    if a < b {
      StretchAdds(at, left, a, b - 1);
      var k: nat := b - 1;
      assert StretchStep(at(k), at(k + 1), left(k));
      assert Marked(left, a, b) <==> Marked(left, a, k) || left(k);
    }
  }

  /** The states and the traces of a log, as functions of the place. */
  function Path(env: Env, s: LedgerState, cmds: seq<LedgerCommand>): nat -> LedgerState {
    (k: nat) => if k <= |cmds| then StateAt(env, s, cmds, k) else s
  }

  function Marks(env: Env, s: LedgerState, cmds: seq<LedgerCommand>): nat -> bool {
    (k: nat) => k < |cmds| && TraceAt(env, s, cmds, k)
  }

  lemma PathStep(env: Env, s: LedgerState, cmds: seq<LedgerCommand>, k: nat)
    requires k < |cmds| && RunResult(env, s, cmds, k).Err?
    ensures StretchStep(Path(env, s, cmds)(k), Path(env, s, cmds)(k + 1), Marks(env, s, cmds)(k))
  {
    RejectedAtDrifts(env, s, cmds, k);
  }

  lemma MarksAreTraces(env: Env, s: LedgerState, cmds: seq<LedgerCommand>, a: nat, b: nat)
    requires b <= |cmds|
    ensures Marked(Marks(env, s, cmds), a, b) <==> Traced(env, s, cmds, a, b)
  {
    var left := Marks(env, s, cmds);
    forall k: nat | k < |cmds| ensures left(k) == TraceAt(env, s, cmds, k) {
    }
    if Traced(env, s, cmds, a, b) {
      var k :| a <= k < b && TraceAt(env, s, cmds, k);
      assert left(k);
    }
  }

  /** Over a stretch of rejected commands. */
  lemma StretchDrifts(env: Env, s: LedgerState, cmds: seq<LedgerCommand>, a: nat, b: nat)
    requires a <= b <= |cmds|
    requires forall k :: a <= k < b ==> RunResult(env, s, cmds, k).Err?
    ensures StretchStep(StateAt(env, s, cmds, a), StateAt(env, s, cmds, b), Traced(env, s, cmds, a, b))
  {
    var at, left := Path(env, s, cmds), Marks(env, s, cmds);
    forall k: nat | a <= k < b ensures StretchStep(at(k), at(k + 1), left(k)) {
      PathStep(env, s, cmds, k);
    }
    StretchAdds(at, left, a, b);
    MarksAreTraces(env, s, cmds, a, b);
  }

  lemma DriftedContent(s: LedgerState, t: LedgerState)
    requires Drifts(s.accounts, t.accounts, true)
    ensures !SameContent(s, t)
  {
    if Permuted(s.accounts, t.accounts) {
      PermutedMembers(s.accounts, t.accounts);
      SumPermuted(Money, s.accounts, t.accounts);
    }
  }

  /** Two receipts around a drift: the second has the next number, and starts from the root the first
      ended in exactly when nothing was left in between, or there is a collision. */
  lemma LinkOfDrift(sha: Bytes -> Digest, first: Receipt, c: LedgerCommand, before: LedgerState, ended: LedgerState,
                    second: Receipt, d: LedgerCommand, started: LedgerState, after: LedgerState, traced: bool)
    requires Certifies(sha, first, c, before, ended) && Certifies(sha, second, d, started, after)
    requires StretchStep(ended, started, traced)
    ensures second.sequence == Bump(first.sequence)
    ensures (first.resultingStateRoot == second.previousStateRoot <==> !traced) || Collide(sha, Hashed(sha, ended), Hashed(sha, started))
  {
    if traced && Root(sha, ended) == Root(sha, started) {
      DriftedContent(ended, started);
      RootBinding.RootBinding(sha, ended, started);
    }
  }

  /** Two receipts with only rejected commands between them are numbered one after the other, and link,
      the second starting from the root the first ended in, if and only if none of those commands left
      an account or lost money behind; or two byte strings hashed for the two roots collide. */
  lemma ReceiptsLink(env: Env, s: LedgerState, cmds: seq<LedgerCommand>, i: nat, j: nat)
    requires i < j < |cmds|
    requires ReceiptAt(env, s, cmds, i).Ok? && ReceiptAt(env, s, cmds, j).Ok?
    requires forall k :: i < k < j ==> RunResult(env, s, cmds, k).Err?
    ensures var first, second := ReceiptAt(env, s, cmds, i).value, ReceiptAt(env, s, cmds, j).value;
      var ended, started := StateAt(env, s, cmds, i + 1), StateAt(env, s, cmds, j);
      && second.sequence == Bump(first.sequence)
      && ((first.resultingStateRoot == second.previousStateRoot <==> !Traced(env, s, cmds, i + 1, j))
          || Collide(env.sha, Hashed(env.sha, ended), Hashed(env.sha, started)))
  {
    ReceiptCertifies(env, s, cmds, i);
    ReceiptCertifies(env, s, cmds, j);
    StretchDrifts(env, s, cmds, i + 1, j);
    LinkOfDrift(env.sha, ReceiptAt(env, s, cmds, i).value, cmds[i], StateAt(env, s, cmds, i), StateAt(env, s, cmds, i + 1),
                ReceiptAt(env, s, cmds, j).value, cmds[j], StateAt(env, s, cmds, j), StateAt(env, s, cmds, j + 1),
                Traced(env, s, cmds, i + 1, j));
  }

  /** A release without an expected version on an unknown account is rejected and leaves the account. */
  lemma ReleaseLeavesAccount(env: Env, s: LedgerState, cmd: LedgerCommand)
    requires cmd.commandType == ReleaseBalance && cmd.expectedVersion == None && Amount(cmd) > 0
    requires FindAccount(s.accounts, cmd.partitionKey).None?
    ensures var (t, r) := Transition(env, s, cmd);
      r.Err? && LeavesTrace(env, s, cmd) && t == s.(accounts := s.accounts + [NewAccount(cmd.partitionKey)])
  {
    var created := s.accounts + [NewAccount(cmd.partitionKey)];
    assert created[|s.accounts| := NewAccount(cmd.partitionKey)] == created;
  }
}
