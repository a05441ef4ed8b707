/** Money is neither made nor lost by any log of commands that cannot overflow a u64. */
module Conservation {
  import opened Binary
  import opened LedgerTypes
  import opened Sequences
  import opened Accounts
  import opened Chain
  import opened Ledger

  function Total(accounts: seq<AccountState>): int {
    Sum(Money, accounts)
  }

  /** The credit a command asks for, granted or not. */
  function AttemptedCredit(cmd: LedgerCommand): int {
    if cmd.commandType == CreditInternalBalance then CreditAmount(cmd) else 0
  }

  /** What a command adds to the ledger's total when it succeeds. */
  function Inflow(cmd: LedgerCommand): int {
    if IsBalanceCommand(cmd.commandType) then NetInflow(OperationOf(cmd.commandType), AmountOf(cmd)) else 0
  }

  lemma TotalBounds(accounts: seq<AccountState>, i: nat)
    requires i < |accounts|
    ensures 0 <= Money(accounts[i]) <= Total(accounts)
  {
    SumAtLeast(Money, accounts, i);
  }

  lemma CreatedTotal(accounts: seq<AccountState>, id: Text)
    ensures Total(GetOrCreate(accounts, id).0) == Total(accounts)
  {
    SumAppend(Money, accounts, [NewAccount(id)]);
  }

  /** One operation on one account, seen from the total. */
  lemma OperateTotal(accounts: seq<AccountState>, id: Text, op: BalanceOperation, amount: u64)
    ensures var (created, i) := GetOrCreate(accounts, id);
      var (after, r) := OperateOn(accounts, id, op, amount);
      && (r.Ok? ==> Total(after) == Total(accounts) + NetInflow(op, amount))
      && (r.Err? ==> Total(after) == Total(accounts) - (if SecondLegOverflows(created[i], op, amount) then amount else 0))
      && (r.Err? && !SecondLegOverflows(created[i], op, amount) ==> after == created)
      && (IsOverflow(r) || SecondLegOverflows(created[i], op, amount) ==> Total(accounts) + amount > U64_MAX)
  {
    var (created, i) := GetOrCreate(accounts, id);
    CreatedTotal(accounts, id);
    OperationMoves(created[i], op, amount);
    SumUpdate(Money, created, i, ApplyOperation(created[i], op, amount).0);
    TotalBounds(created, i);
    assert created == created[i := created[i]];
  }

  // ---------------------------------------------------------------- rejected commands

  /** The guard of the branches in which a rejected command has already taken money out: the second
      leg of a reserve or release, or the credit leg of a transfer, does not fit a u64. */
  predicate DestroysMoney(env: Env, s: LedgerState, cmd: LedgerCommand) {
    if IsBalanceCommand(cmd.commandType) then
      ValidateBalance(s, cmd).Ok? &&
      var (created, i) := GetOrCreate(s.accounts, cmd.partitionKey);
      SecondLegOverflows(created[i], OperationOf(cmd.commandType), AmountOf(cmd))
    else
      && cmd.commandType == CommitInternalTransfer && SplitTransfer(cmd.partitionKey).Some?
      && Strands(s.accounts, SplitTransfer(cmd.partitionKey).value, Amount(cmd))
  }

  /** The debit leg of a transfer goes through and the credit leg does not fit. */
  predicate Strands(accounts: seq<AccountState>, p: TransferParts, amount: u64) {
    var (created, i) := GetOrCreate(accounts, p.source);
    var (dests, j) := GetOrCreate(created, p.dest);
    && p.source != p.dest
    && amount <= created[i].availableSats
    && dests[j].availableSats + amount > U64_MAX
  }

  lemma TransferTotal(accounts: seq<AccountState>, p: TransferParts, amount: u64)
    ensures var (created, i) := GetOrCreate(accounts, p.source);
      var stuck := Strands(accounts, p, amount);
      var (after, r) := Transfer(accounts, p, amount);
      && (r.Ok? ==> Total(after) == Total(accounts))
      && (r.Err? ==> Total(after) == Total(accounts) - (if stuck then amount else 0))
      && (stuck ==> r.Err? && Total(accounts) + amount > U64_MAX)
      && (IsOverflow(r) ==> stuck)
      && (r.Err? && !stuck ==> after == created)
  {
    var (created, i) := GetOrCreate(accounts, p.source);
    var (debited, r) := OperateOn(accounts, p.source, Debit, amount);
    OperateTotal(accounts, p.source, Debit, amount);
    if r.Ok? {
      OperateTotal(debited, p.dest, Credit, amount);
      DebitedFind(accounts, p.source, p.dest, amount);
      if p.dest != p.source {
        var (dests, j) := GetOrCreate(created, p.dest);
        TotalBounds(dests, j);
        CreatedTotal(accounts, p.source);
        CreatedTotal(created, p.dest);
      }
    }
  }

  /** Debiting one account does not move or change any other. */
  lemma DebitedFind(accounts: seq<AccountState>, source: Text, dest: Text, amount: u64)
    requires OperateOn(accounts, source, Debit, amount).1.Ok?
    ensures var (created, i) := GetOrCreate(accounts, source);
      var (debited, _) := OperateOn(accounts, source, Debit, amount);
      && FindAccount(debited, dest) == FindAccount(created, dest)
      && (dest == source ==> FindAccount(debited, dest) == Some(i) && debited[i].availableSats == created[i].availableSats - amount)
      && (dest != source ==> FindAccount(debited, dest).Some? ==> debited[FindAccount(debited, dest).value] == created[FindAccount(debited, dest).value])
  {
    var (created, i) := GetOrCreate(accounts, source);
    var (debited, _) := OperateOn(accounts, source, Debit, amount);
    assert forall k :: 0 <= k < |created| ==> debited[k].accountId == created[k].accountId;
    assert FindAccount(created, source) == Some(i);
  }

  /** What a rejected command leaves behind: less money exactly when it `destroys`, and otherwise the
      same state but for at most one new empty account. */
  ghost predicate Rejection<T>(s: LedgerState, t: LedgerState, r: Result<T>, destroys: bool) {
    && (destroys ==> r.Err?)
    && (r.Err? ==> (Total(t.accounts) == Total(s.accounts) <==> !destroys))
    && (r.Err? && !destroys ==> OneEmptyAccountMore(s, t))
  }

  lemma BalanceRejection(s: LedgerState, cmd: LedgerCommand)
    requires IsBalanceCommand(cmd.commandType)
    ensures var (created, i) := GetOrCreate(s.accounts, cmd.partitionKey);
      var (t, r) := EffectBalance(s, cmd);
      Rejection(s, t, r, SecondLegOverflows(created[i], OperationOf(cmd.commandType), AmountOf(cmd)))
  {
    OperateTotal(s.accounts, cmd.partitionKey, OperationOf(cmd.commandType), AmountOf(cmd));
    CreatedAccounts(s, cmd.partitionKey);
  }

  lemma TransferRejection(s: LedgerState, cmd: LedgerCommand)
    ensures var parts := SplitTransfer(cmd.partitionKey);
      var (t, r) := EffectTransfer(s, cmd);
      Rejection(s, t, r, parts.Some? && Strands(s.accounts, parts.value, Amount(cmd)))
  {
    var parts := SplitTransfer(cmd.partitionKey);
    if parts.Some? {
      TransferTotal(s.accounts, parts.value, Amount(cmd));
      CreatedAccounts(s, parts.value.source);
    }
  }

  /** UTXO commands never touch an account, and change nothing when they fail. */
  lemma UtxoRejection(env: Env, s: LedgerState, cmd: LedgerCommand)
    requires IsUtxoCommand(cmd.commandType)
    ensures var (t, r) := EffectUtxo(env, s, cmd);
      t.accounts == s.accounts && Rejection(s, t, r, false)
  {
  }

  /** A command that is rejected loses money exactly when it overflows on its second leg.  Otherwise
      it changes nothing but, at most, leave one empty account behind. */
  lemma RejectionExact(env: Env, s: LedgerState, cmd: LedgerCommand)
    ensures var (t, r) := Transition(env, s, cmd); Rejection(s, t, r, DestroysMoney(env, s, cmd))
  {
    if IsBalanceCommand(cmd.commandType) {
      BalanceRejection(s, cmd);
    } else if IsUtxoCommand(cmd.commandType) {
      UtxoRejection(env, s, cmd);
    } else if cmd.commandType == CommitInternalTransfer {
      TransferRejection(s, cmd);
    }
  }

  ghost predicate OneEmptyAccountMore(s: LedgerState, t: LedgerState) {
    t == s || exists id: Text :: FindAccount(s.accounts, id).None? && t == s.(accounts := s.accounts + [NewAccount(id)])
  }

  lemma CreatedAccounts(s: LedgerState, id: Text)
    ensures OneEmptyAccountMore(s, s.(accounts := GetOrCreate(s.accounts, id).0))
  {
  }

  /** Account `a` with `from` satoshis and account `b` with `to`, and nothing else. */
  function TwoAccounts(from: u64, to: u64): LedgerState {
    LedgerState(2, [AccountState([97], 1, from, 0, 0, 0, 0), AccountState([98], 1, to, 0, 0, 0, 0)],
      [], [], [], MembershipView([], [], Single), [])
  }

  /** A transfer from `a` to `b`. */
  function TransferAToB(amount: u64): LedgerCommand
    requires |Decimal(amount)| < U64_SIZE
  {
    LedgerCommand([], CommitInternalTransfer, [97, BAR, 98], None, [], Decimal(amount), 0, 0)
  }

  /** A rejected transfer can destroy what it debited. */
  lemma RejectedTransferDestroysMoney(env: Env)
    ensures Decimal(1) == [49]
    ensures var s := TwoAccounts(1, U64_MAX);
      var (t, r) := Transition(env, s, TransferAToB(1)); r.Err? && Total(t.accounts) < Total(s.accounts)
  {
    assert Decimal(1) == [49];
    StrandedTransfer(env, TwoAccounts(1, U64_MAX), TransferAToB(1), 1);
  }

  /** A transfer between the two that strands its amount is rejected, and the amount is gone. */
  lemma StrandedTransfer(env: Env, s: LedgerState, cmd: LedgerCommand, amount: u64)
    requires cmd.commandType == CommitInternalTransfer
    requires cmd.partitionKey == [97, BAR, 98] && cmd.authorizationCommitment == Decimal(amount)
    requires |s.accounts| == 2 && s.accounts[0].accountId == [97] && s.accounts[1].accountId == [98]
    requires amount <= s.accounts[0].availableSats && s.accounts[1].availableSats + amount > U64_MAX
    ensures DestroysMoney(env, s, cmd) && Amount(cmd) == amount
    ensures var (t, r) := Transition(env, s, cmd); r.Err? && Total(t.accounts) == Total(s.accounts) - amount
  {
    ParsedTransfer(cmd, amount);
    StrandsBetween(s.accounts, amount);
    TransferTotal(s.accounts, TransferParts([97], [98]), amount);
  }

  lemma {:induction false} ParsedTransfer(cmd: LedgerCommand, amount: u64)
    requires cmd.partitionKey == [97, BAR, 98] && cmd.authorizationCommitment == Decimal(amount)
    ensures SplitTransfer(cmd.partitionKey) == Some(TransferParts([97], [98])) && Amount(cmd) == amount
  {
    var key := cmd.partitionKey;
    DelimitedEqual(SplitOnce(key, BAR).value.0, SplitOnce(key, BAR).value.1, [97], [98], BAR);
    ParseDecimal(amount, U64_SIZE);
  }

  lemma StrandsBetween(accounts: seq<AccountState>, amount: u64)
    requires |accounts| == 2 && accounts[0].accountId == [97] && accounts[1].accountId == [98]
    requires amount <= accounts[0].availableSats && accounts[1].availableSats + amount > U64_MAX
    ensures Strands(accounts, TransferParts([97], [98]), amount)
  {
    assert accounts[0].accountId[0] != accounts[1].accountId[0];
    assert FindAccount(accounts, [97]) == Some(0);
    assert FindAccount(accounts, [98]) == Some(1);
  }

  // ---------------------------------------------------------------- one command, and whole logs

  lemma BalanceConservation(s: LedgerState, cmd: LedgerCommand)
    requires IsBalanceCommand(cmd.commandType)
    requires Total(s.accounts) + AttemptedCredit(cmd) <= U64_MAX
    ensures var (created, i) := GetOrCreate(s.accounts, cmd.partitionKey);
      var (t, r) := EffectBalance(s, cmd);
      && !IsOverflow(r)
      && !SecondLegOverflows(created[i], OperationOf(cmd.commandType), AmountOf(cmd))
      && Total(t.accounts) == Total(s.accounts) + (if r.Ok? then Inflow(cmd) else 0)
  {
    OperateTotal(s.accounts, cmd.partitionKey, OperationOf(cmd.commandType), AmountOf(cmd));
    NoBalanceOverflow(s.accounts, cmd.partitionKey, OperationOf(cmd.commandType), AmountOf(cmd));
  }

  lemma TransferConservation(s: LedgerState, cmd: LedgerCommand)
    requires Total(s.accounts) <= U64_MAX
    ensures var parts := SplitTransfer(cmd.partitionKey);
      var (t, r) := EffectTransfer(s, cmd);
      && !IsOverflow(r)
      && (parts.Some? ==> !Strands(s.accounts, parts.value, Amount(cmd)))
      && Total(t.accounts) == Total(s.accounts)
  {
    var parts := SplitTransfer(cmd.partitionKey);
    if parts.Some? {
      TransferTotal(s.accounts, parts.value, Amount(cmd));
      NoTransferOverflow(s.accounts, parts.value, Amount(cmd));
    }
  }

  /** With room for the attempted credit no command overflows, and the total moves by exactly what the
      command's success promises. */
  lemma StepConservation(env: Env, s: LedgerState, cmd: LedgerCommand)
    requires Total(s.accounts) + AttemptedCredit(cmd) <= U64_MAX
    ensures var (t, r) := Transition(env, s, cmd);
      && !IsOverflow(r)
      && !DestroysMoney(env, s, cmd)
      && Total(t.accounts) == Total(s.accounts) + (if r.Ok? then Inflow(cmd) else 0)
  {
    if IsBalanceCommand(cmd.commandType) {
      BalanceConservation(s, cmd);
    } else if IsUtxoCommand(cmd.commandType) {
      NoUtxoOverflow(env, s, cmd);
      UtxoRejection(env, s, cmd);
    } else if cmd.commandType == CommitInternalTransfer {
      TransferConservation(s, cmd);
    }
  }

  lemma NoBalanceOverflow(accounts: seq<AccountState>, id: Text, op: BalanceOperation, amount: u64)
    requires Total(accounts) + (if op == Credit then amount else 0) <= U64_MAX
    ensures var (created, i) := GetOrCreate(accounts, id);
      !IsOverflow(OperateOn(accounts, id, op, amount).1) && !SecondLegOverflows(created[i], op, amount)
  {
    var (created, i) := GetOrCreate(accounts, id);
    CreatedTotal(accounts, id);
    TotalBounds(created, i);
  }

  lemma NoTransferOverflow(accounts: seq<AccountState>, p: TransferParts, amount: u64)
    requires Total(accounts) <= U64_MAX
    ensures !Strands(accounts, p, amount)
  {
    var (created, i) := GetOrCreate(accounts, p.source);
    var (dests, j) := GetOrCreate(created, p.dest);
    CreatedTotal(accounts, p.source);
    CreatedTotal(created, p.dest);
    if p.source != p.dest {
      assert dests[i] == created[i];
      SumWithout(Money, dests, i);
      var j' := if j < i then j else j - 1;
      assert Without(dests, i)[j'] == dests[j];
      SumAtLeast(Money, Without(dests, i), j');
    }
  }

  lemma NoUtxoOverflow(env: Env, s: LedgerState, cmd: LedgerCommand)
    requires IsUtxoCommand(cmd.commandType)
    ensures !IsOverflow(ValidateUtxo(env, s, cmd)) && !IsOverflow(EffectUtxo(env, s, cmd).1)
  {
    NoDecodeOverflow(env, cmd);
    var decoded := DecodeStep(env, cmd);
    if decoded.Ok? {
      NoStepOverflow(s.utxos, decoded.value);
    }
  }

  lemma NoDecodeOverflow(env: Env, cmd: LedgerCommand)
    requires IsUtxoCommand(cmd.commandType)
    ensures !IsOverflow(DecodeStep(env, cmd))
  {
  }

  lemma NoStepOverflow(utxos: seq<UtxoEntry>, step: UtxoStep)
    ensures !IsOverflow(StepUtxos(utxos, step).1)
  {
  }

  /** Successful credits minus successful debits over a log. */
  function NetMoved(env: Env, s: LedgerState, cmds: seq<LedgerCommand>): int {
    if |cmds| == 0 then 0
    else
      var n := |cmds| - 1;
      NetMoved(env, s, cmds[..n]) + (if RunResult(env, s, cmds, n).Ok? then Inflow(cmds[n]) else 0)
  }

  lemma {:induction false} AttemptsUpTo(cmds: seq<LedgerCommand>, i: nat)
    requires i < |cmds|
    ensures Sum(AttemptedCredit, cmds[..i]) + AttemptedCredit(cmds[i]) <= Sum(AttemptedCredit, cmds)
    ensures Sum(AttemptedCredit, cmds[..i + 1]) == Sum(AttemptedCredit, cmds[..i]) + AttemptedCredit(cmds[i])
  {
    SumAround(AttemptedCredit, cmds, i);
    SumNonNegative(AttemptedCredit, cmds[i + 1..]);
  }

  lemma {:induction false} RunTotal(env: Env, s: LedgerState, cmds: seq<LedgerCommand>)
    requires Total(s.accounts) + Sum(AttemptedCredit, cmds) <= U64_MAX
    ensures Total(RunState(env, s, cmds).accounts) == Total(s.accounts) + NetMoved(env, s, cmds)
    ensures Total(RunState(env, s, cmds).accounts) <= Total(s.accounts) + Sum(AttemptedCredit, cmds)
  {
    if |cmds| > 0 {
      var n := |cmds| - 1;
      assert cmds[..n + 1] == cmds;
      AttemptsUpTo(cmds, n);
      SumNonNegative(AttemptedCredit, cmds[..n]);
      RunTotal(env, s, cmds[..n]);
      StepConservation(env, RunState(env, s, cmds[..n]), cmds[n]);
    }
  }

  /** The command at position `i` did not overflow and, if rejected, left at most an empty account. */
  ghost predicate CleanStep(env: Env, s: LedgerState, cmds: seq<LedgerCommand>, i: nat)
    requires i < |cmds|
  {
    var before := RunState(env, s, cmds[..i]);
    && !IsOverflow(RunResult(env, s, cmds, i))
    && (RunResult(env, s, cmds, i).Err? ==> OneEmptyAccountMore(before, Transition(env, before, cmds[i]).0))
  }

  /** Conservation over any log whose starting total plus all attempted credits fits a u64: no command
      overflows, every rejected command leaves the accounts as they were but for at most one new empty
      one, and the final total is the start plus successful credits minus successful debits. */
  lemma RunConservation(env: Env, s: LedgerState, cmds: seq<LedgerCommand>)
    requires Total(s.accounts) + Sum(AttemptedCredit, cmds) <= U64_MAX
    ensures Total(RunState(env, s, cmds).accounts) == Total(s.accounts) + NetMoved(env, s, cmds)
    ensures forall i :: 0 <= i < |cmds| ==> CleanStep(env, s, cmds, i)
  {
    RunTotal(env, s, cmds);
    forall i | 0 <= i < |cmds|
      ensures CleanStep(env, s, cmds, i)
    {
      AttemptsUpTo(cmds, i);
      SumNonNegative(AttemptedCredit, cmds[..i]);
      RunTotal(env, s, cmds[..i]);
      StepConservation(env, RunState(env, s, cmds[..i]), cmds[i]);
      RejectionExact(env, RunState(env, s, cmds[..i]), cmds[i]);
    }
  }
}
