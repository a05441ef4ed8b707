/** Reconciliation of on-chain assets against liabilities, and the withdrawal gate behind it
    (reconciliation.rs, gates.rs). */
module Reconciliation {
  import opened Binary
  import opened LedgerTypes
  import opened Sequences
  import opened Accounts
  import opened Chain
  import opened Ledger
  import opened StateRoot
  import opened Reorgs
  import opened Conservation

  function Min(a: int, b: int): int {
    if a <= b then a else b
  }

  /** `fold(0u64, u64::saturating_add)`. */
  function SaturatingSum(s: seq<u64>): u64 {
    if |s| == 0 then 0 else SaturatingAdd(SaturatingSum(s[..|s| - 1]), s[|s| - 1])
  }

  function Live(u: UtxoEntry): bool {
    !IsTerminal(u.state)
  }

  function SatsOf(u: UtxoEntry): u64 {
    u.valueSats
  }

  /** What one account is owed, as the engine adds it up. */
  function OwedTo(a: AccountState): u64 {
    SaturatingAdd(SaturatingAdd(a.availableSats, a.reservedSats), a.pendingOutgoingSats)
  }

  function ReservedOf(a: AccountState): u64 {
    a.reservedSats
  }

  function PendingOf(a: AccountState): u64 {
    a.pendingOutgoingSats
  }

  function TotalAssets(s: LedgerState): u64 {
    SaturatingSum(Map(SatsOf, Filter(Live, s.utxos)))
  }

  function TotalLiabilities(s: LedgerState): u64 {
    SaturatingSum(Map(OwedTo, s.accounts))
  }

  function TotalReserved(s: LedgerState): u64 {
    SaturatingSum(Map(ReservedOf, s.accounts))
  }

  function TotalPending(s: LedgerState): u64 {
    SaturatingSum(Map(PendingOf, s.accounts))
  }

  /** A tenth of a percent of the assets, and at least 1000 satoshis. */
  function WarningTolerance(assets: nat): (r: nat)
    ensures r >= 1000 && r >= assets / 1000 && (r == 1000 || r == assets / 1000)
  {
    if assets / 1000 < 1000 then 1000 else assets / 1000
  }

  datatype ReconciliationStatus = Balanced | Warning | Deficit | Surplus | IncompleteChainData

  datatype ReconciliationReport = ReconciliationReport(
    stateRoot: Bytes,
    chainTipHash: Text,
    totalAssetsSats: u64,
    totalLiabilitiesSats: u64,
    totalReservedSats: u64,
    totalPendingSats: u64,
    differenceSats: int,
    status: ReconciliationStatus)

  function StatusOf(difference: int, tolerance: nat, complete: bool): ReconciliationStatus {
    var magnitude := if difference < 0 then -difference else difference;
    if !complete then IncompleteChainData
    else if difference == 0 then Balanced
    else if difference > 0 && magnitude <= tolerance then Balanced
    else if difference < 0 && magnitude <= tolerance then Warning
    else if difference > 0 then Surplus
    else Deficit
  }

  /** `reconcile`. */
  function Reconcile(sha: Bytes -> Digest, s: LedgerState, chainTip: Text, complete: bool): ReconciliationReport {
    var difference := TotalAssets(s) - TotalLiabilities(s);
    ReconciliationReport(Root(sha, s), chainTip, TotalAssets(s), TotalLiabilities(s), TotalReserved(s), TotalPending(s),
      difference, StatusOf(difference, WarningTolerance(TotalAssets(s)), complete))
  }

  // ---------------------------------------------------------------- the gate

  datatype SyncStatus = Healthy | CatchingUp | SnapshotRequired | Diverged | Quarantined

  datatype ReplicationStatus = ReplicationStatus(committedSequence: u64, appliedSequence: u64, syncStatus: SyncStatus)

  datatype LedgerMetrics = LedgerMetrics(sequenceLag: u64, quorumUnavailableTotal: u64)

  datatype BlockReason = NotHealthy | Lagging | InDeficit | IncompleteData | QuorumUnavailable

  datatype GateResult = GateResult(allowed: bool, reasons: seq<BlockReason>)

  predicate QuorumSeemsLost(metrics: LedgerMetrics, status: ReplicationStatus) {
    status.committedSequence == 0 && status.appliedSequence == 0 && metrics.quorumUnavailableTotal > 0
  }

  /** The conditions that have nothing to do with the books. */
  predicate Operational(metrics: LedgerMetrics, status: ReplicationStatus) {
    status.syncStatus == Healthy && metrics.sequenceLag == 0 && !QuorumSeemsLost(metrics, status)
  }

  function WithdrawalReasons(metrics: LedgerMetrics, report: ReconciliationReport, status: ReplicationStatus): seq<BlockReason> {
    (if status.syncStatus != Healthy then [NotHealthy] else [])
    + (if metrics.sequenceLag > 0 then [Lagging] else [])
    + (if report.status == Deficit then [InDeficit] else if report.status == IncompleteChainData then [IncompleteData] else [])
    + (if QuorumSeemsLost(metrics, status) then [QuorumUnavailable] else [])
  }

  /** `can_authorize_withdrawals` is fail-closed: it allows exactly when no condition objects, and
      otherwise lists every objection in order. */
  method CanAuthorizeWithdrawals(metrics: LedgerMetrics, report: ReconciliationReport, status: ReplicationStatus)
      returns (r: GateResult)
    ensures r.reasons == WithdrawalReasons(metrics, report, status)
    ensures r.allowed <==> r.reasons == []
    ensures r.allowed <==> Operational(metrics, status) && report.status != Deficit && report.status != IncompleteChainData
  {
    var reasons: seq<BlockReason> := [];
    if status.syncStatus != Healthy {
      reasons := reasons + [NotHealthy];
    }
    if metrics.sequenceLag > 0 {
      reasons := reasons + [Lagging];
    }
    match report.status {
      case Deficit => reasons := reasons + [InDeficit];
      case IncompleteChainData => reasons := reasons + [IncompleteData];
      case Balanced =>
      case Warning =>
      case Surplus =>
    }
    if status.committedSequence == 0 && status.appliedSequence == 0 && metrics.quorumUnavailableTotal > 0 {
      reasons := reasons + [QuorumUnavailable];
    }
    r := if |reasons| == 0 then GateResult(true, []) else GateResult(false, reasons);
  }

  predicate Allows(metrics: LedgerMetrics, report: ReconciliationReport, status: ReplicationStatus) {
    WithdrawalReasons(metrics, report, status) == []
  }

  // ---------------------------------------------------------------- saturating folds

  function AsInt(n: u64): int {
    n
  }

  /** A saturating fold is the true sum cut off at the largest u64. */
  lemma {:induction false} SaturatingSumExact(s: seq<u64>)
    ensures SaturatingSum(s) == Min(Sum(AsInt, s), U64_MAX)
  {
    if |s| > 0 {
      var n := |s| - 1;
      SaturatingSumExact(s[..n]);
      assert s == s[..n] + [s[n]];
      SumAppend(AsInt, s[..n], [s[n]]);
      SumNonNegative(AsInt, s[..n]);
    }
  }

  lemma {:induction false} SumMapped<T>(f: T -> u64, g: T -> int, s: seq<T>)
    requires forall x :: f(x) <= g(x) && (f(x) < U64_MAX ==> f(x) == g(x))
    ensures Sum(AsInt, Map(f, s)) <= Sum(g, s)
    ensures Min(Sum(AsInt, Map(f, s)), U64_MAX) == Min(Sum(g, s), U64_MAX)
  {
    if |s| > 0 {
      assert Map(f, s)[1..] == Map(f, s[1..]);
      SumMapped(f, g, s[1..]);
      SumNonNegative(g, s[1..]);
      SumNonNegative(AsInt, Map(f, s[1..]));
    }
  }

  lemma {:induction false} SumFiltered(utxos: seq<UtxoEntry>)
    ensures Sum(Value, Filter(Live, utxos)) == Sum(LiveValue, utxos)
  {
    if |utxos| > 0 {
      SumFiltered(utxos[1..]);
      SumAppend(Value, if Live(utxos[0]) then [utxos[0]] else [], Filter(Live, utxos[1..]));
      assert Live(utxos[0]) ==> Sum(Value, [utxos[0]]) == Value(utxos[0]);
    }
  }

  /** What an account is owed, without a bound. */
  function Owed(a: AccountState): int {
    Money(a) + a.pendingOutgoingSats
  }

  function PendingOutgoing(a: AccountState): int {
    a.pendingOutgoingSats
  }

  function ReservedSats(a: AccountState): int {
    a.reservedSats
  }

  function Liabilities(s: LedgerState): int {
    Sum(Owed, s.accounts)
  }

  function Assets(s: LedgerState): (r: int) {
    Sum(LiveValue, s.utxos)
  }

  /** Every reported total is the true total cut off at the largest u64, even though saturation
      happens inside each account as well as across accounts. */
  lemma TotalsExact(s: LedgerState)
    ensures TotalAssets(s) == Min(Assets(s), U64_MAX)
    ensures TotalLiabilities(s) == Min(Liabilities(s), U64_MAX)
    ensures TotalReserved(s) == Min(Sum(ReservedSats, s.accounts), U64_MAX)
    ensures TotalPending(s) == Min(Sum(PendingOutgoing, s.accounts), U64_MAX)
  {
    SaturatingSumExact(Map(SatsOf, Filter(Live, s.utxos)));
    SumMapped(SatsOf, Value, Filter(Live, s.utxos));
    SumFiltered(s.utxos);
    SaturatingSumExact(Map(OwedTo, s.accounts));
    SumMapped(OwedTo, Owed, s.accounts);
    SaturatingSumExact(Map(ReservedOf, s.accounts));
    SumMapped(ReservedOf, ReservedSats, s.accounts);
    SaturatingSumExact(Map(PendingOf, s.accounts));
    SumMapped(PendingOf, PendingOutgoing, s.accounts);
  }

  // ---------------------------------------------------------------- solvency

  predicate Solvent(s: LedgerState) {
    SumNonNegative(LiveValue, s.utxos);
    Liabilities(s) <= Assets(s) + WarningTolerance(Assets(s))
  }

  lemma TotalsNonNegative(s: LedgerState)
    ensures Assets(s) >= 0 && Liabilities(s) >= 0
  {
    SumNonNegative(LiveValue, s.utxos);
    SumNonNegative(Owed, s.accounts);
  }

  lemma AllowsExact(metrics: LedgerMetrics, report: ReconciliationReport, status: ReplicationStatus)
    ensures Allows(metrics, report, status) <==>
      Operational(metrics, status) && report.status != Deficit && report.status != IncompleteChainData
  {
  }

  /** Assets as reported plus the tolerance reach the largest u64, so no reported deficit can exceed it. */
  predicate Blind(assets: nat) {
    var shown := Min(assets, U64_MAX);
    shown + WarningTolerance(shown) >= U64_MAX
  }

  /** Which difference has which status: up to the tolerance a surplus is balanced and a shortfall a
      warning; beyond it they are a surplus and a deficit. */
  lemma StatusLaw(difference: int, tolerance: nat, complete: bool)
    ensures var status := StatusOf(difference, tolerance, complete);
      && (status == IncompleteChainData <==> !complete)
      && (status == Balanced <==> complete && 0 <= difference <= tolerance)
      && (status == Surplus <==> complete && difference > tolerance)
      && (status == Warning <==> complete && 0 - tolerance <= difference < 0)
      && (status == Deficit <==> complete && difference < 0 - tolerance)
  {
  }

  /** The status computed from saturated totals clears true books in order, and any books it is blind to. */
  lemma StatusExact(assets: nat, liabilities: nat, complete: bool)
    ensures var shown := Min(assets, U64_MAX);
      var status := StatusOf(shown - Min(liabilities, U64_MAX), WarningTolerance(shown), complete);
      (status != Deficit && status != IncompleteChainData) <==>
        complete && (liabilities <= assets + WarningTolerance(assets) || Blind(assets))
  {
  }

  /** The gate on any state: it allows a fresh report exactly when the chain data is complete, the node
      is operational, and true liabilities are covered up to the tolerance or the reported assets
      leave no room to show a deficit.  So its verdict is true solvency exactly when the books are
      solvent or the reported assets plus tolerance stay below the largest u64. */
  lemma GateExact(sha: Bytes -> Digest, s: LedgerState, tip: Text, complete: bool, metrics: LedgerMetrics, status: ReplicationStatus)
    ensures Assets(s) >= 0
    ensures Allows(metrics, Reconcile(sha, s, tip, complete), status) <==>
      complete && Operational(metrics, status) && (Solvent(s) || Blind(Assets(s)))
    ensures complete && Operational(metrics, status) ==>
      ((Allows(metrics, Reconcile(sha, s, tip, complete), status) <==> Solvent(s)) <==> (Solvent(s) || !Blind(Assets(s))))
  {
    ReportedDifference(sha, s, tip, complete);
    TotalsNonNegative(s);
    AllowsExact(metrics, Reconcile(sha, s, tip, complete), status);
    StatusExact(Assets(s), Liabilities(s), complete);
  }

  lemma SmallBooksSeen(assets: nat, liabilities: nat)
    requires liabilities <= U64_MAX && Blind(assets)
    ensures liabilities <= assets + WarningTolerance(assets)
  {
  }

  /** In particular the gate decides true solvency whenever the true liabilities fit a u64. */
  lemma SolvencyGate(sha: Bytes -> Digest, s: LedgerState, tip: Text, complete: bool, metrics: LedgerMetrics, status: ReplicationStatus)
    requires Liabilities(s) <= U64_MAX
    ensures Allows(metrics, Reconcile(sha, s, tip, complete), status) <==>
      complete && Operational(metrics, status) && Solvent(s)
  {
    GateExact(sha, s, tip, complete, metrics, status);
    TotalsNonNegative(s);
    if Blind(Assets(s)) {
      SmallBooksSeen(Assets(s), Liabilities(s));
    }
  }

  lemma TwoOwed(a: AccountState, b: AccountState)
    ensures Sum(Owed, [a, b]) == Owed(a) + Owed(b)
  {
    assert [a, b][1..] == [b];
    assert Sum(Owed, [b]) == Owed(b);
  }

  /** Past 2^64 - 1 the gate no longer sees the gap: liabilities of twice the assets pass. */
  lemma SaturationHidesDeficit(sha: Bytes -> Digest) returns (s: LedgerState)
    ensures Assets(s) == U64_MAX && Liabilities(s) == 2 * U64_MAX && !Solvent(s)
    ensures Allows(LedgerMetrics(0, 0), Reconcile(sha, s, [], true), ReplicationStatus(0, 0, Healthy))
  {
    var a, b := NewAccount([97]).(availableSats := U64_MAX), NewAccount([98]).(availableSats := U64_MAX);
    var u := NewSeen(OutPoint([], 0), U64_MAX, [], 0);
    s := LedgerState(0, [a, b], [], [], [], MembershipView([], [], Single), [u]);
    TwoOwed(a, b);
    assert Sum(LiveValue, [u]) == LiveValue(u) + Sum(LiveValue, []);
    GateExact(sha, s, [], true, LedgerMetrics(0, 0), ReplicationStatus(0, 0, Healthy));
  }

  // ---------------------------------------------------------------- the books over commands

  predicate MovesWithin(t: CommandType) {
    t == ReserveBalance || t == ReleaseBalance || t == CommitInternalTransfer
  }

  lemma {:induction false} OwedSplits(accounts: seq<AccountState>)
    ensures Sum(Owed, accounts) == Total(accounts) + Sum(PendingOutgoing, accounts)
  {
    if |accounts| > 0 {
      OwedSplits(accounts[1..]);
    }
  }

  lemma PendingKept(accounts: seq<AccountState>, id: Text, op: BalanceOperation, amount: u64)
    ensures Sum(PendingOutgoing, OperateOn(accounts, id, op, amount).0) == Sum(PendingOutgoing, accounts)
  {
    var (created, i) := GetOrCreate(accounts, id);
    SumAppend(PendingOutgoing, accounts, [NewAccount(id)]);
    OperationMoves(created[i], op, amount);
    SumUpdate(PendingOutgoing, created, i, ApplyOperation(created[i], op, amount).0);
  }

  lemma TransferPending(s: LedgerState, cmd: LedgerCommand)
    ensures Sum(PendingOutgoing, EffectTransfer(s, cmd).0.accounts) == Sum(PendingOutgoing, s.accounts)
  {
    var parts := SplitTransfer(cmd.partitionKey);
    if parts.Some? {
      PendingKept(s.accounts, parts.value.source, Debit, Amount(cmd));
      PendingKept(OperateOn(s.accounts, parts.value.source, Debit, Amount(cmd)).0, parts.value.dest, Credit, Amount(cmd));
    }
  }

  lemma BalancePending(s: LedgerState, cmd: LedgerCommand)
    requires IsBalanceCommand(cmd.commandType)
    ensures Sum(PendingOutgoing, EffectBalance(s, cmd).0.accounts) == Sum(PendingOutgoing, s.accounts)
  {
    PendingKept(s.accounts, cmd.partitionKey, OperationOf(cmd.commandType), AmountOf(cmd));
  }

  /** No command changes what is pending to leave. */
  lemma TransitionPending(env: Env, s: LedgerState, cmd: LedgerCommand)
    ensures Sum(PendingOutgoing, Transition(env, s, cmd).0.accounts) == Sum(PendingOutgoing, s.accounts)
  {
    if IsBalanceCommand(cmd.commandType) {
      BalancePending(s, cmd);
    } else if IsUtxoCommand(cmd.commandType) {
      UtxoRejection(env, s, cmd);
    } else if cmd.commandType == CommitInternalTransfer {
      TransferPending(s, cmd);
    }
  }

  lemma TransitionKeepsUtxos(env: Env, s: LedgerState, cmd: LedgerCommand)
    requires MovesWithin(cmd.commandType)
    ensures Transition(env, s, cmd).0.utxos == s.utxos
  {
  }

  lemma BalanceMove(s: LedgerState, cmd: LedgerCommand)
    requires cmd.commandType == ReserveBalance || cmd.commandType == ReleaseBalance
    ensures var (created, i) := GetOrCreate(s.accounts, cmd.partitionKey);
      var destroys := SecondLegOverflows(created[i], OperationOf(cmd.commandType), Amount(cmd));
      && Total(EffectBalance(s, cmd).0.accounts) == Total(s.accounts) - (if destroys then Amount(cmd) else 0)
      && (destroys ==> EffectBalance(s, cmd).1.Err? && Total(s.accounts) > U64_MAX)
  {
    OperateTotal(s.accounts, cmd.partitionKey, OperationOf(cmd.commandType), AmountOf(cmd));
    if Total(s.accounts) <= U64_MAX {
      NoBalanceOverflow(s.accounts, cmd.partitionKey, OperationOf(cmd.commandType), AmountOf(cmd));
    }
  }

  lemma TransferMove(s: LedgerState, cmd: LedgerCommand)
    ensures var parts := SplitTransfer(cmd.partitionKey);
      var destroys := parts.Some? && Strands(s.accounts, parts.value, Amount(cmd));
      && Total(EffectTransfer(s, cmd).0.accounts) == Total(s.accounts) - (if destroys then Amount(cmd) else 0)
      && (destroys ==> Total(s.accounts) > U64_MAX)
  {
    var parts := SplitTransfer(cmd.partitionKey);
    if parts.Some? {
      TransferTotal(s.accounts, parts.value, Amount(cmd));
      if Total(s.accounts) <= U64_MAX {
        NoTransferOverflow(s.accounts, parts.value, Amount(cmd));
      }
    }
  }

  /** What a reserve, release or transfer takes out of the ledger: nothing, or its whole amount. */
  lemma MoveTotal(env: Env, s: LedgerState, cmd: LedgerCommand)
    requires MovesWithin(cmd.commandType)
    ensures Total(Transition(env, s, cmd).0.accounts) == Total(s.accounts) - (if DestroysMoney(env, s, cmd) then Amount(cmd) else 0)
    ensures DestroysMoney(env, s, cmd) ==> Total(s.accounts) > U64_MAX
  {
    if cmd.commandType == CommitInternalTransfer {
      TransferMove(s, cmd);
    } else {
      BalanceMove(s, cmd);
    }
  }

  /** Reserving, releasing and transferring leave the report's difference and status alone, except
      when the command destroys money on its second leg and so brings a saturated total back into
      range. */
  lemma DifferenceExact(env: Env, s: LedgerState, cmd: LedgerCommand, tip: Text, complete: bool)
    requires MovesWithin(cmd.commandType)
    ensures var before := Reconcile(env.sha, s, tip, complete);
      var after := Reconcile(env.sha, Transition(env, s, cmd).0, tip, complete);
      && after.totalAssetsSats == before.totalAssetsSats
      && (after.differenceSats == before.differenceSats <==>
            !(DestroysMoney(env, s, cmd) && Liabilities(s) - Amount(cmd) < U64_MAX))
      && (after.differenceSats == before.differenceSats ==> after.status == before.status)
  {
    MoveBooks(env, s, cmd);
    ReportsCompare(env.sha, s, Transition(env, s, cmd).0, tip, complete, Amount(cmd), DestroysMoney(env, s, cmd));
  }

  lemma ReportsCompare(sha: Bytes -> Digest, s: LedgerState, t: LedgerState, tip: Text, complete: bool, amount: nat, taken: bool)
    requires Assets(t) == Assets(s) && Liabilities(t) == Liabilities(s) - (if taken then amount else 0)
    requires taken ==> Liabilities(s) > U64_MAX
    ensures var before, after := Reconcile(sha, s, tip, complete), Reconcile(sha, t, tip, complete);
      && after.totalAssetsSats == before.totalAssetsSats
      && (after.differenceSats == before.differenceSats <==> !(taken && Liabilities(s) - amount < U64_MAX))
      && (after.differenceSats == before.differenceSats ==> after.status == before.status)
  {
    CutOff(Liabilities(s), amount, taken);
    ReportedDifference(sha, s, tip, complete);
    ReportedDifference(sha, t, tip, complete);
  }

  lemma CutOff(total: int, amount: nat, taken: bool)
    requires taken ==> total > U64_MAX
    ensures Min(total - (if taken then amount else 0), U64_MAX) == Min(total, U64_MAX) <==> !(taken && total - amount < U64_MAX)
  {
  }

  lemma ReportedDifference(sha: Bytes -> Digest, s: LedgerState, tip: Text, complete: bool)
    ensures var report := Reconcile(sha, s, tip, complete);
      && report.totalAssetsSats == Min(Assets(s), U64_MAX)
      && report.differenceSats == Min(Assets(s), U64_MAX) - Min(Liabilities(s), U64_MAX)
      && report.status == StatusOf(report.differenceSats, WarningTolerance(report.totalAssetsSats), complete)
  {
    TotalsExact(s);
  }

  lemma MoveBooks(env: Env, s: LedgerState, cmd: LedgerCommand)
    requires MovesWithin(cmd.commandType)
    ensures var t := Transition(env, s, cmd).0;
      && Assets(t) == Assets(s)
      && Liabilities(t) == Liabilities(s) - (if DestroysMoney(env, s, cmd) then Amount(cmd) else 0)
      && (DestroysMoney(env, s, cmd) ==> Liabilities(s) > U64_MAX)
  {
    TransitionKeepsUtxos(env, s, cmd);
    MoveTotal(env, s, cmd);
    TransitionPending(env, s, cmd);
    OwedSplits(s.accounts);
    OwedSplits(Transition(env, s, cmd).0.accounts);
    SumNonNegative(PendingOutgoing, s.accounts);
  }

  /** Ten satoshis sent from `a` to an account five short of the largest u64 are lost, and the report,
      which was saturated, moves by five. */
  lemma StrandedTransferShows(env: Env, tip: Text)
    ensures Decimal(10) == [49, 48]
    ensures var s := TwoAccounts(10, U64_MAX - 5);
      var t := Transition(env, s, TransferAToB(10)).0;
      && Liabilities(s) == U64_MAX + 5
      && Reconcile(env.sha, t, tip, true).differenceSats != Reconcile(env.sha, s, tip, true).differenceSats
  {
    assert Decimal(1) == [49];
    assert Decimal(10) == [49, 48];
    var s, cmd := TwoAccounts(10, U64_MAX - 5), TransferAToB(10);
    TwoOwed(s.accounts[0], s.accounts[1]);
    StrandedTransfer(env, s, cmd, 10);
    DifferenceExact(env, s, cmd, tip, true);
  }

  lemma {:induction false} RunPending(env: Env, s: LedgerState, cmds: seq<LedgerCommand>)
    ensures Sum(PendingOutgoing, RunState(env, s, cmds).accounts) == Sum(PendingOutgoing, s.accounts)
  {
    if |cmds| > 0 {
      var n := |cmds| - 1;
      RunPending(env, s, cmds[..n]);
      TransitionPending(env, RunState(env, s, cmds[..n]), cmds[n]);
    }
  }

  /** Over any log whose starting liabilities plus attempted credits fit a u64, the liabilities the
      report shows are the starting ones plus successful credits minus successful debits, and the
      gate's verdict afterwards is true solvency. */
  lemma RunSolvency(env: Env, s: LedgerState, cmds: seq<LedgerCommand>, tip: Text, metrics: LedgerMetrics, status: ReplicationStatus)
    requires Liabilities(s) + Sum(AttemptedCredit, cmds) <= U64_MAX
    ensures var t := RunState(env, s, cmds);
      && TotalLiabilities(t) == Liabilities(s) + NetMoved(env, s, cmds)
      && (Allows(metrics, Reconcile(env.sha, t, tip, true), status) <==> Operational(metrics, status) && Solvent(t))
  {
    var t := RunState(env, s, cmds);
    OwedSplits(s.accounts);
    OwedSplits(t.accounts);
    SumNonNegative(PendingOutgoing, s.accounts);
    RunTotal(env, s, cmds);
    RunPending(env, s, cmds);
    TotalsExact(t);
    SolvencyGate(env.sha, t, tip, true, metrics, status);
  }
}
