/** The replicated ledger's state and its deterministic transition (state_machine.rs), without the
    state roots. */
module Ledger {
  import opened Binary
  import opened LedgerTypes
  import opened Sequences
  import opened Accounts
  import opened Chain
  import opened JournalEntries

  datatype CommandType =
    | CreditInternalBalance | DebitInternalBalance | ReserveBalance | ReleaseBalance
    | CommitInternalTransfer
    | DetectUtxo | ConfirmUtxo | MarkUtxoSpendable | ReserveUtxoFor | ReleaseUtxoOf | MarkUtxoSpent
    | PrepareWithdrawal | AuthorizeWithdrawal | BroadcastWithdrawal | ConfirmWithdrawal | FailWithdrawal
    | ApplyChainReorganization
    | ConsumeIntent | ExpireIntent
    | AddObserverNode | PromoteVotingNode | RemoveNode
    | InstallSnapshot

  datatype LedgerCommand = LedgerCommand(
    commandId: Text,
    commandType: CommandType,
    partitionKey: Text,
    expectedVersion: Option<u64>,
    payloadHash: Text,
    authorizationCommitment: Text,
    epoch: u64,
    createdAtBucket: u64)

  datatype ConsensusProfile = Single | HaCrash | BftF1 | BftF2

  datatype MembershipView = MembershipView(clusterId: Text, nodes: seq<Text>, activeProfile: ConsensusProfile)

  datatype ReservationState = Prepared | Committed | Consumed | Released | Expired

  datatype Reservation = Reservation(
    reservationId: Text,
    accountId: Text,
    amountSats: u64,
    state: ReservationState,
    createdAtBucket: u64,
    expiresAtBucket: u64,
    committedSequence: u64,
    authorizationCommitment: Text)

  datatype LedgerState = LedgerState(
    version: u64,
    accounts: seq<AccountState>,
    journal: seq<JournalEntry>,
    reservations: seq<Reservation>,
    consumedIntents: seq<Text>,
    membership: MembershipView,
    utxos: seq<UtxoEntry>)

  /** The functions the state machine calls and this model leaves open: the hash, and the JSON
      decoders of the two structured payloads. */
  datatype Env = Env(
    sha: Bytes -> Digest,
    decodeDetect: Bytes -> Option<DetectUtxoPayload>,
    decodeReorg: Bytes -> Option<ReorgPayload>)

  // ---------------------------------------------------------------- accounts

  function FindAccount(accounts: seq<AccountState>, id: Text): (r: Option<nat>)
    ensures r.Some? ==> r.value < |accounts| && accounts[r.value].accountId == id
    ensures r.Some? ==> forall k :: 0 <= k < r.value ==> accounts[k].accountId != id
    ensures r.None? <==> forall k :: 0 <= k < |accounts| ==> accounts[k].accountId != id
  {
    if |accounts| == 0 then None
    else if accounts[0].accountId == id then Some(0)
    else
      assert forall k :: 0 < k < |accounts| ==> accounts[k] == accounts[1..][k - 1];
      match FindAccount(accounts[1..], id)
      case None => None
      case Some(i) => Some(i + 1)
  }

  lemma {:induction false} FindAppended(accounts: seq<AccountState>, a: AccountState, id: Text)
    ensures FindAccount(accounts + [a], id) ==
      if FindAccount(accounts, id).Some? then FindAccount(accounts, id)
      else if a.accountId == id then Some(|accounts|) else None
  {
    var r := FindAccount(accounts + [a], id);
    assert (accounts + [a])[|accounts|] == a;
    assert forall k :: 0 <= k < |accounts| ==> (accounts + [a])[k] == accounts[k];
    if FindAccount(accounts, id).Some? {
      assert (accounts + [a])[FindAccount(accounts, id).value].accountId == id;
    }
  }

  predicate UniqueAccounts(accounts: seq<AccountState>) {
    forall i, j :: 0 <= i < j < |accounts| ==> accounts[i].accountId != accounts[j].accountId
  }

  /** `get_or_create_account`: the accounts afterwards and the position of the one asked for. */
  function GetOrCreate(accounts: seq<AccountState>, id: Text): (r: (seq<AccountState>, nat))
    ensures r.1 < |r.0| && r.0[r.1].accountId == id
  {
    match FindAccount(accounts, id)
    case Some(i) => (accounts, i)
    case None => (accounts + [NewAccount(id)], |accounts|)
  }

  function OperateOn(accounts: seq<AccountState>, id: Text, op: BalanceOperation, amount: u64): (seq<AccountState>, Result<()>) {
    var (created, i) := GetOrCreate(accounts, id);
    var (a, r) := ApplyOperation(created[i], op, amount);
    (created[i := a], r)
  }

  /** The amount travels in the authorization commitment; anything unparsable is zero. */
  function Amount(cmd: LedgerCommand): u64 {
    match ParseU64(cmd.authorizationCommitment)
    case Some(n) => n
    case None => 0
  }

  /** A credit without an expected version credits nothing. */
  function CreditAmount(cmd: LedgerCommand): u64 {
    if cmd.expectedVersion.Some? then Amount(cmd) else 0
  }

  datatype TransferParts = TransferParts(source: Text, dest: Text)

  function SplitTransfer(key: Text): Option<TransferParts> {
    match SplitOnce(key, BAR)
    case None => None
    case Some((s, d)) => Some(TransferParts(s, d))
  }

  function Transfer(accounts: seq<AccountState>, p: TransferParts, amount: u64): (seq<AccountState>, Result<()>) {
    var (debited, r) := OperateOn(accounts, p.source, Debit, amount);
    if r.Err? then (debited, r) else OperateOn(debited, p.dest, Credit, amount)
  }

  // ---------------------------------------------------------------- decoding

  predicate IsBalanceCommand(t: CommandType) {
    t == CreditInternalBalance || t == DebitInternalBalance || t == ReserveBalance || t == ReleaseBalance
  }

  predicate IsUtxoCommand(t: CommandType) {
    t == DetectUtxo || t == ConfirmUtxo || t == MarkUtxoSpendable || t == ReserveUtxoFor ||
    t == ReleaseUtxoOf || t == MarkUtxoSpent || t == ApplyChainReorganization
  }

  function OperationOf(t: CommandType): BalanceOperation
    requires IsBalanceCommand(t)
  {
    match t
    case CreditInternalBalance => Credit
    case DebitInternalBalance => Debit
    case ReserveBalance => Reserve
    case ReleaseBalance => ReleaseReservation
  }

  function AmountOf(cmd: LedgerCommand): u64 {
    if cmd.commandType == CreditInternalBalance then CreditAmount(cmd) else Amount(cmd)
  }

  /** The step a UTXO command asks for. */
  function DecodeStep(env: Env, cmd: LedgerCommand): (r: Result<UtxoStep>)
    requires IsUtxoCommand(cmd.commandType)
    ensures r.Err? ==> r.error == InvalidUtxoData
  {
    if cmd.commandType == ApplyChainReorganization then
      match env.decodeReorg(cmd.authorizationCommitment)
      case None => Err(InvalidUtxoData)
      case Some(payload) => Ok(Reorganize(payload, cmd.createdAtBucket))
    else
      match ParseOutPoint(cmd.partitionKey)
      case Err(e) => Err(e)
      case Ok(op) =>
        match cmd.commandType
        case DetectUtxo =>
          (match env.decodeDetect(cmd.authorizationCommitment)
           case None => Err(InvalidUtxoData)
           case Some(p) => Ok(Detect(op, p.valueSats, p.address, cmd.createdAtBucket)))
        case ConfirmUtxo =>
          (match ParseU64(cmd.authorizationCommitment)
           case None => Err(InvalidUtxoData)
           case Some(height) => Ok(Confirm(op, height, cmd.createdAtBucket)))
        case MarkUtxoSpendable => Ok(MarkSpendable(op))
        case ReserveUtxoFor => Ok(ReserveUtxo(op, cmd.authorizationCommitment, cmd.createdAtBucket))
        case ReleaseUtxoOf => Ok(ReleaseUtxo(op))
        case _ =>
          Ok(MarkSpent(op, if |cmd.authorizationCommitment| == 0 then None else Some(cmd.authorizationCommitment),
                       cmd.createdAtBucket))
  }

  // ---------------------------------------------------------------- validation

  function CheckVersion(a: AccountState, expected: u64): Result<()> {
    if a.version != expected then Err(VersionConflict(a.accountId, expected, a.version)) else Ok(())
  }

  /** `validate_credit`, `validate_debit`, `validate_reserve` and `validate_release_reservation`. */
  function ValidateBalance(s: LedgerState, cmd: LedgerCommand): Result<()>
    requires IsBalanceCommand(cmd.commandType)
  {
    match FindAccount(s.accounts, cmd.partitionKey)
    case Some(i) =>
      if cmd.expectedVersion.Some? then CheckVersion(s.accounts[i], cmd.expectedVersion.value) else Ok(())
    case None =>
      if cmd.commandType == CreditInternalBalance then
        if cmd.expectedVersion.Some? && cmd.expectedVersion.value != 0 then
          Err(VersionConflict(cmd.partitionKey, cmd.expectedVersion.value, 0))
        else Ok(())
      else if cmd.commandType == ReleaseBalance then
        if cmd.expectedVersion.Some? then Err(VersionConflict(cmd.partitionKey, cmd.expectedVersion.value, 0)) else Ok(())
      else
        Err(VersionConflict(cmd.partitionKey, if cmd.expectedVersion.Some? then cmd.expectedVersion.value else 0, 0))
  }

  /** The checks on a decoded step that the step itself does not make. */
  predicate WellFormedStep(step: UtxoStep) {
    && (step.Detect? ==> step.valueSats > 0 && |step.address| > 0)
    && (step.ReserveUtxo? ==> |step.holder| > 0)
  }

  function ValidateUtxo(env: Env, s: LedgerState, cmd: LedgerCommand): Result<()>
    requires IsUtxoCommand(cmd.commandType)
  {
    match DecodeStep(env, cmd)
    case Err(e) => Err(e)
    case Ok(step) => if !WellFormedStep(step) then Err(InvalidUtxoData) else StepUtxos(s.utxos, step).1
  }

  /** `validate`. */
  function Validate(env: Env, s: LedgerState, cmd: LedgerCommand): Result<()> {
    if IsBalanceCommand(cmd.commandType) then ValidateBalance(s, cmd)
    else if IsUtxoCommand(cmd.commandType) then ValidateUtxo(env, s, cmd)
    else Ok(())
  }

  // ---------------------------------------------------------------- the transition

  function AddOnce(items: seq<Text>, x: Text): seq<Text> {
    if x in items then items else items + [x]
  }

  /** `retain`: everything but `x`. */
  function Remaining(items: seq<Text>, x: Text): seq<Text> {
    Filter(n => n != x, items)
  }

  function EffectBalance(s: LedgerState, cmd: LedgerCommand): (r: (LedgerState, Result<seq<Text>>))
    requires IsBalanceCommand(cmd.commandType)
    ensures r.0 == s.(accounts := r.0.accounts)
  {
    var (accounts, r) := OperateOn(s.accounts, cmd.partitionKey, OperationOf(cmd.commandType), AmountOf(cmd));
    (s.(accounts := accounts), if r.Ok? then Ok([cmd.partitionKey]) else Err(r.error))
  }

  function EffectUtxo(env: Env, s: LedgerState, cmd: LedgerCommand): (r: (LedgerState, Result<seq<Text>>))
    requires IsUtxoCommand(cmd.commandType)
    ensures r.0 == s.(utxos := r.0.utxos)
    ensures r.1.Err? ==> r.0 == s
  {
    match DecodeStep(env, cmd)
    case Err(e) => (s, Err(e))
    case Ok(step) =>
      var (utxos, r) := StepUtxos(s.utxos, step);
      (s.(utxos := utxos), if r.Ok? then Ok([Ascii("utxo")]) else Err(r.error))
  }

  function EffectTransfer(s: LedgerState, cmd: LedgerCommand): (r: (LedgerState, Result<seq<Text>>))
    ensures r.0 == s.(accounts := r.0.accounts)
  {
    match SplitTransfer(cmd.partitionKey)
    case None => (s, Err(AtomicTransferFailed))
    case Some(p) =>
      var (accounts, r) := Transfer(s.accounts, p, Amount(cmd));
      (s.(accounts := accounts), if r.Ok? then Ok([p.source, p.dest]) else Err(r.error))
  }

  /** Intents, membership, and the commands that only move the version. */
  function EffectRest(s: LedgerState, cmd: LedgerCommand): (r: (LedgerState, Result<seq<Text>>))
    ensures r.1.Ok?
    ensures r.0 == s.(consumedIntents := r.0.consumedIntents, membership := r.0.membership)
  {
    var t, key := cmd.commandType, cmd.partitionKey;
    var nodes: Text := Ascii("membership");
    var snapshot: Text := Ascii("snapshot");
    if t == ConsumeIntent || t == ExpireIntent then
      (s.(consumedIntents := AddOnce(s.consumedIntents, key)), Ok([key]))
    else if t == AddObserverNode then
      (s.(membership := s.membership.(nodes := AddOnce(s.membership.nodes, key))), Ok([nodes]))
    else if t == RemoveNode then
      (s.(membership := s.membership.(nodes := Remaining(s.membership.nodes, key))), Ok([nodes]))
    else if t == PromoteVotingNode then (s, Ok([nodes]))
    else if t == InstallSnapshot then (s, Ok([snapshot]))
    else (s, Ok([key]))
  }

  /** The body of `apply` after validation: the state left behind (also on error, and before the
      version moves) and the accounts reported as affected. */
  function Effect(env: Env, s: LedgerState, cmd: LedgerCommand): (r: (LedgerState, Result<seq<Text>>))
    ensures r.0.version == s.version
  {
    if IsBalanceCommand(cmd.commandType) then EffectBalance(s, cmd)
    else if IsUtxoCommand(cmd.commandType) then EffectUtxo(env, s, cmd)
    else if cmd.commandType == CommitInternalTransfer then EffectTransfer(s, cmd)
    else EffectRest(s, cmd)
  }

  /** `apply`: the version moves exactly when the command succeeds. */
  function Transition(env: Env, s: LedgerState, cmd: LedgerCommand): (r: (LedgerState, Result<seq<Text>>))
    ensures r.0.version == if r.1.Ok? then Bump(s.version) else s.version
  {
    var v := Validate(env, s, cmd);
    if v.Err? then (s, Err(v.error))
    else
      var (t, r) := Effect(env, s, cmd);
      (if r.Ok? then t.(version := Bump(t.version)) else t, r)
  }

  /** The states a log of commands passes through when rejected commands are skipped over, as a
      replica that keeps going sees them. */
  function RunState(env: Env, s: LedgerState, cmds: seq<LedgerCommand>): LedgerState {
    if |cmds| == 0 then s
    else Transition(env, RunState(env, s, cmds[..|cmds| - 1]), cmds[|cmds| - 1]).0
  }

  function RunResult(env: Env, s: LedgerState, cmds: seq<LedgerCommand>, i: nat): Result<seq<Text>>
    requires i < |cmds|
  {
    Transition(env, RunState(env, s, cmds[..i]), cmds[i]).1
  }
}
