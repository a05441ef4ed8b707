/** The map-backed account store (in_memory.rs). */
module AccountStore {
  import opened Binary
  import opened LedgerTypes
  import opened Accounts

  datatype BalanceCommand = BalanceCommand(accountId: Text, expectedVersion: u64, operation: BalanceOperation, amountSats: u64)

  datatype TransferCommand = TransferCommand(
    source: Text, sourceVersion: u64, destination: Text, destinationVersion: u64, amountSats: u64)

  type Store = map<Text, AccountState>

  /** Every account is filed under its own id. */
  predicate Filed(m: Store) {
    forall id :: id in m ==> m[id].accountId == id
  }

  function ApplyBalance(m: Store, cmd: BalanceCommand): (Store, Result<AccountState>) {
    var current := if cmd.accountId in m then m[cmd.accountId] else NewAccount(cmd.accountId);
    if current.version != cmd.expectedVersion then
      (m, Err(VersionConflict(current.accountId, cmd.expectedVersion, current.version)))
    else
      var (a, r) := ApplyOperation(current, cmd.operation, cmd.amountSats);
      (m[cmd.accountId := a], if r.Ok? then Ok(a) else Err(r.error))
  }

  function ApplyTransfer(m: Store, cmd: TransferCommand): (Store, Result<(AccountState, AccountState)>) {
    if cmd.source !in m || cmd.destination !in m then (m, Err(AtomicTransferFailed))
    else
      var src, dst := m[cmd.source], m[cmd.destination];
      if src.version != cmd.sourceVersion then (m, Err(VersionConflict(src.accountId, cmd.sourceVersion, src.version)))
      else if dst.version != cmd.destinationVersion then (m, Err(VersionConflict(dst.accountId, cmd.destinationVersion, dst.version)))
      else
        var (s', r) := ApplyOperation(src, Debit, cmd.amountSats);
        if r.Err? then (m, Err(r.error))
        else
          var (d', q) := ApplyOperation(dst, Credit, cmd.amountSats);
          if q.Err? then (m, Err(q.error))
          else (m[s'.accountId := s'][d'.accountId := d'], Ok((s', d')))
  }

  datatype StoreCommand = Balance(balance: BalanceCommand) | Move(transfer: TransferCommand)

  function ApplyStore(m: Store, cmd: StoreCommand): (Store, bool) {
    match cmd
    case Balance(c) => (ApplyBalance(m, c).0, ApplyBalance(m, c).1.Ok?)
    case Move(c) => (ApplyTransfer(m, c).0, ApplyTransfer(m, c).1.Ok?)
  }

  function VersionOf(m: Store, id: Text): u64 {
    if id in m then m[id].version else 0
  }

  /** The command names `id` with expected version `v`. */
  predicate Carries(cmd: StoreCommand, id: Text, v: u64) {
    match cmd
    case Balance(c) => c.accountId == id && c.expectedVersion == v
    case Move(c) => (c.source == id && c.sourceVersion == v) || (c.destination == id && c.destinationVersion == v)
  }

  lemma BalanceStep(m: Store, c: BalanceCommand, id: Text)
    requires Filed(m)
    ensures var (m', r) := ApplyBalance(m, c);
      && Filed(m')
      && VersionOf(m', id) == (if r.Ok? && id == c.accountId then Bump(VersionOf(m, id)) else VersionOf(m, id))
      && (r.Ok? ==> VersionOf(m, c.accountId) == c.expectedVersion)
  {
    OperationMoves(if c.accountId in m then m[c.accountId] else NewAccount(c.accountId), c.operation, c.amountSats);
  }

  lemma TransferStep(m: Store, c: TransferCommand, id: Text)
    requires Filed(m)
    ensures var (m', r) := ApplyTransfer(m, c);
      && Filed(m')
      && VersionOf(m', id) ==
           (if r.Ok? && (id == c.source || id == c.destination) then Bump(VersionOf(m, id)) else VersionOf(m, id))
      && (r.Ok? ==> VersionOf(m, c.source) == c.sourceVersion && VersionOf(m, c.destination) == c.destinationVersion)
  {
    if c.source in m && c.destination in m {
      OperationMoves(m[c.source], Debit, c.amountSats);
      OperationMoves(m[c.destination], Credit, c.amountSats);
    }
  }

  lemma StoreStep(m: Store, cmd: StoreCommand, id: Text, v: u64)
    requires Filed(m)
    requires VersionOf(m, id) < U64_MAX
    ensures var (m', ok) := ApplyStore(m, cmd);
      && Filed(m')
      && VersionOf(m, id) <= VersionOf(m', id) <= VersionOf(m, id) + 1
      && (ok && Carries(cmd, id, v) ==> VersionOf(m, id) == v && VersionOf(m', id) == v + 1)
  {
    match cmd
    case Balance(c) => BalanceStep(m, c, id);
    case Move(c) => TransferStep(m, c, id);
  }

  function RunStore(m: Store, cmds: seq<StoreCommand>): Store {
    if |cmds| == 0 then m else ApplyStore(RunStore(m, cmds[..|cmds| - 1]), cmds[|cmds| - 1]).0
  }

  function StoreAt(m: Store, cmds: seq<StoreCommand>, i: nat): Store
    requires i <= |cmds|
  {
    RunStore(m, cmds[..i])
  }

  lemma StoreAtNext(m: Store, cmds: seq<StoreCommand>, i: nat, id: Text, v: u64)
    requires i < |cmds|
    requires Filed(StoreAt(m, cmds, i)) && VersionOf(StoreAt(m, cmds, i), id) < U64_MAX
    ensures Filed(StoreAt(m, cmds, i + 1))
    ensures VersionOf(StoreAt(m, cmds, i), id) <= VersionOf(StoreAt(m, cmds, i + 1), id) <= VersionOf(StoreAt(m, cmds, i), id) + 1
    ensures StoreConsumed(m, cmds, i, id, v) ==>
      VersionOf(StoreAt(m, cmds, i), id) == v && VersionOf(StoreAt(m, cmds, i + 1), id) == v + 1
  {
    assert cmds[..i + 1][..i] == cmds[..i];
    StoreStep(RunStore(m, cmds[..i]), cmds[i], id, v);
  }

  lemma {:induction false} StoreVersionsGrow(m: Store, cmds: seq<StoreCommand>, i: nat, j: nat, id: Text)
    requires Filed(m)
    requires i <= j <= |cmds|
    requires VersionOf(m, id) + |cmds| <= U64_MAX
    ensures Filed(StoreAt(m, cmds, j))
    ensures VersionOf(StoreAt(m, cmds, i), id) <= VersionOf(StoreAt(m, cmds, j), id) <= VersionOf(m, id) + j
    decreases j
  {
    if j > 0 {
      StoreVersionsGrow(m, cmds, if i < j then i else j - 1, j - 1, id);
      StoreAtNext(m, cmds, j - 1, id, 0);
    }
  }

  predicate StoreConsumed(m: Store, cmds: seq<StoreCommand>, i: nat, id: Text, v: u64)
    requires i < |cmds|
  {
    Carries(cmds[i], id, v) && ApplyStore(StoreAt(m, cmds, i), cmds[i]).1
  }

  /** No lost update in the store, transfers included on either side. */
  lemma StoreNoLostUpdate(m: Store, cmds: seq<StoreCommand>, id: Text, v: u64)
    requires Filed(m)
    requires VersionOf(m, id) + |cmds| <= U64_MAX
    ensures forall i, j :: 0 <= i < j < |cmds| && StoreConsumed(m, cmds, i, id, v) ==> !StoreConsumed(m, cmds, j, id, v)
  {
    forall i, j | 0 <= i < j < |cmds| && StoreConsumed(m, cmds, i, id, v)
      ensures !StoreConsumed(m, cmds, j, id, v)
    {
      StoreVersionsGrow(m, cmds, i, i, id);
      StoreAtNext(m, cmds, i, id, v);
      StoreVersionsGrow(m, cmds, i + 1, j, id);
      StoreAtNext(m, cmds, j, id, v);
    }
  }

  /** The account a command finds, or the blank one it opens. */
  function FoundOrBlank(m: Store, id: Text): AccountState {
    if id in m then m[id] else AccountState(id, 0, 0, 0, 0, 0, 0)
  }

  /** The same account with new balances, one version later. */
  function Changed(a: AccountState, available: u64, reserved: u64): AccountState {
    a.(availableSats := available, reservedSats := reserved, version := (a.version + 1) % U64_SIZE)
  }

  /** What a balance command does to the account it finds or opens, given that its version fits. */
  function BalanceAnswer(a: AccountState, op: BalanceOperation, n: u64): (AccountState, Option<LedgerError>) {
    var id, available, reserved := a.accountId, a.availableSats, a.reservedSats;
    match op
    case Credit =>
      if available + n >= U64_SIZE then (a, Some(InvariantViolation(id, CreditOverflow)))
      else (Changed(a, available + n, reserved), None)
    case Debit =>
      if n > available then (a, Some(InsufficientFunds(id, available, n)))
      else (Changed(a, available - n, reserved), None)
    case Reserve =>
      if n > available then (a, Some(InsufficientFunds(id, available, n)))
      else if reserved + n >= U64_SIZE then (a.(availableSats := available - n), Some(InvariantViolation(id, ReservedOverflow)))
      else (Changed(a, available - n, reserved + n), None)
    case ReleaseReservation =>
      if n > reserved then (a, Some(InvariantViolation(id, ReleaseExceedsReserved)))
      else if available + n >= U64_SIZE then (a.(reservedSats := reserved - n), Some(InvariantViolation(id, ReleaseOverflow)))
      else (Changed(a, available + n, reserved - n), None)
  }

  /** A balance command conflicts and changes nothing, or its answer is filed under its account, failed
      or not, and every other account stays. */
  lemma StoreBalanceLaw(m: Store, cmd: BalanceCommand)
    requires Filed(m)
    ensures var a := FoundOrBlank(m, cmd.accountId);
      var (after, e) := BalanceAnswer(a, cmd.operation, cmd.amountSats);
      ApplyBalance(m, cmd) ==
        if cmd.expectedVersion != a.version then (m, Err(VersionConflict(cmd.accountId, cmd.expectedVersion, a.version)))
        else (m[cmd.accountId := after], if e.Some? then Err(e.value) else Ok(after))
  {
  }

  /** A transfer between different accounts needs both to exist at the expected versions, the balance to
      cover it and the credit to fit; then both are filed anew, and otherwise nothing changes. */
  lemma StoreTransferLaw(m: Store, cmd: TransferCommand)
    requires Filed(m) && cmd.source != cmd.destination
    ensures var n := cmd.amountSats;
      var known := cmd.source in m && cmd.destination in m;
      var (m', r) := ApplyTransfer(m, cmd);
      && (!known ==> m' == m && r == Err(AtomicTransferFailed))
      && (known ==>
            var a, b := m[cmd.source], m[cmd.destination];
            && (a.version != cmd.sourceVersion ==> m' == m && r == Err(VersionConflict(cmd.source, cmd.sourceVersion, a.version)))
            && (a.version == cmd.sourceVersion && b.version != cmd.destinationVersion ==>
                  m' == m && r == Err(VersionConflict(cmd.destination, cmd.destinationVersion, b.version)))
            && (a.version == cmd.sourceVersion && b.version == cmd.destinationVersion ==>
                  (if n > a.availableSats then m' == m && r == Err(InsufficientFunds(cmd.source, a.availableSats, n))
                   else if b.availableSats + n >= U64_SIZE then m' == m && r == Err(InvariantViolation(cmd.destination, CreditOverflow))
                   else
                     var a', b' := Changed(a, a.availableSats - n, a.reservedSats), Changed(b, b.availableSats + n, b.reservedSats);
                     m' == m[cmd.source := a'][cmd.destination := b'] && r == Ok((a', b')))))
  {
  }

  /** A transfer between distinct accounts preserves their combined balance and touches nobody else, or
      changes nothing at all. */
  lemma TransferAtomic(m: Store, cmd: TransferCommand)
    requires Filed(m)
    requires cmd.source != cmd.destination
    ensures var (m', r) := ApplyTransfer(m, cmd);
      && (r.Err? ==> m' == m)
      && (r.Ok? ==>
            && m'.Keys == m.Keys
            && Money(m'[cmd.source]) + Money(m'[cmd.destination]) == Money(m[cmd.source]) + Money(m[cmd.destination])
            && Money(m'[cmd.destination]) == Money(m[cmd.destination]) + cmd.amountSats
            && (forall id :: id in m && id != cmd.source && id != cmd.destination ==> m'[id] == m[id]))
  {
  }

  /** A successful transfer of an account to itself keeps only the credited copy: it makes money,
      unless the amount is zero. */
  lemma SelfTransferMakesMoney(m: Store, cmd: TransferCommand)
    requires Filed(m)
    requires cmd.source == cmd.destination
    ensures var (m', r) := ApplyTransfer(m, cmd);
      && (r.Err? ==> m' == m)
      && (r.Ok? ==> Money(m'[cmd.source]) == Money(m[cmd.source]) + cmd.amountSats)
      && (r.Ok? ==> (Money(m'[cmd.source]) == Money(m[cmd.source]) <==> cmd.amountSats == 0))
  {
  }

  /** One satoshi sent by an account holding five to itself leaves six. */
  lemma SelfTransferOfOne()
    ensures var m: Store := map[[97] := AccountState([97], 0, 5, 0, 0, 0, 0)];
      var (m', r) := ApplyTransfer(m, TransferCommand([97], 0, [97], 0, 1));
      r.Ok? && Money(m[[97]]) == 5 && Money(m'[[97]]) == 6
  {
    SelfTransferMakesMoney(map[[97] := AccountState([97], 0, 5, 0, 0, 0, 0)], TransferCommand([97], 0, [97], 0, 1));
  }

  class InMemoryAccountStore {
    var accounts: Store

    constructor ()
      ensures accounts == map[]
    {
      accounts := map[];
    }

    method ApplyCommand(cmd: BalanceCommand) returns (r: Result<AccountState>)
      requires Filed(accounts)
      modifies this
      ensures (accounts, r) == ApplyBalance(old(accounts), cmd)
      ensures Filed(accounts)
    {
      if cmd.accountId in accounts {
        if accounts[cmd.accountId].version != cmd.expectedVersion {
          return Err(VersionConflict(cmd.accountId, cmd.expectedVersion, accounts[cmd.accountId].version));
        }
      } else {
        if cmd.expectedVersion != 0 {
          return Err(VersionConflict(cmd.accountId, cmd.expectedVersion, 0));
        }
        accounts := accounts[cmd.accountId := NewAccount(cmd.accountId)];
      }
      OperationMoves(accounts[cmd.accountId], cmd.operation, cmd.amountSats);
      var state := new Account(accounts[cmd.accountId]);
      var done := state.Operate(cmd.operation, cmd.amountSats);
      accounts := accounts[cmd.accountId := state.Value()];
      assert accounts == old(accounts)[cmd.accountId := state.Value()];
      if done.Err? {
        return Err(done.error);
      }
      return Ok(state.Value());
    }

    method Transfer(cmd: TransferCommand) returns (r: Result<(AccountState, AccountState)>)
      modifies this
      ensures (accounts, r) == ApplyTransfer(old(accounts), cmd)
    {
      if cmd.source !in accounts || cmd.destination !in accounts {
        return Err(AtomicTransferFailed);
      }
      var src := new Account(accounts[cmd.source]);
      var dst := new Account(accounts[cmd.destination]);
      var checked := src.CheckVersion(cmd.sourceVersion);
      if checked.Err? {
        return Err(checked.error);
      }
      checked := dst.CheckVersion(cmd.destinationVersion);
      if checked.Err? {
        return Err(checked.error);
      }
      var done := src.ApplyDebit(cmd.amountSats);
      if done.Err? {
        return Err(done.error);
      }
      done := dst.ApplyCredit(cmd.amountSats);
      if done.Err? {
        return Err(done.error);
      }
      accounts := accounts[src.accountId := src.Value()];
      accounts := accounts[dst.accountId := dst.Value()];
      return Ok((src.Value(), dst.Value()));
    }
  }
}
