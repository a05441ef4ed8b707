/** `StateMachine::apply` with its receipts, as a function of the state and as the code performs it on
    a mutable ledger (state_machine.rs). */
module StateMachine {
  import opened Binary
  import opened LedgerTypes
  import opened Sequences
  import opened Accounts
  import opened Chain
  import opened UtxoTables
  import opened JournalEntries
  import opened Ledger
  import opened StateRoot

  datatype Receipt = Receipt(
    sequence: u64,
    commandHash: Text,
    previousStateRoot: Bytes,
    resultingStateRoot: Bytes,
    affectedAccounts: seq<Text>)

  function Apply(env: Env, s: LedgerState, cmd: LedgerCommand): (LedgerState, Result<Receipt>) {
    var (t, r) := Transition(env, s, cmd);
    match r
    case Err(e) => (t, Err(e))
    case Ok(affected) => (t, Ok(Receipt(s.version, cmd.payloadHash, Root(env.sha, s), Root(env.sha, t), affected)))
  }

  class LedgerMachine {
    const env: Env
    var version: u64
    var accounts: seq<AccountState>
    var journal: seq<JournalEntry>
    var reservations: seq<Reservation>
    var consumedIntents: seq<Text>
    var membership: MembershipView
    var utxos: seq<UtxoEntry>

    function State(): LedgerState
      reads this
    {
      LedgerState(version, accounts, journal, reservations, consumedIntents, membership, utxos)
    }

    constructor (env: Env, s: LedgerState)
      ensures State() == s && this.env == env
    {
      this.env := env;
      version, accounts, journal, reservations := s.version, s.accounts, s.journal, s.reservations;
      consumedIntents, membership, utxos := s.consumedIntents, s.membership, s.utxos;
    }

    /** `*state = restored`. */
    method Install(s: LedgerState)
      modifies this
      ensures State() == s
    {
      version, accounts, journal, reservations := s.version, s.accounts, s.journal, s.reservations;
      consumedIntents, membership, utxos := s.consumedIntents, s.membership, s.utxos;
    }

    method PositionOf(id: Text) returns (r: Option<nat>)
      ensures r == FindAccount(accounts, id)
    {
      var i := 0;
      while i < |accounts|
        invariant i <= |accounts|
        invariant forall k :: 0 <= k < i ==> accounts[k].accountId != id
      {
        if accounts[i].accountId == id {
          return Some(i);
        }
        i := i + 1;
      }
      return None;
    }

    method GetOrCreateAccount(id: Text) returns (i: nat)
      modifies this`accounts
      ensures (accounts, i) == GetOrCreate(old(accounts), id)
      ensures i < |accounts|
    {
      var at := PositionOf(id);
      match at {
        case Some(k) => i := k;
        case None =>
          accounts := accounts + [NewAccount(id)];
          i := |accounts| - 1;
      }
    }

    /** Borrows one account, operates on it, and writes it back. */
    method Operate(id: Text, op: BalanceOperation, amount: u64) returns (r: Result<()>)
      modifies this`accounts
      ensures (accounts, r) == OperateOn(old(accounts), id, op, amount)
    {
      var i := GetOrCreateAccount(id);
      var account := new Account(accounts[i]);
      r := account.Operate(op, amount);
      accounts := accounts[i := account.Value()];
    }

    method ValidateBalanceCommand(cmd: LedgerCommand) returns (r: Result<()>)
      requires IsBalanceCommand(cmd.commandType)
      ensures r == ValidateBalance(State(), cmd)
    {
      var at := PositionOf(cmd.partitionKey);
      if at.Some? {
        if cmd.expectedVersion.Some? {
          var account := new Account(accounts[at.value]);
          r := account.CheckVersion(cmd.expectedVersion.value);
          return;
        }
        return Ok(());
      }
      if cmd.commandType == CreditInternalBalance {
        if cmd.expectedVersion.Some? && cmd.expectedVersion.value != 0 {
          return Err(VersionConflict(cmd.partitionKey, cmd.expectedVersion.value, 0));
        }
        return Ok(());
      }
      if cmd.commandType == ReleaseBalance {
        if cmd.expectedVersion.Some? {
          return Err(VersionConflict(cmd.partitionKey, cmd.expectedVersion.value, 0));
        }
        return Ok(());
      }
      var expected: u64 := 0;
      if cmd.expectedVersion.Some? {
        expected := cmd.expectedVersion.value;
      }
      return Err(VersionConflict(cmd.partitionKey, expected, 0));
    }

    /** Validation only reads: it tries the step on a copy of the outputs. */
    method ValidateUtxoCommand(cmd: LedgerCommand) returns (r: Result<()>)
      requires IsUtxoCommand(cmd.commandType)
      ensures r == ValidateUtxo(env, State(), cmd)
    {
      var decoded := DecodeStep(env, cmd);
      if decoded.Err? {
        return Err(decoded.error);
      }
      if !WellFormedStep(decoded.value) {
        return Err(InvalidUtxoData);
      }
      var table := new UtxoTable(utxos);
      r := table.Perform(decoded.value);
    }

    method ValidateCommand(cmd: LedgerCommand) returns (r: Result<()>)
      ensures r == Validate(env, State(), cmd)
    {
      if IsBalanceCommand(cmd.commandType) {
        r := ValidateBalanceCommand(cmd);
      } else if IsUtxoCommand(cmd.commandType) {
        r := ValidateUtxoCommand(cmd);
      } else {
        r := Ok(());
      }
    }

    method PerformTransfer(cmd: LedgerCommand) returns (r: Result<seq<Text>>)
      modifies this`accounts
      ensures (State(), r) == EffectTransfer(old(State()), cmd)
    {
      var parts := SplitTransfer(cmd.partitionKey);
      if parts.None? {
        return Err(AtomicTransferFailed);
      }
      var amount := Amount(cmd);
      var debited := Operate(parts.value.source, Debit, amount);
      if debited.Err? {
        return Err(debited.error);
      }
      var credited := Operate(parts.value.dest, Credit, amount);
      if credited.Err? {
        return Err(credited.error);
      }
      return Ok([parts.value.source, parts.value.dest]);
    }

    method PerformUtxo(cmd: LedgerCommand) returns (r: Result<seq<Text>>)
      requires IsUtxoCommand(cmd.commandType)
      modifies this`utxos
      ensures (State(), r) == EffectUtxo(env, old(State()), cmd)
    {
      var decoded := DecodeStep(env, cmd);
      if decoded.Err? {
        return Err(decoded.error);
      }
      var table := new UtxoTable(utxos);
      var done := table.Perform(decoded.value);
      utxos := table.entries;
      if done.Err? {
        return Err(done.error);
      }
      return Ok([Ascii("utxo")]);
    }

    method Retain(nodes: seq<Text>, gone: Text) returns (kept: seq<Text>)
      ensures kept == Remaining(nodes, gone)
    {
      ghost var p := (n: Text) => n != gone;
      kept := [];
      for i := |nodes| downto 0
        invariant kept == Filter(p, nodes[i..])
      {
        assert nodes[i..] == [nodes[i]] + nodes[i + 1..];
        if nodes[i] != gone {
          kept := [nodes[i]] + kept;
        }
      }
      assert nodes[0..] == nodes;
    }

    method PerformIntent(cmd: LedgerCommand) returns (r: Result<seq<Text>>)
      requires cmd.commandType == ConsumeIntent || cmd.commandType == ExpireIntent
      modifies this`consumedIntents
      ensures (State(), r) == EffectRest(old(State()), cmd)
    {
      if cmd.partitionKey !in consumedIntents {
        consumedIntents := consumedIntents + [cmd.partitionKey];
      }
      return Ok([cmd.partitionKey]);
    }

    method PerformMembership(cmd: LedgerCommand) returns (r: Result<seq<Text>>)
      requires cmd.commandType == AddObserverNode || cmd.commandType == PromoteVotingNode || cmd.commandType == RemoveNode
      modifies this`membership
      ensures (State(), r) == EffectRest(old(State()), cmd)
    {
      if cmd.commandType == AddObserverNode {
        if cmd.partitionKey !in membership.nodes {
          membership := membership.(nodes := membership.nodes + [cmd.partitionKey]);
        }
      } else if cmd.commandType == RemoveNode {
        var kept := Retain(membership.nodes, cmd.partitionKey);
        membership := membership.(nodes := kept);
      }
      return Ok([Ascii("membership")]);
    }

    method PerformBalance(cmd: LedgerCommand) returns (r: Result<seq<Text>>)
      requires IsBalanceCommand(cmd.commandType)
      modifies this`accounts
      ensures (State(), r) == EffectBalance(old(State()), cmd)
    {
      var done := Operate(cmd.partitionKey, OperationOf(cmd.commandType), AmountOf(cmd));
      if done.Err? {
        return Err(done.error);
      }
      return Ok([cmd.partitionKey]);
    }

    method PerformRest(cmd: LedgerCommand) returns (r: Result<seq<Text>>)
      modifies this`consumedIntents, this`membership
      ensures (State(), r) == EffectRest(old(State()), cmd)
    {
      var t := cmd.commandType;
      if t == ConsumeIntent || t == ExpireIntent {
        r := PerformIntent(cmd);
      } else if t == AddObserverNode || t == PromoteVotingNode || t == RemoveNode {
        r := PerformMembership(cmd);
      } else if t == InstallSnapshot {
        r := Ok([Ascii("snapshot")]);
      } else {
        r := Ok([cmd.partitionKey]);
      }
    }

    method Perform(cmd: LedgerCommand) returns (r: Result<seq<Text>>)
      modifies this
      ensures (State(), r) == Effect(env, old(State()), cmd)
    {
      if IsBalanceCommand(cmd.commandType) {
        r := PerformBalance(cmd);
      } else if IsUtxoCommand(cmd.commandType) {
        r := PerformUtxo(cmd);
      } else if cmd.commandType == CommitInternalTransfer {
        r := PerformTransfer(cmd);
      } else {
        r := PerformRest(cmd);
      }
    }

    /** The effect, and the version bump if it succeeds. */
    method Commit(cmd: LedgerCommand) returns (r: Result<seq<Text>>)
      requires Validate(env, State(), cmd).Ok?
      modifies this
      ensures (State(), r) == Transition(env, old(State()), cmd)
    {
      r := Perform(cmd);
      if r.Ok? {
        version := Bump(version);
      }
    }

    /** `apply`: validate, take the root, perform, bump the version, take the root again. */
    method ApplyCommand(cmd: LedgerCommand) returns (r: Result<Receipt>)
      modifies this
      ensures (State(), r) == Apply(env, old(State()), cmd)
    {
      var valid := ValidateCommand(cmd);
      if valid.Err? {
        return Err(valid.error);
      }
      var previous := ComputeStateRoot(env.sha, State());
      var sequence := version;
      var done := Commit(cmd);
      if done.Err? {
        return Err(done.error);
      }
      var resulting := ComputeStateRoot(env.sha, State());
      return Ok(Receipt(sequence, cmd.payloadHash, previous, resulting, done.value));
    }
  }
}
