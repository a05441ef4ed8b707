/** Versioned account balances with checked arithmetic (account_state.rs). */
module Accounts {
  import opened Binary
  import opened LedgerTypes

  datatype AccountState = AccountState(
    accountId: Text,
    version: u64,
    availableSats: u64,
    reservedSats: u64,
    pendingIncomingSats: u64,
    pendingOutgoingSats: u64,
    lastCommittedSequence: u64)

  function NewAccount(id: Text): AccountState {
    AccountState(id, 0, 0, 0, 0, 0, 0)
  }

  datatype BalanceOperation = Credit | Debit | Reserve | ReleaseReservation

  /** The money an account holds, reserved or not. */
  function Money(a: AccountState): (m: int)
    ensures m >= 0
  {
    a.availableSats + a.reservedSats
  }

  function Bumped(a: AccountState): AccountState {
    a.(version := Bump(a.version))
  }

  /** What one balance operation does to an account.  The state component is the state left behind,
      also when the result is an error: `Reserve` and `ReleaseReservation` write their first leg
      before the second one is checked. */
  function ApplyOperation(a: AccountState, op: BalanceOperation, amount: u64): (AccountState, Result<()>) {
    match op
    case Credit =>
      if a.availableSats + amount > U64_MAX then
        (a, Err(InvariantViolation(a.accountId, CreditOverflow)))
      else
        (Bumped(a.(availableSats := a.availableSats + amount)), Ok(()))
    case Debit =>
      if a.availableSats < amount then
        (a, Err(InsufficientFunds(a.accountId, a.availableSats, amount)))
      else
        (Bumped(a.(availableSats := a.availableSats - amount)), Ok(()))
    case Reserve =>
      if a.availableSats < amount then
        (a, Err(InsufficientFunds(a.accountId, a.availableSats, amount)))
      else
        var taken := a.(availableSats := a.availableSats - amount);
        if a.reservedSats + amount > U64_MAX then
          (taken, Err(InvariantViolation(a.accountId, ReservedOverflow)))
        else
          (Bumped(taken.(reservedSats := a.reservedSats + amount)), Ok(()))
    case ReleaseReservation =>
      if a.reservedSats < amount then
        (a, Err(InvariantViolation(a.accountId, ReleaseExceedsReserved)))
      else
        var taken := a.(reservedSats := a.reservedSats - amount);
        if a.availableSats + amount > U64_MAX then
          (taken, Err(InvariantViolation(a.accountId, ReleaseOverflow)))
        else
          (Bumped(taken.(availableSats := a.availableSats + amount)), Ok(()))
  }

  /** How much money an operation that succeeds adds to the account. */
  function NetInflow(op: BalanceOperation, amount: u64): int {
    match op
    case Credit => amount
    case Debit => 0 - amount as int
    case Reserve => 0
    case ReleaseReservation => 0
  }

  /** The error texts that report arithmetic overflow. */
  predicate IsOverflow<T>(r: Result<T>) {
    r.Err? && r.error.InvariantViolation? &&
    (r.error.violation == CreditOverflow || r.error.violation == ReservedOverflow || r.error.violation == ReleaseOverflow)
  }

  /** The second leg of a two-leg operation does not fit: the one case in which a rejected operation
      has already taken the amount out of the account. */
  predicate SecondLegOverflows(a: AccountState, op: BalanceOperation, amount: u64) {
    (op == Reserve && amount <= a.availableSats && a.reservedSats + amount > U64_MAX) ||
    (op == ReleaseReservation && amount <= a.reservedSats && a.availableSats + amount > U64_MAX)
  }

  /** Every operation either moves exactly its net inflow and bumps the version, or is rejected; a
      rejected one leaves the account alone exactly when its second leg did not overflow, and
      otherwise destroys the amount without bumping the version. */
  lemma OperationMoves(a: AccountState, op: BalanceOperation, amount: u64)
    ensures var (b, r) := ApplyOperation(a, op, amount);
      && b.accountId == a.accountId
      && b.pendingOutgoingSats == a.pendingOutgoingSats
      && (r.Ok? ==> Money(b) == Money(a) + NetInflow(op, amount) && b.version == Bump(a.version))
      && (r.Err? ==> b.version == a.version)
      && (r.Err? ==> (b == a <==> !SecondLegOverflows(a, op, amount)))
      && (SecondLegOverflows(a, op, amount) ==> r.Err? && Money(b) == Money(a) - amount)
      && (IsOverflow(r) ==> Money(a) + amount > U64_MAX)
  {
  }

  /** A rejected reserve can destroy money. */
  lemma RejectedReserveDestroysMoney()
    ensures exists a: AccountState, amount: u64 ::
      var (b, r) := ApplyOperation(a, Reserve, amount); r.Err? && Money(b) < Money(a)
  {
    var a := AccountState([], 0, 1, U64_MAX, 0, 0, 0);
    assert ApplyOperation(a, Reserve, 1).1.Err?;
    assert Money(ApplyOperation(a, Reserve, 1).0) < Money(a);
  }

  /** An account a caller holds by mutable reference. */
  class Account {
    var accountId: Text
    var version: u64
    var availableSats: u64
    var reservedSats: u64
    var pendingIncomingSats: u64
    var pendingOutgoingSats: u64
    var lastCommittedSequence: u64

    function Value(): AccountState
      reads this
    {
      AccountState(accountId, version, availableSats, reservedSats,
                   pendingIncomingSats, pendingOutgoingSats, lastCommittedSequence)
    }

    constructor (a: AccountState)
      ensures Value() == a
    {
      accountId, version := a.accountId, a.version;
      availableSats, reservedSats := a.availableSats, a.reservedSats;
      pendingIncomingSats, pendingOutgoingSats := a.pendingIncomingSats, a.pendingOutgoingSats;
      lastCommittedSequence := a.lastCommittedSequence;
    }

    method CheckVersion(expected: u64) returns (r: Result<()>)
      ensures r == if version == expected then Ok(()) else Err(VersionConflict(accountId, expected, version))
    {
      if version != expected {
        return Err(VersionConflict(accountId, expected, version));
      }
      return Ok(());
    }

    method ApplyCredit(amount: u64) returns (r: Result<()>)
      modifies this
      ensures (Value(), r) == ApplyOperation(old(Value()), Credit, amount)
    {
      if availableSats + amount > U64_MAX {
        return Err(InvariantViolation(accountId, CreditOverflow));
      }
      availableSats := availableSats + amount;
      version := Bump(version);
      return Ok(());
    }

    method ApplyDebit(amount: u64) returns (r: Result<()>)
      modifies this
      ensures (Value(), r) == ApplyOperation(old(Value()), Debit, amount)
    {
      if availableSats < amount {
        return Err(InsufficientFunds(accountId, availableSats, amount));
      }
      availableSats := availableSats - amount;
      version := Bump(version);
      return Ok(());
    }

    method ApplyReserve(amount: u64) returns (r: Result<()>)
      modifies this
      ensures (Value(), r) == ApplyOperation(old(Value()), Reserve, amount)
    {
      if availableSats < amount {
        return Err(InsufficientFunds(accountId, availableSats, amount));
      }
      availableSats := availableSats - amount;
      if reservedSats + amount > U64_MAX {
        return Err(InvariantViolation(accountId, ReservedOverflow));
      }
      reservedSats := reservedSats + amount;
      version := Bump(version);
      return Ok(());
    }

    method ApplyReleaseReservation(amount: u64) returns (r: Result<()>)
      modifies this
      ensures (Value(), r) == ApplyOperation(old(Value()), ReleaseReservation, amount)
    {
      if reservedSats < amount {
        return Err(InvariantViolation(accountId, ReleaseExceedsReserved));
      }
      reservedSats := reservedSats - amount;
      if availableSats + amount > U64_MAX {
        return Err(InvariantViolation(accountId, ReleaseOverflow));
      }
      availableSats := availableSats + amount;
      version := Bump(version);
      return Ok(());
    }

    method Operate(op: BalanceOperation, amount: u64) returns (r: Result<()>)
      modifies this
      ensures (Value(), r) == ApplyOperation(old(Value()), op, amount)
    {
      match op {
        case Credit => r := ApplyCredit(amount);
        case Debit => r := ApplyDebit(amount);
        case Reserve => r := ApplyReserve(amount);
        case ReleaseReservation => r := ApplyReleaseReservation(amount);
      }
    }
  }
}
