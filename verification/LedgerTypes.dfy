/** Identifiers, errors and results shared by the ledger's components. */
module LedgerTypes {
  import opened Binary

  datatype OutPoint = OutPoint(txid: Text, vout: u32)

  datatype OnchainState =
    | Seen | InMempool | Confirming | Spendable | FinalizedByPolicy | Replaced | Reorged | Spent

  /** The distinct texts an `InvariantViolation` carries. */
  datatype Violation =
    | CreditOverflow
    | ReservedOverflow
    | ReleaseExceedsReserved
    | ReleaseOverflow

  datatype LedgerError =
    | VersionConflict(account: Text, expected: u64, current: u64)
    | InsufficientFunds(account: Text, available: u64, needed: u64)
    | InvariantViolation(account: Text, violation: Violation)
    | AtomicTransferFailed
    | InvalidUtxoData
    | UtxoNotFound(outpoint: OutPoint)
    | InvalidUtxoTransition(from: OnchainState, to: OnchainState)
    | UtxoAlreadyReserved(reservedBy: Text)
    | UtxoNotReserved
    | SnapshotNotFound(sequence: u64)
    | InvalidSignature
    | StateRootMismatch
    | QuarantineFailed
    | CatchUpRefused

  datatype Result<+T> = Ok(value: T) | Err(error: LedgerError)

  /** `self.version += 1` on a u64 in a release build. */
  function Bump(v: u64): (r: u64)
    ensures v < U64_MAX ==> r == v + 1
    ensures r != v
  {
    if v == U64_MAX then 0 else v + 1
  }
}
