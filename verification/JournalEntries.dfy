/** The chart of accounts and the hashed form of a journal entry (account.rs, double_entry.rs). */
module JournalEntries {
  import opened Binary

  datatype AccountClass = Asset | Liability | Equity | Expense | Revenue

  datatype StandardAccount =
    | AssetCustodiedBtc | AssetColdBtc | AssetHotBtc
    | LiabilityUserBalances | LiabilityPendingWithdrawals | LiabilityInternalReserved
    | EquityPlatform | ExpenseMinerFees | RevenuePlatformFees

  /** `StandardAccount::ALL`. */
  const ALL_ACCOUNTS: seq<StandardAccount> :=
    [AssetCustodiedBtc, AssetColdBtc, AssetHotBtc,
     LiabilityUserBalances, LiabilityPendingWithdrawals, LiabilityInternalReserved,
     EquityPlatform, ExpenseMinerFees, RevenuePlatformFees]

  function Class(a: StandardAccount): AccountClass {
    match a
    case AssetCustodiedBtc => Asset
    case AssetColdBtc => Asset
    case AssetHotBtc => Asset
    case LiabilityUserBalances => Liability
    case LiabilityPendingWithdrawals => Liability
    case LiabilityInternalReserved => Liability
    case EquityPlatform => Equity
    case ExpenseMinerFees => Expense
    case RevenuePlatformFees => Revenue
  }

  datatype Posting = Posting(account: StandardAccount, amountSats: u64)

  datatype JournalEntry = JournalEntry(
    entryId: Text,
    sequence: u64,
    description: Text,
    debits: seq<Posting>,
    credits: seq<Posting>,
    timestampBucket: u64,
    entryHash: Bytes,
    previousEntryHash: Option<Bytes>)

  /** The `Debug` form of an account. */
  function AccountName(a: StandardAccount): Bytes {
    match a
    case AssetCustodiedBtc => Ascii("AssetCustodiedBtc")
    case AssetColdBtc => Ascii("AssetColdBtc")
    case AssetHotBtc => Ascii("AssetHotBtc")
    case LiabilityUserBalances => Ascii("LiabilityUserBalances")
    case LiabilityPendingWithdrawals => Ascii("LiabilityPendingWithdrawals")
    case LiabilityInternalReserved => Ascii("LiabilityInternalReserved")
    case EquityPlatform => Ascii("EquityPlatform")
    case ExpenseMinerFees => Ascii("ExpenseMinerFees")
    case RevenuePlatformFees => Ascii("RevenuePlatformFees")
  }

  function PostingBytes(p: Posting): (r: Bytes)
    ensures |r| >= 10
  {
    AccountName(p.account) + [COLON] + LE8(p.amountSats) + [COMMA]
  }

  /** What `hash_postings` feeds the hasher. */
  function PostingsBytes(ps: seq<Posting>): Bytes {
    if |ps| == 0 then [] else PostingsBytes(ps[..|ps| - 1]) + PostingBytes(ps[|ps| - 1])
  }

  function HashPostings(sha: Bytes -> Digest, ps: seq<Posting>): (r: Bytes)
    ensures |r| == 64 && BAR !in r
  {
    Hex(sha(PostingsBytes(ps)))
  }

  function PreviousText(prev: Option<Bytes>): Bytes {
    match prev
    case Some(h) => h
    case None => []
  }

  /** `{entry_id}|{sequence}|{description}`, the part of the material the caller chooses freely. */
  function EntryHead(id: Bytes, sequence: nat, description: Bytes): Bytes {
    id + [BAR] + Decimal(sequence) + [BAR] + description
  }

  /** The string `compute_entry_hash` hashes. */
  function EntryMaterial(sha: Bytes -> Digest, e: JournalEntry, prev: Option<Bytes>): Bytes {
    EntryHead(e.entryId, e.sequence, e.description)
    + [BAR] + HashPostings(sha, e.debits)
    + [BAR] + HashPostings(sha, e.credits)
    + [BAR] + PreviousText(prev)
    + [BAR] + Decimal(e.timestampBucket)
  }

  function ComputeEntryHash(sha: Bytes -> Digest, e: JournalEntry, prev: Option<Bytes>): (r: Bytes)
    ensures |r| == 64 && BAR !in r
  {
    Hex(sha(EntryMaterial(sha, e, prev)))
  }
}
