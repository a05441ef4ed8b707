/** The hash-chained double-entry journal (double_entry.rs). */
module Journal {
  import opened Binary
  import opened Sequences
  import opened JournalEntries

  const U128_SIZE: nat := U64_SIZE * U64_SIZE
  const I128_LIMIT: int := 0x8000_0000_0000_0000 * U64_SIZE

  type u128 = n: int | 0 <= n < U128_SIZE
  type i128 = n: int | -I128_LIMIT <= n < I128_LIMIT

  datatype AccountBalance = AccountBalance(totalDebits: u128, totalCredits: u128, net: i128)

  type Balances = m: map<StandardAccount, AccountBalance> | forall a :: a in m
    witness map a: StandardAccount | true :: AccountBalance(0, 0, 0)

  datatype JournalError =
    | EmptyEntry
    | UnbalancedEntry(debits: nat, credits: nat)
    | SequenceGap(expected: u64, got: u64)
    | InvalidHash
    | BalanceOverflow(account: StandardAccount)
    | NegativeBalance

  datatype JournalReceipt = JournalReceipt(
    sequence: u64,
    entryHash: Bytes,
    previousEntryHash: Option<Bytes>,
    accountBalances: Balances)

  datatype PostResult = Posted(receipt: JournalReceipt) | Refused(error: JournalError)

  datatype JournalState = JournalState(
    entries: seq<JournalEntry>,
    balances: Balances,
    receipts: map<Text, JournalReceipt>)

  const INITIAL_BALANCES: Balances := map a: StandardAccount | true :: AccountBalance(0, 0, 0)
  const EMPTY_JOURNAL := JournalState([], INITIAL_BALANCES, map[])

  // ---------------------------------------------------------------- postings

  /** The `as i128` cast. */
  function AsI128(n: u128): i128 {
    if n < I128_LIMIT then n else n - U128_SIZE
  }

  datatype Side = DebitSide | CreditSide

  /** One posting: the total first, checked as u128, then the net, checked as i128. */
  function PostOne(b: Balances, p: Posting, side: Side): (Balances, Option<JournalError>) {
    var bal := b[p.account];
    var total := (if side == DebitSide then bal.totalDebits else bal.totalCredits) + p.amountSats;
    if total >= U128_SIZE then (b, Some(BalanceOverflow(p.account)))
    else
      var moved := if side == DebitSide then bal.(totalDebits := total) else bal.(totalCredits := total);
      var net := AsI128(moved.totalDebits) - AsI128(moved.totalCredits);
      if !(-I128_LIMIT <= net < I128_LIMIT) then (b[p.account := moved], Some(BalanceOverflow(p.account)))
      else (b[p.account := moved.(net := net)], None)
  }

  function PostAll(b: Balances, ps: seq<Posting>, side: Side): (Balances, Option<JournalError>)
    decreases |ps|
  {
    if |ps| == 0 then (b, None)
    else
      var (b', e) := PostOne(b, ps[0], side);
      if e.Some? then (b', e) else PostAll(b', ps[1..], side)
  }

  function PostBoth(b: Balances, debits: seq<Posting>, credits: seq<Posting>): (Balances, Option<JournalError>) {
    var (b', e) := PostAll(b, debits, DebitSide);
    if e.Some? then (b', e) else PostAll(b', credits, CreditSide)
  }

  /** Postings fail only by overflow. */
  lemma {:induction false} PostAllError(b: Balances, ps: seq<Posting>, side: Side)
    ensures PostAll(b, ps, side).1.Some? ==> PostAll(b, ps, side).1.value.BalanceOverflow?
    decreases |ps|
  {
    if |ps| > 0 {
      PostAllError(PostOne(b, ps[0], side).0, ps[1..], side);
    }
  }

  function AmountOf(p: Posting): int {
    p.amountSats
  }

  /** Assets and expenses carry debit balances, everything else credit balances. */
  predicate SignFits(a: StandardAccount, net: int) {
    if Class(a).Asset? || Class(a).Expense? then net >= 0 else net <= 0
  }

  predicate SignOk(a: StandardAccount, bal: AccountBalance) {
    SignFits(a, bal.net)
  }

  predicate SignsOk(b: Balances) {
    forall a :: a in b ==> SignOk(a, b[a])
  }

  lemma AllAccountsListed(a: StandardAccount)
    ensures a in ALL_ACCOUNTS
  {
    var listed := ALL_ACCOUNTS;
    match a
    case AssetCustodiedBtc => assert listed[0] == a;
    case AssetColdBtc => assert listed[1] == a;
    case AssetHotBtc => assert listed[2] == a;
    case LiabilityUserBalances => assert listed[3] == a;
    case LiabilityPendingWithdrawals => assert listed[4] == a;
    case LiabilityInternalReserved => assert listed[5] == a;
    case EquityPlatform => assert listed[6] == a;
    case ExpenseMinerFees => assert listed[7] == a;
    case RevenuePlatformFees => assert listed[8] == a;
  }

  // ---------------------------------------------------------------- posting an entry

  function HeadHash(entries: seq<JournalEntry>): Option<Bytes> {
    if |entries| == 0 then None else Some(entries[|entries| - 1].entryHash)
  }

  function ExpectedSequence(entries: seq<JournalEntry>): u64 {
    |entries| % U64_SIZE
  }

  /** The checks `post_entry` makes before it touches any balance. */
  function CheckEntry(sha: Bytes -> Digest, s: JournalState, e: JournalEntry): Option<JournalError> {
    if |e.debits| == 0 || |e.credits| == 0 then Some(EmptyEntry)
    else
      SumNonNegative(AmountOf, e.debits);
      SumNonNegative(AmountOf, e.credits);
      if Sum(AmountOf, e.debits) != Sum(AmountOf, e.credits) then
        Some(UnbalancedEntry(Sum(AmountOf, e.debits), Sum(AmountOf, e.credits)))
      else if e.sequence != ExpectedSequence(s.entries) then Some(SequenceGap(ExpectedSequence(s.entries), e.sequence))
      else if e.entryHash != ComputeEntryHash(sha, e, HeadHash(s.entries)) then Some(InvalidHash)
      else if e.previousEntryHash != HeadHash(s.entries) then Some(InvalidHash)
      else None
  }

  function ReceiptFor(e: JournalEntry, b: Balances): JournalReceipt {
    JournalReceipt(e.sequence, e.entryHash, e.previousEntryHash, b)
  }

  /** `post_entry`.  A refusal for a negative balance comes after the postings were applied, and they
      stay applied. */
  function Post(sha: Bytes -> Digest, s: JournalState, e: JournalEntry): (JournalState, PostResult) {
    if e.entryId in s.receipts then (s, Posted(s.receipts[e.entryId]))
    else
      var checked := CheckEntry(sha, s, e);
      if checked.Some? then (s, Refused(checked.value))
      else
        var (b, overflow) := PostBoth(s.balances, e.debits, e.credits);
        if overflow.Some? then (s.(balances := b), Refused(overflow.value))
        else
          if !SignsOk(b) then (s.(balances := b), Refused(NegativeBalance))
          else (JournalState(s.entries + [e], b, s.receipts[e.entryId := ReceiptFor(e, b)]), Posted(ReceiptFor(e, b)))
  }

  /** Whether an entry gets as far as moving balances. */
  predicate Reaches(sha: Bytes -> Digest, s: JournalState, e: JournalEntry) {
    e.entryId !in s.receipts && CheckEntry(sha, s, e).None?
  }

  // ---------------------------------------------------------------- the trial balance

  /** The numbers of one line of the trial balance. */
  function BalanceText(bal: AccountBalance): (r: Bytes)
    ensures NEWLINE !in r
  {
    Decimal(bal.totalDebits) + [BAR] + Decimal(bal.totalCredits) + [BAR] + SignedDecimal(bal.net)
  }

  /** What `compute_trial_balance_hash` feeds the hasher, over accounts in their order. */
  function TrialBytes(b: Balances, accounts: seq<StandardAccount>): Bytes {
    if |accounts| == 0 then []
    else AccountName(accounts[0]) + [BAR] + BalanceText(b[accounts[0]]) + [NEWLINE] + TrialBytes(b, accounts[1..])
  }

  function TrialBalanceHash(sha: Bytes -> Digest, b: Balances): Bytes {
    Hex(sha(TrialBytes(b, ALL_ACCOUNTS)))
  }

  /** An order in which a map over all accounts may be walked. */
  ghost predicate Walks(order: seq<StandardAccount>) {
    forall a :: a in order
  }

  // ---------------------------------------------------------------- the ledger as the code keeps it

  class InMemoryLedger {
    const sha: Bytes -> Digest
    var entries: seq<JournalEntry>
    var balances: Balances
    var receipts: map<Text, JournalReceipt>
    var trials: map<Text, Bytes>

    /** Every receipt comes with the trial-balance hash of its balances. */
    predicate TrialsKept()
      reads this
    {
      receipts.Keys == trials.Keys && forall id :: id in receipts ==> trials[id] == TrialBalanceHash(sha, receipts[id].accountBalances)
    }

    function State(): JournalState
      reads this
    {
      JournalState(entries, balances, receipts)
    }

    constructor (sha: Bytes -> Digest)
      ensures State() == EMPTY_JOURNAL && this.sha == sha && TrialsKept()
    {
      this.sha := sha;
      entries, balances, receipts, trials := [], INITIAL_BALANCES, map[], map[];
    }

    method SumAmounts(ps: seq<Posting>) returns (total: nat)
      ensures total == Sum(AmountOf, ps)
    {
      total := 0;
      for i := |ps| downto 0
        invariant total == Sum(AmountOf, ps[i..])
      {
        assert ps[i..][1..] == ps[i + 1..];
        total := total + ps[i].amountSats;
      }
      assert ps[0..] == ps;
    }

    method ApplyPosting(p: Posting, side: Side) returns (failed: Option<JournalError>)
      modifies this`balances
      ensures (balances, failed) == PostOne(old(balances), p, side)
    {
      var bal := balances[p.account];
      var total := (if side == DebitSide then bal.totalDebits else bal.totalCredits) + p.amountSats;
      if total >= U128_SIZE {
        return Some(BalanceOverflow(p.account));
      }
      bal := if side == DebitSide then bal.(totalDebits := total) else bal.(totalCredits := total);
      balances := balances[p.account := bal];
      var net := AsI128(bal.totalDebits) - AsI128(bal.totalCredits);
      if !(-I128_LIMIT <= net < I128_LIMIT) {
        return Some(BalanceOverflow(p.account));
      }
      balances := balances[p.account := bal.(net := net)];
      assert balances == old(balances)[p.account := bal.(net := net)];
      return None;
    }

    method ApplyPostings(ps: seq<Posting>, side: Side) returns (failed: Option<JournalError>)
      modifies this`balances
      ensures (balances, failed) == PostAll(old(balances), ps, side)
    {
      var i := 0;
      while i < |ps|
        invariant i <= |ps|
        invariant PostAll(balances, ps[i..], side) == PostAll(old(balances), ps, side)
      {
        assert ps[i..][0] == ps[i] && ps[i..][1..] == ps[i + 1..];
        failed := ApplyPosting(ps[i], side);
        if failed.Some? {
          return;
        }
        i := i + 1;
      }
      return None;
    }

    /** The first account with the wrong sign, in the order the map is walked. */
    method CheckSigns(order: seq<StandardAccount>) returns (offender: Option<StandardAccount>)
      requires Walks(order)
      ensures offender.None? <==> SignsOk(balances)
      ensures offender.Some? ==> offender.value in order && !SignOk(offender.value, balances[offender.value])
    {
      var i := 0;
      while i < |order|
        invariant i <= |order|
        invariant forall k :: 0 <= k < i ==> SignOk(order[k], balances[order[k]])
      {
        if !SignOk(order[i], balances[order[i]]) {
          return Some(order[i]);
        }
        i := i + 1;
      }
      forall a | a in balances ensures SignOk(a, balances[a]) {
        assert a in order;
      }
      return None;
    }

    method ComputeTrialBalanceHash() returns (hash: Bytes)
      ensures hash == TrialBalanceHash(sha, balances)
    {
      var accounts := ALL_ACCOUNTS;
      var fed: Bytes := [];
      for i := |accounts| downto 0
        invariant fed == TrialBytes(balances, accounts[i..])
      {
        assert accounts[i..][0] == accounts[i] && accounts[i..][1..] == accounts[i + 1..];
        fed := AccountName(accounts[i]) + [BAR] + BalanceText(balances[accounts[i]]) + [NEWLINE] + fed;
      }
      assert accounts[0..] == accounts;
      hash := Hex(sha(fed));
    }

    method Check(e: JournalEntry) returns (r: Option<JournalError>)
      ensures r == CheckEntry(sha, State(), e)
    {
      if |e.debits| == 0 || |e.credits| == 0 {
        return Some(EmptyEntry);
      }
      var debits := SumAmounts(e.debits);
      var credits := SumAmounts(e.credits);
      if debits != credits {
        return Some(UnbalancedEntry(debits, credits));
      }
      var expected := ExpectedSequence(entries);
      if e.sequence != expected {
        return Some(SequenceGap(expected, e.sequence));
      }
      var previous := HeadHash(entries);
      if e.entryHash != ComputeEntryHash(sha, e, previous) {
        return Some(InvalidHash);
      }
      if e.previousEntryHash != previous {
        return Some(InvalidHash);
      }
      return None;
    }

    /** `post_entry`, walking the balances in some `order`.  A receipt's trial-balance hash is that of the
        balances it carries, and a negative balance is reported for an account that has one. */
    method PostEntry(e: JournalEntry, order: seq<StandardAccount>)
        returns (r: PostResult, trial: Option<Bytes>, offender: Option<(StandardAccount, i128)>)
      requires Walks(order) && TrialsKept()
      modifies this
      ensures (State(), r) == Post(sha, old(State()), e)
      ensures TrialsKept()
      ensures r.Posted? ==> trial == Some(TrialBalanceHash(sha, r.receipt.accountBalances))
      ensures offender.Some? <==> r == Refused(NegativeBalance)
      ensures offender.Some? ==>
        !SignOk(offender.value.0, balances[offender.value.0]) && offender.value.1 == balances[offender.value.0].net
    {
      trial, offender := None, None;
      if e.entryId in receipts {
        return Posted(receipts[e.entryId]), Some(trials[e.entryId]), None;
      }
      var checked := Check(e);
      if checked.Some? {
        return Refused(checked.value), None, None;
      }
      var overflow := ApplyPostings(e.debits, DebitSide);
      if overflow.Some? {
        PostAllError(old(balances), e.debits, DebitSide);
        return Refused(overflow.value), None, None;
      }
      ghost var debited := balances;
      overflow := ApplyPostings(e.credits, CreditSide);
      if overflow.Some? {
        PostAllError(debited, e.credits, CreditSide);
        return Refused(overflow.value), None, None;
      }
      var wrong := CheckSigns(order);
      if wrong.Some? {
        return Refused(NegativeBalance), None, Some((wrong.value, balances[wrong.value].net));
      }
      var hash := ComputeTrialBalanceHash();
      entries := entries + [e];
      var receipt := ReceiptFor(e, balances);
      receipts := receipts[e.entryId := receipt];
      trials := trials[e.entryId := hash];
      return Posted(receipt), Some(hash), None;
    }
  }
}
