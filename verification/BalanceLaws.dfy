/** What each balance command answers and leaves behind, in terms of the account it names. */
module BalanceLaws {
  import opened Binary
  import opened LedgerTypes
  import opened Sequences
  import opened Accounts
  import opened Ledger

  // ---------------------------------------------------------------- the account a command names

  predicate First(accounts: seq<AccountState>, id: Text, i: nat) {
    i < |accounts| && accounts[i].accountId == id && forall k :: 0 <= k < i ==> accounts[k].accountId != id
  }

  predicate Absent(accounts: seq<AccountState>, id: Text) {
    forall k :: 0 <= k < |accounts| ==> accounts[k].accountId != id
  }

  lemma {:induction false} FoundFirst(accounts: seq<AccountState>, id: Text, i: nat)
    requires First(accounts, id, i)
    ensures FindAccount(accounts, id) == Some(i)
  {
  }

  /** An account that has never been used. */
  function Blank(id: Text): AccountState {
    AccountState(id, 0, 0, 0, 0, 0, 0)
  }

  function Plus1(v: u64): u64 {
    (v + 1) % U64_SIZE
  }

  /** The same account with new balances, one version later. */
  function Moved(a: AccountState, available: u64, reserved: u64): AccountState {
    AccountState(a.accountId, Plus1(a.version), available, reserved, a.pendingIncomingSats, a.pendingOutgoingSats, a.lastCommittedSequence)
  }

  /** The same ledger with new accounts, one version later. */
  function Stepped(s: LedgerState, accounts: seq<AccountState>): LedgerState {
    LedgerState(Plus1(s.version), accounts, s.journal, s.reservations, s.consumedIntents, s.membership, s.utxos)
  }

  /** New accounts and a verdict on them: success commits them, failure leaves them behind. */
  function Answer(s: LedgerState, accounts: seq<AccountState>, r: Result<()>, affected: seq<Text>): (LedgerState, Result<seq<Text>>) {
    if r.Ok? then (Stepped(s, accounts), Ok(affected)) else (s.(accounts := accounts), Err(r.error))
  }

  lemma TransitionOfBalance(env: Env, s: LedgerState, cmd: LedgerCommand)
    requires IsBalanceCommand(cmd.commandType)
    ensures var v := ValidateBalance(s, cmd);
      var (accounts, r) := OperateOn(s.accounts, cmd.partitionKey, OperationOf(cmd.commandType), AmountOf(cmd));
      Transition(env, s, cmd) == if v.Err? then (s, Err(v.error)) else Answer(s, accounts, r, [cmd.partitionKey])
  {
    BumpIsPlus1(s.version);
    assert Effect(env, s, cmd) == EffectBalance(s, cmd);
  }

  lemma BumpIsPlus1(v: u64)
    ensures Bump(v) == Plus1(v)
  {
  }

  predicate VersionFits(cmd: LedgerCommand, a: AccountState) {
    cmd.expectedVersion.None? || cmd.expectedVersion == Some(a.version)
  }

  /** The amount is what the commitment spells in decimal. */
  lemma {:induction false} AmountSpelled(cmd: LedgerCommand, n: u64)
    requires cmd.authorizationCommitment == Decimal(n)
    ensures Amount(cmd) == n
  {
    ParseDecimal(n, U64_SIZE);
  }

  // ---------------------------------------------------------------- accounts that exist

  /** A credit succeeds exactly when the version fits and the balance does not overflow.  Without an
      expected version it credits nothing. */
  lemma CreditLaw(env: Env, s: LedgerState, cmd: LedgerCommand, i: nat)
    requires cmd.commandType == CreditInternalBalance && First(s.accounts, cmd.partitionKey, i)
    ensures var key, a, n := cmd.partitionKey, s.accounts[i], if cmd.expectedVersion.Some? then Amount(cmd) else 0;
      Transition(env, s, cmd) ==
        if !VersionFits(cmd, a) then (s, Err(VersionConflict(key, cmd.expectedVersion.value, a.version)))
        else if a.availableSats + n >= U64_SIZE then (s, Err(InvariantViolation(key, CreditOverflow)))
        else (Stepped(s, s.accounts[i := Moved(a, a.availableSats + n, a.reservedSats)]), Ok([key]))
  {
    FoundFirst(s.accounts, cmd.partitionKey, i);
    TransitionOfBalance(env, s, cmd);
    assert s.accounts[i := s.accounts[i]] == s.accounts;
  }

  /** A debit succeeds exactly when the version fits and the balance covers it. */
  lemma DebitLaw(env: Env, s: LedgerState, cmd: LedgerCommand, i: nat)
    requires cmd.commandType == DebitInternalBalance && First(s.accounts, cmd.partitionKey, i)
    ensures var key, a, n := cmd.partitionKey, s.accounts[i], Amount(cmd);
      Transition(env, s, cmd) ==
        if !VersionFits(cmd, a) then (s, Err(VersionConflict(key, cmd.expectedVersion.value, a.version)))
        else if n > a.availableSats then (s, Err(InsufficientFunds(key, a.availableSats, n)))
        else (Stepped(s, s.accounts[i := Moved(a, a.availableSats - n, a.reservedSats)]), Ok([key]))
  {
    FoundFirst(s.accounts, cmd.partitionKey, i);
    TransitionOfBalance(env, s, cmd);
    assert s.accounts[i := s.accounts[i]] == s.accounts;
  }

  /** A reserve moves the amount from available to reserved, and succeeds exactly when the version fits,
      the available balance covers it and the reserved one does not overflow.  An overflow is found
      with the available balance already reduced. */
  lemma ReserveLaw(env: Env, s: LedgerState, cmd: LedgerCommand, i: nat)
    requires cmd.commandType == ReserveBalance && First(s.accounts, cmd.partitionKey, i)
    ensures var key, a, n := cmd.partitionKey, s.accounts[i], Amount(cmd);
      Transition(env, s, cmd) ==
        if !VersionFits(cmd, a) then (s, Err(VersionConflict(key, cmd.expectedVersion.value, a.version)))
        else if n > a.availableSats then (s, Err(InsufficientFunds(key, a.availableSats, n)))
        else if a.reservedSats + n >= U64_SIZE then
          (s.(accounts := s.accounts[i := a.(availableSats := a.availableSats - n)]), Err(InvariantViolation(key, ReservedOverflow)))
        else (Stepped(s, s.accounts[i := Moved(a, a.availableSats - n, a.reservedSats + n)]), Ok([key]))
  {
    FoundFirst(s.accounts, cmd.partitionKey, i);
    TransitionOfBalance(env, s, cmd);
    assert s.accounts[i := s.accounts[i]] == s.accounts;
  }

  /** A release moves the amount from reserved to available, under the mirrored conditions. */
  lemma ReleaseLaw(env: Env, s: LedgerState, cmd: LedgerCommand, i: nat)
    requires cmd.commandType == ReleaseBalance && First(s.accounts, cmd.partitionKey, i)
    ensures var key, a, n := cmd.partitionKey, s.accounts[i], Amount(cmd);
      Transition(env, s, cmd) ==
        if !VersionFits(cmd, a) then (s, Err(VersionConflict(key, cmd.expectedVersion.value, a.version)))
        else if n > a.reservedSats then (s, Err(InvariantViolation(key, ReleaseExceedsReserved)))
        else if a.availableSats + n >= U64_SIZE then
          (s.(accounts := s.accounts[i := a.(reservedSats := a.reservedSats - n)]), Err(InvariantViolation(key, ReleaseOverflow)))
        else (Stepped(s, s.accounts[i := Moved(a, a.availableSats + n, a.reservedSats - n)]), Ok([key]))
  {
    FoundFirst(s.accounts, cmd.partitionKey, i);
    TransitionOfBalance(env, s, cmd);
    assert s.accounts[i := s.accounts[i]] == s.accounts;
  }

  // ---------------------------------------------------------------- accounts that do not

  function ExpectedOrZero(cmd: LedgerCommand): u64 {
    if cmd.expectedVersion.Some? then cmd.expectedVersion.value else 0
  }

  /** Debits and reserves of an unknown account conflict and change nothing. */
  lemma UnknownDebitLaw(env: Env, s: LedgerState, cmd: LedgerCommand)
    requires cmd.commandType == DebitInternalBalance || cmd.commandType == ReserveBalance
    requires Absent(s.accounts, cmd.partitionKey)
    ensures Transition(env, s, cmd) == (s, Err(VersionConflict(cmd.partitionKey, ExpectedOrZero(cmd), 0)))
  {
    assert FindAccount(s.accounts, cmd.partitionKey).None?;
  }

  lemma CreatedLast(accounts: seq<AccountState>, id: Text, a: AccountState)
    requires Absent(accounts, id)
    ensures GetOrCreate(accounts, id) == (accounts + [Blank(id)], |accounts|)
    ensures (accounts + [Blank(id)])[|accounts| := a] == accounts + [a]
  {
    assert FindAccount(accounts, id).None?;
  }

  /** A credit of an unknown account opens it, unless another version than 0 was expected. */
  lemma UnknownCreditLaw(env: Env, s: LedgerState, cmd: LedgerCommand)
    requires cmd.commandType == CreditInternalBalance && Absent(s.accounts, cmd.partitionKey)
    ensures var n := if cmd.expectedVersion.Some? then Amount(cmd) else 0;
      var key := cmd.partitionKey;
      Transition(env, s, cmd) ==
        if ExpectedOrZero(cmd) == 0 then (Stepped(s, s.accounts + [AccountState(key, 1, n, 0, 0, 0, 0)]), Ok([key]))
        else (s, Err(VersionConflict(key, ExpectedOrZero(cmd), 0)))
  {
    var n := if cmd.expectedVersion.Some? then Amount(cmd) else 0;
    CreatedLast(s.accounts, cmd.partitionKey, AccountState(cmd.partitionKey, 1, n, 0, 0, 0, 0));
  }

  /** A release of an unknown account conflicts if a version was expected; otherwise it opens the
      account and fails there, unless it releases nothing. */
  lemma UnknownReleaseLaw(env: Env, s: LedgerState, cmd: LedgerCommand)
    requires cmd.commandType == ReleaseBalance && Absent(s.accounts, cmd.partitionKey)
    ensures var key := cmd.partitionKey;
      Transition(env, s, cmd) ==
        if cmd.expectedVersion.Some? then (s, Err(VersionConflict(key, cmd.expectedVersion.value, 0)))
        else if Amount(cmd) == 0 then (Stepped(s, s.accounts + [AccountState(key, 1, 0, 0, 0, 0, 0)]), Ok([key]))
        else (s.(accounts := s.accounts + [Blank(key)]), Err(InvariantViolation(key, ReleaseExceedsReserved)))
  {
    CreatedLast(s.accounts, cmd.partitionKey, AccountState(cmd.partitionKey, 1, 0, 0, 0, 0, 0));
    CreatedLast(s.accounts, cmd.partitionKey, Blank(cmd.partitionKey));
  }

  // ---------------------------------------------------------------- transfers

  /** `ready` is the accounts with `id` added if it was missing, and `i` is where it is. */
  predicate Opened(accounts: seq<AccountState>, id: Text, ready: seq<AccountState>, i: nat) {
    || (ready == accounts && First(accounts, id, i))
    || (ready == accounts + [Blank(id)] && Absent(accounts, id) && i == |accounts|)
  }

  lemma OpenedIs(accounts: seq<AccountState>, id: Text, ready: seq<AccountState>, i: nat)
    requires Opened(accounts, id, ready, i)
    ensures GetOrCreate(accounts, id) == (ready, i) && First(ready, id, i)
  {
    if Absent(accounts, id) {
      assert FindAccount(accounts, id).None?;
    } else {
      FoundFirst(accounts, id, i);
    }
  }

  /** Changing balances does not move accounts around. */
  lemma OpenedAfter(accounts: seq<AccountState>, i: nat, a: AccountState, id: Text, ready: seq<AccountState>, j: nat)
    requires i < |accounts| && a.accountId == accounts[i].accountId
    requires Opened(accounts, id, ready, j)
    ensures Opened(accounts[i := a], id, ready[i := a], j)
  {
    if ready == accounts {
      assert First(accounts[i := a], id, j);
    } else {
      assert accounts[i := a] + [Blank(id)] == (accounts + [Blank(id)])[i := a];
    }
  }

  /** The two parts of a transfer's key: everything before the first bar, and everything after it. */
  lemma TransferKey(cmd: LedgerCommand, source: Text, dest: Text)
    requires cmd.partitionKey == source + [BAR] + dest && BAR !in source
    ensures SplitTransfer(cmd.partitionKey) == Some(TransferParts(source, dest))
  {
    var key := cmd.partitionKey;
    assert key[|source|] == BAR;
    DelimitedEqual(SplitOnce(key, BAR).value.0, SplitOnce(key, BAR).value.1, source, dest, BAR);
  }

  /** A key without a bar is no transfer. */
  lemma NoTransferLaw(env: Env, s: LedgerState, cmd: LedgerCommand)
    requires cmd.commandType == CommitInternalTransfer && BAR !in cmd.partitionKey
    ensures Transition(env, s, cmd) == (s, Err(AtomicTransferFailed))
  {
  }

  lemma DebitAt(accounts: seq<AccountState>, id: Text, n: u64, ready: seq<AccountState>, i: nat)
    requires Opened(accounts, id, ready, i)
    ensures i < |ready|
    ensures var a := ready[i];
      OperateOn(accounts, id, Debit, n) ==
        if n > a.availableSats then (ready, Err(InsufficientFunds(id, a.availableSats, n)))
        else (ready[i := Moved(a, a.availableSats - n, a.reservedSats)], Ok(()))
  {
    OpenedIs(accounts, id, ready, i);
    assert ready[i := ready[i]] == ready;
  }

  lemma CreditAt(accounts: seq<AccountState>, id: Text, n: u64, ready: seq<AccountState>, i: nat)
    requires Opened(accounts, id, ready, i)
    ensures i < |ready|
    ensures var a := ready[i];
      OperateOn(accounts, id, Credit, n) ==
        if a.availableSats + n >= U64_SIZE then (ready, Err(InvariantViolation(id, CreditOverflow)))
        else (ready[i := Moved(a, a.availableSats + n, a.reservedSats)], Ok(()))
  {
    OpenedIs(accounts, id, ready, i);
    assert ready[i := ready[i]] == ready;
  }

  lemma TwoPlaces(ready: seq<AccountState>, source: Text, i: nat, dest: Text, both: seq<AccountState>, j: nat)
    requires First(ready, source, i) && Opened(ready, dest, both, j) && source != dest
    ensures i < |both| && j < |both| && i != j && both[i] == ready[i]
  {
  }

  /** The accounts and verdict of a transfer of `n` from place `i` to place `j`. */
  function TransferAnswer(source: Text, dest: Text, n: u64, ready: seq<AccountState>, i: nat, both: seq<AccountState>, j: nat): (seq<AccountState>, Result<()>)
    requires i < |ready| && i < |both| && j < |both|
  {
    var a, b := ready[i], both[j];
    if n > a.availableSats then (ready, Err(InsufficientFunds(source, a.availableSats, n)))
    else
      var debited := both[i := Moved(a, a.availableSats - n, a.reservedSats)];
      if b.availableSats + n >= U64_SIZE then (debited, Err(InvariantViolation(dest, CreditOverflow)))
      else (debited[j := Moved(b, b.availableSats + n, b.reservedSats)], Ok(()))
  }

  lemma TransferIs(accounts: seq<AccountState>, source: Text, dest: Text, n: u64,
                   ready: seq<AccountState>, i: nat, both: seq<AccountState>, j: nat)
    requires Opened(accounts, source, ready, i) && Opened(ready, dest, both, j) && source != dest
    ensures i < |ready| && i < |both| && j < |both| && i != j && both[i] == ready[i]
    ensures Transfer(accounts, TransferParts(source, dest), n) == TransferAnswer(source, dest, n, ready, i, both, j)
  {
    OpenedIs(accounts, source, ready, i);
    TwoPlaces(ready, source, i, dest, both, j);
    DebitAt(accounts, source, n, ready, i);
    var a := ready[i];
    if n <= a.availableSats {
      var debited := Moved(a, a.availableSats - n, a.reservedSats);
      OpenedAfter(ready, i, debited, dest, both, j);
      CreditAt(ready[i := debited], dest, n, both[i := debited], j);
    }
  }

  lemma TransitionOfTransfer(env: Env, s: LedgerState, cmd: LedgerCommand, p: TransferParts)
    requires cmd.commandType == CommitInternalTransfer && SplitTransfer(cmd.partitionKey) == Some(p)
    ensures var (accounts, r) := Transfer(s.accounts, p, Amount(cmd));
      Transition(env, s, cmd) == Answer(s, accounts, r, [p.source, p.dest])
  {
    EffectTransferIs(s, cmd, p);
    BumpIsPlus1(s.version);
    assert Validate(env, s, cmd).Ok? && Effect(env, s, cmd) == EffectTransfer(s, cmd);
  }

  lemma EffectTransferIs(s: LedgerState, cmd: LedgerCommand, p: TransferParts)
    requires SplitTransfer(cmd.partitionKey) == Some(p)
    ensures var (accounts, r) := Transfer(s.accounts, p, Amount(cmd));
      EffectTransfer(s, cmd) == (s.(accounts := accounts), if r.Ok? then Ok([p.source, p.dest]) else Err(r.error))
  {
  }

  /** A transfer between different accounts debits the first and credits the second, each one version
      later, and succeeds exactly when the balance covers it and the credit does not overflow.  A
      missing account on either side is ready first.  When the debit fails nothing but that is left
      behind; when the credit fails the debit stays. */
  lemma TransferLaw(env: Env, s: LedgerState, cmd: LedgerCommand, source: Text, dest: Text,
                    ready: seq<AccountState>, i: nat, both: seq<AccountState>, j: nat)
    requires cmd.commandType == CommitInternalTransfer
    requires cmd.partitionKey == source + [BAR] + dest && BAR !in source && source != dest
    requires Opened(s.accounts, source, ready, i) && Opened(ready, dest, both, j)
    ensures i < |ready| && i < |both| && j < |both| && i != j && both[i] == ready[i]
    ensures var (accounts, r) := TransferAnswer(source, dest, Amount(cmd), ready, i, both, j);
      Transition(env, s, cmd) == Answer(s, accounts, r, [source, dest])
  {
    TransferKey(cmd, source, dest);
    TransitionOfTransfer(env, s, cmd, TransferParts(source, dest));
    TransferIs(s.accounts, source, dest, Amount(cmd), ready, i, both, j);
  }

  /** A transfer to oneself keeps the balance and moves the version twice, if the balance covers it. */
  lemma SelfTransferLaw(env: Env, s: LedgerState, cmd: LedgerCommand, id: Text, ready: seq<AccountState>, i: nat)
    requires cmd.commandType == CommitInternalTransfer
    requires cmd.partitionKey == id + [BAR] + id && BAR !in id
    requires Opened(s.accounts, id, ready, i)
    ensures i < |ready|
    ensures var a, n := ready[i], Amount(cmd);
      Transition(env, s, cmd) ==
        if n > a.availableSats then (s.(accounts := ready), Err(InsufficientFunds(id, a.availableSats, n)))
        else (Stepped(s, ready[i := a.(version := Plus1(Plus1(a.version)))]), Ok([id, id]))
  {
    TransferKey(cmd, id, id);
    TransitionOfTransfer(env, s, cmd, TransferParts(id, id));
    SelfTransferIs(s.accounts, id, Amount(cmd), ready, i);
  }

  lemma SelfTransferIs(accounts: seq<AccountState>, id: Text, n: u64, ready: seq<AccountState>, i: nat)
    requires Opened(accounts, id, ready, i)
    ensures i < |ready|
    ensures var a := ready[i];
      Transfer(accounts, TransferParts(id, id), n) ==
        if n > a.availableSats then (ready, Err(InsufficientFunds(id, a.availableSats, n)))
        else (ready[i := a.(version := Plus1(Plus1(a.version)))], Ok(()))
  {
    OpenedIs(accounts, id, ready, i);
    DebitAt(accounts, id, n, ready, i);
    var a := ready[i];
    if n <= a.availableSats {
      var debited, after := Moved(a, a.availableSats - n, a.reservedSats), a.(version := Plus1(Plus1(a.version)));
      assert First(ready[i := debited], id, i);
      CreditAt(ready[i := debited], id, n, ready[i := debited], i);
      assert ready[i := debited][i := after] == ready[i := after];
    }
  }

  // ---------------------------------------------------------------- intents, nodes, and the rest

  predicate IsRest(t: CommandType) {
    OnlyCounts(t) || t == ConsumeIntent || t == ExpireIntent || t == AddObserverNode || t == RemoveNode
  }

  lemma TransitionOfRest(env: Env, s: LedgerState, cmd: LedgerCommand)
    requires IsRest(cmd.commandType)
    ensures var (t, r) := EffectRest(s, cmd); Transition(env, s, cmd) == (t.(version := Plus1(s.version)), r)
  {
    BumpIsPlus1(s.version);
    assert Validate(env, s, cmd).Ok? && Effect(env, s, cmd) == EffectRest(s, cmd);
  }

  function Recorded(items: seq<Text>, x: Text): seq<Text> {
    if x in items then items else items + [x]
  }

  /** Consuming or expiring an intent records it once. */
  lemma IntentLaw(env: Env, s: LedgerState, cmd: LedgerCommand)
    requires cmd.commandType == ConsumeIntent || cmd.commandType == ExpireIntent
    ensures Transition(env, s, cmd) ==
      (Stepped(s, s.accounts).(consumedIntents := Recorded(s.consumedIntents, cmd.partitionKey)), Ok([cmd.partitionKey]))
  {
    TransitionOfRest(env, s, cmd);
  }

  /** Adding a node lists it once. */
  lemma ObserverLaw(env: Env, s: LedgerState, cmd: LedgerCommand)
    requires cmd.commandType == AddObserverNode
    ensures Transition(env, s, cmd) ==
      (Stepped(s, s.accounts).(membership := s.membership.(nodes := Recorded(s.membership.nodes, cmd.partitionKey))), Ok([Ascii("membership")]))
  {
    TransitionOfRest(env, s, cmd);
  }

  /** Removing a node takes out every occurrence of it and keeps all others, in order. */
  lemma RemovalLaw(env: Env, s: LedgerState, cmd: LedgerCommand, before: seq<Text>, after: seq<Text>)
    requires cmd.commandType == RemoveNode
    requires s.membership.nodes == before + [cmd.partitionKey] + after && cmd.partitionKey !in before && cmd.partitionKey !in after
    ensures Transition(env, s, cmd) ==
      (Stepped(s, s.accounts).(membership := s.membership.(nodes := before + after)), Ok([Ascii("membership")]))
  {
    RemainingAround(before, cmd.partitionKey, after);
    TransitionOfRest(env, s, cmd);
  }

  lemma RemainingAround(before: seq<Text>, x: Text, after: seq<Text>)
    requires x !in before && x !in after
    ensures Remaining(before + [x] + after, x) == before + after
  {
    RemainingBefore(before, x);
    RemainingAll(after, x);
    RemainingSplit(before + [x], after, x);
  }

  lemma RemainingBefore(before: seq<Text>, x: Text)
    requires x !in before
    ensures Remaining(before + [x], x) == before
  {
    RemainingAll(before, x);
    RemainingOne(x);
    RemainingSplit(before, [x], x);
    assert before + [] == before;
  }

  lemma NoMembers(r: seq<Text>)
    ensures (forall y :: y !in r) ==> r == []
  {
    assert r != [] ==> r[0] in r;
  }

  lemma RemainingOne(x: Text)
    ensures Remaining([x], x) == []
  {
    NoMembers(Remaining([x], x));
  }

  lemma {:induction false} RemainingSplit(a: seq<Text>, b: seq<Text>, x: Text)
    ensures Remaining(a + b, x) == Remaining(a, x) + Remaining(b, x)
  {
    if |a| == 0 {
      assert a + b == b;
    } else {
      assert (a + b)[0] == a[0] && (a + b)[1..] == a[1..] + b;
      RemainingSplit(a[1..], b, x);
    }
  }

  lemma {:induction false} RemainingAll(a: seq<Text>, x: Text)
    requires x !in a
    ensures Remaining(a, x) == a
  {
    if |a| > 0 {
      RemainingAll(a[1..], x);
    }
  }

  /** However often a node is listed, removal leaves none of it and every other as often as before. */
  lemma RemovalCounts(env: Env, s: LedgerState, cmd: LedgerCommand, x: Text)
    requires cmd.commandType == RemoveNode
    ensures multiset(Transition(env, s, cmd).0.membership.nodes)[x] ==
      if x == cmd.partitionKey then 0 else multiset(s.membership.nodes)[x]
  {
    TransitionOfRest(env, s, cmd);
    RemainingCount(s.membership.nodes, cmd.partitionKey, x);
  }

  lemma RemainingCount(items: seq<Text>, gone: Text, x: Text)
    ensures multiset(Remaining(items, gone))[x] == if x == gone then 0 else multiset(items)[x]
  {
    FilterMultiset((n: Text) => n != gone, items, x);
  }

  predicate OnlyCounts(t: CommandType) {
    t == PrepareWithdrawal || t == AuthorizeWithdrawal || t == BroadcastWithdrawal || t == ConfirmWithdrawal || t == FailWithdrawal
    || t == PromoteVotingNode || t == InstallSnapshot
  }

  /** The remaining commands always succeed and move nothing but the version. */
  lemma CountingLaw(env: Env, s: LedgerState, cmd: LedgerCommand)
    requires OnlyCounts(cmd.commandType)
    ensures var (t, r) := Transition(env, s, cmd);
      && t == Stepped(s, s.accounts)
      && (cmd.commandType == PromoteVotingNode ==> r == Ok([Ascii("membership")]))
      && (cmd.commandType == InstallSnapshot ==> r == Ok([Ascii("snapshot")]))
      && (cmd.commandType != PromoteVotingNode && cmd.commandType != InstallSnapshot ==> r == Ok([cmd.partitionKey]))
  {
    TransitionOfRest(env, s, cmd);
  }
}
