# Kerosene: replicated ledger, membership and node readiness

A Dafny model of the parts of Kerosene that keep money and trust consistent, with proofs about every
run of them.  `dafny verify dfyconfig.toml` checks the whole project.

**The replicated ledger.**  `Ledger` and `StateMachine` model the deterministic state machine over its
23 command types; `StateRoot`, `EncodingLaws` and `RootBinding` the state root, its independence of
storage order and what it pins down; `Bisimulation` shows that replicas with different storage orders never diverge;
`BalanceLaws` and `UtxoLaws` say what every command answers and leaves behind, field by field;
`Conservation`, `Versions`, `Receipts`, `UtxoRuns`, `Reorgs` and `Recovery` hold the laws over whole
logs; `Journal`, `JournalLaws`, `JournalRuns` and `JournalHash` the hash-chained double-entry journal;
`Reconciliation` the saturating totals and the withdrawal gate; `AccountStore` the map-backed store.

**Membership and readiness.**  `Membership`, `MembershipLaws` and `MembershipRuns` model the OLD ->
JOINT -> NEW roster protocol; `Discovery` and `DiscoveryLaws` single-use challenges and
authentication; `Node`, `NodeLaws` and `NodeRuns` a node with its manifest log, live peers and
forward-only lifecycle, through restarts and lost saves.

`Binary`, `Sequences`, `Collisions` and `LedgerTypes` hold byte strings, encodings, sorting and sums.

How things are represented:

- A Rust string is its UTF-8 bytes.  `u64`, `u128` and `i128` are bounded integers; checked and
  saturating operations are written out, and a plain `+= 1` wraps, as in a release build.
- A manifest's signatures cover its content without the signature list, as the signing tool relies on.
- SHA-256, signature verification, the canonical manifest hash, member ids, key decoding, endpoint
  parsing and JSON decoding are function parameters about which nothing is assumed.  Binding
  theorems say "equal, or two of these byte strings share a digest", over the explicit set of strings
  that were hashed: a collision somewhere always exists.
- Clocks, random challenges and the success or failure of each disk write are parameters.  A file is a
  value replaced atomically.  A crash inside a call is the call with its later saves lost, followed by
  a restart.
- Locks are not modelled: each call is one step.

Where the code falls short of a law, the law is proved with its exact condition: rejected reserves,
releases and transfers can destroy money (`RejectionExact`); a journal post refused for a negative
balance leaves its postings behind (`RefusalExact`, `PoisonedExactly`); an entry id may imitate the
text after it (`HeadAmbiguity`); recovery filters by epoch and not by sequence (`RecoveryExactIff`);
catch-up through a snapshot replays every command and not the remaining ones its documentation
speaks of (`CatchUpExactIff`, `OldSnapshotExactIff`); rejected commands can move the root without a
receipt (`ReceiptsLink`); a store transfer to oneself makes money (`SelfTransferMakesMoney`);
saturated totals hide a deficit (`GateExact`).  Lemmas
at concrete inputs, or at whole families of them, stand beside these.

The comment on `reconcile` calls only a zero difference balanced, and the code also a surplus within
the tolerance; the comment on `compute_total_liabilities` leaves out pending outgoing amounts, and
the code counts them.  The model follows the code.

## Model

| member | source | states |
|---|---|---|
| `Accounts.OperationMoves` | crates/kerosene-ledger/src/account_state.rs:65-147 | a credit, debit, reserve or release that succeeds moves exactly its net inflow and bumps the version; one that is rejected keeps the account as it was if and only if its second leg did not overflow, and otherwise loses exactly the amount |
| `Accounts.RejectedReserveDestroysMoney` | crates/kerosene-ledger/src/account_state.rs:100-123 | a concrete account on which a rejected reserve leaves less money than before |
| `Accounts.Account.ApplyCredit` | crates/kerosene-ledger/src/account_state.rs:65-76 | field by field, the credit operation proved about above |
| `Accounts.Account.ApplyDebit` | crates/kerosene-ledger/src/account_state.rs:79-97 | the debit operation, including insufficient funds |
| `Accounts.Account.ApplyReserve` | crates/kerosene-ledger/src/account_state.rs:100-123 | the reserve operation, with the available balance written before the reserved one is checked |
| `Accounts.Account.ApplyReleaseReservation` | crates/kerosene-ledger/src/account_state.rs:126-149 | the release operation, with the reserved balance written first |
| `AccountStore.InMemoryAccountStore.ApplyCommand` | crates/kerosene-ledger/src/in_memory.rs:64-93 | the new map and result of a versioned balance command, also when it fails; every account stays filed under its own id |
| `AccountStore.InMemoryAccountStore.Transfer` | crates/kerosene-ledger/src/in_memory.rs:95-144 | the new map and result of a transfer on cloned accounts, with nothing written back on failure |
| `AccountStore.StoreNoLostUpdate` | crates/kerosene-ledger/src/in_memory.rs:64-144 | over any run, for each account and version at most one command that carries that version for it succeeds, transfers included on either side |
| `AccountStore.TransferAtomic` | crates/kerosene-ledger/src/in_memory.rs:95-144 | a transfer between distinct accounts keeps their combined balance, credits the amount and touches nobody else, or changes nothing |
| `AccountStore.SelfTransferMakesMoney` | crates/kerosene-ledger/src/in_memory.rs:95-144 | a successful transfer to the same account raises its balance by the amount, so money is kept if and only if the amount is zero |
| `AccountStore.SelfTransferOfOne` | crates/kerosene-ledger/src/in_memory.rs:95-144 | one satoshi sent by an account holding five to itself leaves six |
| `AccountStore.StoreBalanceLaw` | crates/kerosene-ledger/src/in_memory.rs:64-93 | a command conflicts and changes nothing, or the account it finds or opens gets exactly the new available, reserved and version its operation and amount say, also when it fails on its second leg, and no other account changes |
| `AccountStore.StoreTransferLaw` | crates/kerosene-ledger/src/in_memory.rs:95-144 | a transfer between different accounts succeeds if and only if both exist at the expected versions, the balance covers it and the credit fits; then the two accounts are as expected, and otherwise each cause has its error and nothing changes |
| `Chain.CanonicalKeyInjective` | crates/kerosene-ledger/src/chain.rs:61-64 | two outpoints have one canonical key if and only if they are equal, colons in the transaction id included |
| `Chain.OutPointRoundTrip` | crates/kerosene-ledger/src/chain.rs:61-84 | parsing a printed outpoint gives it back if and only if its transaction id has no colon |
| `ChainLemmas.StepKeepsUnique` | crates/kerosene-ledger/src/state_machine.rs:658-820 | every UTXO step, store update, reorganization and replacement keeps outpoints unique |
| `ChainLemmas.StepPermuted` | crates/kerosene-ledger/src/state_machine.rs:658-820 | on tables equal up to order with unique outpoints, every UTXO step gives one result and tables equal up to order |
| `UtxoLaws.ConfirmLaw` | crates/kerosene-ledger/src/state_machine.rs:690-711 | confirming needs an output in the mempool and writes state, height and time |
| `UtxoLaws.SpendableLaw` | crates/kerosene-ledger/src/state_machine.rs:712-727 | only a confirming output becomes spendable |
| `UtxoLaws.SpentLaw` | crates/kerosene-ledger/src/state_machine.rs:780-806 | only a spendable output is spent, with its reservation cleared and the spender and time noted |
| `UtxoLaws.ReservationLaw` | crates/kerosene-ledger/src/utxo_store.rs:138-175 | a reservation needs a spendable or finalized output that nobody holds; each refusal has its error |
| `UtxoLaws.ReleaseOfLaw` | crates/kerosene-ledger/src/utxo_store.rs:177-195 | a release needs a reservation and clears it, whatever the state |
| `UtxoLaws.UpdateLaw` | crates/kerosene-ledger/src/chain.rs:225-250 | a state update passes along exactly ten arrows |
| `UtxoLaws.UnknownUtxoLaw` | crates/kerosene-ledger/src/utxo_store.rs:118-195 | steps on an output that is not tracked fail and change nothing |
| `UtxoLaws.DetectLaw` | crates/kerosene-ledger/src/state_machine.rs:658-689 | a new output is appended as seen, a reorganized one is seen again, any other is left alone |
| `UtxoLaws.AddLaw` | crates/kerosene-ledger/src/utxo_store.rs:82-91 | an unknown output is appended as it is, a known one is left alone |
| `UtxoLaws.ReorgLaw` | crates/kerosene-ledger/src/chain.rs:267-306 | exactly the entries of listed transactions that were confirming, spendable or finalized become reorganized without height and confirmation, all others are kept, and the first listed occurrence of each absent outpoint is appended, in order, as seen now |
| `UtxoLaws.DisconnectedLaw` | crates/kerosene-ledger/src/chain.rs:276-290 | the keys reported for turned entries are those of exactly these positions, in order |
| `UtxoLaws.RbfLaw` | crates/kerosene-ledger/src/chain.rs:319-350 | exactly the entries of the replaced transaction that were not replaced yet become replaced with their reservations cleared, all others are kept, and absent replacements are appended, in order, as seen |
| `UtxoLaws.ReleasedLaw` | crates/kerosene-ledger/src/chain.rs:324-338 | the released holders are those of exactly the turned and reserved entries, in order |
| `UtxoLaws.UtxoCommandLaw` | crates/kerosene-ledger/src/state_machine.rs:658-820 | a UTXO command takes the step its type, key and commitment ask for, one version later and nothing else changed, or fails and changes nothing; a worthless detection or a reservation without holder is refused |
| `UtxoLaws.UnreadableLaw` | crates/kerosene-ledger/src/state_machine.rs:449-565 | a command whose key, payload or height cannot be read is refused |
| `UtxoTables.UtxoTable.ApplyReorg` | crates/kerosene-ledger/src/chain.rs:267-306 | the table after a reorganization and the list of keys returned |
| `UtxoTables.UtxoTable.ApplyRbf` | crates/kerosene-ledger/src/chain.rs:319-350 | the table after a replacement by fee and the released reservations |
| `UtxoTables.UtxoTable.Add` | crates/kerosene-ledger/src/utxo_store.rs:82-91 | an output is appended unless its outpoint is known |
| `UtxoTables.UtxoTable.SetState` | crates/kerosene-ledger/src/utxo_store.rs:118-136 | a state update passes the transition gate or changes nothing |
| `UtxoTables.UtxoTable.ReserveFor` | crates/kerosene-ledger/src/utxo_store.rs:138-175 | an output is reserved only if it is available and unreserved |
| `UtxoTables.UtxoTable.Release` | crates/kerosene-ledger/src/utxo_store.rs:177-195 | a reservation is cleared, or the release is refused |
| `UtxoTables.UtxoTable.Perform` | crates/kerosene-ledger/src/state_machine.rs:658-820 | every UTXO step of the ledger and the store, as one function of the table |
| `UtxoRuns.RunUnique` | crates/kerosene-ledger/src/chain.rs:225-350 | outpoints stay unique over any mix of ledger steps, store updates, reorganizations and replacements |
| `UtxoRuns.RunFreezes` | crates/kerosene-ledger/src/chain.rs:225-350 | from any step on, an entry keeps its place, outpoint, value and address, and Spent or Replaced is never left |
| `UtxoRuns.SpentAtMostOnce` | crates/kerosene-ledger/src/state_machine.rs:780-811 | over any run an outpoint becomes spent at most once |
| `UtxoRuns.ReleaseBetweenReserves` | crates/kerosene-ledger/src/utxo_store.rs:138-195 | between two successful reservations of one outpoint there is a successful release of it, reorganizations notwithstanding |
| `UtxoRuns.LedgerRunsAreUtxoRuns` | crates/kerosene-ledger/src/state_machine.rs:658-820 | the outputs after any log of ledger commands are those after the steps its accepted UTXO commands decode to, so the run theorems apply to the ledger |
| `Reorgs.ReorgExact` | crates/kerosene-ledger/src/chain.rs:267-306 | the returned keys are exactly those of the entries changed or added, each once; every other entry is untouched in place |
| `Reorgs.ReorgValue` | crates/kerosene-ledger/src/chain.rs:267-306 | live value rises by exactly the value of the added entries, also when the payload lists an output twice |
| `Reorgs.ReorgIdempotent` | crates/kerosene-ledger/src/chain.rs:267-306 | the same reorganization applied again changes nothing and returns no keys, at any later time |
| `StateMachine.LedgerMachine.ValidateCommand` | crates/kerosene-ledger/src/state_machine.rs:440-582 | validation in place agrees with the validation function for all 23 command types |
| `StateMachine.LedgerMachine.Perform` | crates/kerosene-ledger/src/state_machine.rs:594-860 | the state left behind and the accounts reported, for all 23 command types, also on error |
| `StateMachine.LedgerMachine.ApplyCommand` | crates/kerosene-ledger/src/state_machine.rs:584-876 | validation, the root before, the effect, the version bump and the root after; the new state and the receipt, or the error and whatever state it leaves |
| `BalanceLaws.CreditLaw` | crates/kerosene-ledger/src/state_machine.rs:599-611 | a credit of n succeeds if and only if the version fits and available + n fits; then that account has available + n one version later and nothing else changed but the ledger version; without an expected version n is zero |
| `BalanceLaws.DebitLaw` | crates/kerosene-ledger/src/state_machine.rs:612-617 | a debit of n succeeds if and only if the version fits and available covers it; then that account has available - n, and nothing else changed |
| `BalanceLaws.ReserveLaw` | crates/kerosene-ledger/src/state_machine.rs:618-623 | a reserve of n succeeds if and only if the version fits, available covers it and reserved + n fits; then available - n and reserved + n; an overflow leaves available reduced |
| `BalanceLaws.ReleaseLaw` | crates/kerosene-ledger/src/state_machine.rs:624-629 | a release of n succeeds if and only if the version fits, reserved covers it and available + n fits; then reserved - n and available + n; an overflow leaves reserved reduced |
| `BalanceLaws.UnknownDebitLaw` | crates/kerosene-ledger/src/state_machine.rs:358-402 | debits and reserves of an unknown account conflict and change nothing |
| `BalanceLaws.UnknownCreditLaw` | crates/kerosene-ledger/src/state_machine.rs:342-356 | a credit opens an unknown account with the amount at version 1, unless another version than 0 was expected |
| `BalanceLaws.UnknownReleaseLaw` | crates/kerosene-ledger/src/state_machine.rs:404-422 | a release of an unknown account conflicts if a version was expected, and otherwise opens the account and fails there unless it releases nothing |
| `BalanceLaws.TransferLaw` | crates/kerosene-ledger/src/state_machine.rs:630-657 | a transfer succeeds if and only if the source covers it and the destination can hold it; then both accounts, opened if missing, have exactly the moved balances one version later and nothing else changed; each failure leaves exactly the opened account or the debit behind |
| `BalanceLaws.SelfTransferLaw` | crates/kerosene-ledger/src/state_machine.rs:630-657 | a covered transfer to oneself keeps the balance and moves the version twice |
| `BalanceLaws.NoTransferLaw` | crates/kerosene-ledger/src/state_machine.rs:638-643 | a key without a bar is refused |
| `BalanceLaws.IntentLaw` | crates/kerosene-ledger/src/state_machine.rs:829-840 | consuming or expiring an intent records it once |
| `BalanceLaws.ObserverLaw` | crates/kerosene-ledger/src/state_machine.rs:841-846 | adding a node lists it once |
| `BalanceLaws.RemovalLaw` | crates/kerosene-ledger/src/state_machine.rs:852-858 | removing a node takes it out from between the others |
| `BalanceLaws.RemovalCounts` | crates/kerosene-ledger/src/state_machine.rs:852-858 | removal leaves none of the node and every other as often as before |
| `BalanceLaws.CountingLaw` | crates/kerosene-ledger/src/state_machine.rs:821-828 | the remaining commands succeed and move only the version |
| `StateRoot.HashSortedItems` | crates/kerosene-ledger/src/state_root.rs:162-177 | the digest of a group of items is the hash of their sorted leaf digests under a tag |
| `StateRoot.EncodeMembership` | crates/kerosene-ledger/src/state_root.rs:143-157 | the membership encoding with sorted, length-prefixed node names |
| `StateRoot.ComputeUtxoRoot` | crates/kerosene-ledger/src/chain.rs:368-415 | the root of the outputs, entries sorted by key and digests sorted again |
| `StateRoot.ComputeStateRoot` | crates/kerosene-ledger/src/state_root.rs:204-253 | the state root as the hash of seven tagged sections |
| `EncodingLaws.AccountLayout` | crates/kerosene-ledger/src/state_root.rs:100-111 | where the tag, the six numbers and the id of an account sit in the bytes that are hashed |
| `EncodingLaws.UtxoLayout` | crates/kerosene-ledger/src/chain.rs:375-393 | where the state, value, index and detection time of an output sit |
| `EncodingLaws.RootLayout` | crates/kerosene-ledger/src/state_root.rs:204-210 | the root starts with the version under its tag |
| `EncodingLaws.StableCodes` | crates/kerosene-ledger/src/state_root.rs:87-94 | the fixed numbers of output states, reservation states and profiles |
| `RootBinding.AccountBytesInjective` | crates/kerosene-ledger/src/state_root.rs:100-111 | the account encoding decodes to one account |
| `RootBinding.UtxoBytesInjective` | crates/kerosene-ledger/src/chain.rs:368-450 | the output encoding, with its optional and variable-length fields, decodes to one entry |
| `RootBinding.MembershipDecodes` | crates/kerosene-ledger/src/state_root.rs:143-157 | the membership encoding decodes to one cluster id, one profile and one collection of nodes |
| `RootBinding.RootIgnoresOrder` | crates/kerosene-ledger/src/state_root.rs:162-253 | states equal up to storage order have one root |
| `RootBinding.RootBinding` | crates/kerosene-ledger/src/state_root.rs:100-253 | states with one root have one version, the same accounts, journal hashes, intents, outputs, reservation encodings and membership up to order, or two different byte strings hashed for them share a digest |
| `RootBinding.ReservationAmbiguity` | crates/kerosene-ledger/src/state_root.rs:118-137 | two reservations are encoded alike if and only if their numbers agree and their three strings agree when run together |
| `Bisimulation.StepBisimulation` | crates/kerosene-ledger/src/state_machine.rs:440-876 | on states equal up to order a command succeeds on both with one receipt, both roots included, or fails on both with one error, and the states stay equal up to order |
| `Bisimulation.RunBisimulation` | crates/kerosene-ledger/src/state_machine.rs:584-876 | over any log storage order changes no receipt, no error and no root |
| `Conservation.RejectionExact` | crates/kerosene-ledger/src/state_machine.rs:584-657 | a rejected command loses money if and only if the second leg of a reserve, release or transfer overflows; otherwise it adds at most one empty account and changes nothing else |
| `Conservation.RejectedTransferDestroysMoney` | crates/kerosene-ledger/src/state_machine.rs:630-657 | a concrete ledger and transfer that is rejected and leaves less money |
| `Conservation.StepConservation` | crates/kerosene-ledger/src/state_machine.rs:599-657 | with room for the attempted credit, no overflow is reported and the total moves by exactly the successful credit or debit, self-transfers included |
| `Conservation.RunConservation` | crates/kerosene-ledger/src/state_machine.rs:584-876 | over any log whose starting total plus attempted credits fits a u64, nothing overflows, rejected commands move nothing, and the total ends at start plus successful credits minus successful debits |
| `Versions.StepVersions` | crates/kerosene-ledger/src/state_machine.rs:342-422 | a command raises a version by at most two; a successful balance command raises its account by one, and had expected the version it found |
| `Versions.VersionsGrow` | crates/kerosene-ledger/src/state_machine.rs:599-657 | versions never decrease along a log |
| `Versions.NoLostUpdate` | crates/kerosene-ledger/src/state_machine.rs:342-422 | over any log each version of each account is used up by at most one credit, debit, reserve or release that carries it |
| `Receipts.TraceExact` | crates/kerosene-ledger/src/state_machine.rs:584-657 | a rejected command leaves the state as it was unless it creates the account it fails on or loses money on its first leg, and then accounts are more or money is less |
| `Receipts.ReceiptCertifies` | crates/kerosene-ledger/src/state_machine.rs:594-876 | a receipt carries the version it found, its command hash, the affected accounts and the roots of the states before and after |
| `Receipts.ReceiptsLink` | crates/kerosene-ledger/src/state_machine.rs:591-594 | two receipts with only rejected commands between them have consecutive numbers, and link, root to root, if and only if none of those commands left such a trace, or two byte strings hashed for the two roots collide |
| `Receipts.ReleaseLeavesAccount` | crates/kerosene-ledger/src/state_machine.rs:404-422 | a release without an expected version on an unknown account is rejected and leaves an empty account |
| `Recovery.InMemorySnapshotStore.SaveSnapshot` | crates/kerosene-ledger/src/snapshot.rs:75-84 | the table after a save, refused when the snapshot does not verify |
| `Recovery.LatestIsHighest` | crates/kerosene-ledger/src/snapshot.rs:75-89 | after any saves the latest snapshot is the newest one of the highest sequence, and is missing if and only if nothing that verifies was saved |
| `Recovery.InstallLaw` | crates/kerosene-ledger/src/snapshot.rs:96-118 | a snapshot installs if and only if it verifies and its bytes decode to a state with the claimed root, and then that state; otherwise each cause has its error |
| `Recovery.RecoverLaw` | crates/kerosene-ledger/src/replication.rs:216-242 | without an installable snapshot recovery fails and keeps the local state; with one the local state does not matter |
| `Recovery.ReplayCounts` | crates/kerosene-ledger/src/replication.rs:216-242 | a successful replay moves the version by the number of commands |
| `Recovery.RecoverDivergence` | crates/kerosene-ledger/src/replication.rs:216-242 | the state and result of divergence recovery, refusals and failed replays included |
| `Recovery.RecoveryExact` | crates/kerosene-ledger/src/replication.rs:216-242 | if earlier commands have smaller epochs than the snapshot and later ones do not, recovery equals uninterrupted replay in state and result, whatever the local state was |
| `Recovery.RecoveryExactIff` | crates/kerosene-ledger/src/replication.rs:216-242 | on a log with non-decreasing epochs that replays, recovery equals replay if and only if no command before the snapshot carries its epoch |
| `Recovery.RecoveryAppliesTwice` | crates/kerosene-ledger/src/replication.rs:216-242 | one intent consumed before a snapshot of its own epoch: recovery ends elsewhere than replay |
| `Recovery.FailedReplayMayAgree` | crates/kerosene-ledger/src/replication.rs:216-242 | a log whose replay fails, with a command of the snapshot epoch before the snapshot, on which recovery agrees with replay all the same |
| `Recovery.ExecuteCatchUp` | crates/kerosene-ledger/src/replication.rs:255-291 | the state and result of catch-up, a missing snapshot, a failed installation and a sync manager that refuses after the state was replaced included |
| `Recovery.CatchUpLaw` | crates/kerosene-ledger/src/replication.rs:255-291 | up to 10000 commands are replayed on the local state and more need a snapshot that installs; a refusal to start stops either after that; each failure has its error and state |
| `Recovery.CatchUpNeedsVersion` | crates/kerosene-ledger/src/replication.rs:255-291 | whatever state the snapshot holds, catch-up through it can equal plain replay only if it starts and that state has the local version |
| `Recovery.CatchUpExactIff` | crates/kerosene-ledger/src/replication.rs:255-291 | a catch-up through a snapshot holding the first k missing commands equals plain replay if and only if it starts and k is zero |
| `Recovery.OldSnapshotExactIff` | crates/kerosene-ledger/src/replication.rs:255-291 | a catch-up through a snapshot older than the local state by some commands equals plain replay if and only if it starts and there are none |
| `Recovery.CatchUpAppliesTwice` | crates/kerosene-ledger/src/replication.rs:255-291 | 10001 intents and a snapshot after the first: catch-up ends elsewhere than replay |
| `Journal.InMemoryLedger.PostEntry` | crates/kerosene-ledger/src/double_entry.rs:223-390 | the entries, balances, receipts with their trial-balance hashes, and result of a post: idempotent repeats, every refusal and the missing rollback included; a negative balance is reported for an account that has one |
| `JournalRuns.AccountingEquation` | crates/kerosene-ledger/src/double_entry.rs:223-390 | in every run, refused posts included, within 2^63 applied postings nothing overflows or wraps, each net is debits minus credits, and summed debits equal summed credits |
| `JournalRuns.PostingOverflow` | crates/kerosene-ledger/src/double_entry.rs:303-333 | a posting overflows if and only if its total no longer fits a u128 or the difference of the totals cast to i128 no longer fits one |
| `JournalRuns.AcceptedPosts` | crates/kerosene-ledger/src/double_entry.rs:335-390 | after an accepted post every account has the sign of its class; a repeated id returns its receipt and changes nothing; a refusal adds no entry |
| `JournalLaws.PostExact` | crates/kerosene-ledger/src/double_entry.rs:231-364 | an entry with a new id is posted if and only if both sides are there and equal, its sequence, previous hash and hash are the next ones, the three asset accounts and miner fees end at zero or above and the three liability accounts, equity and platform fees at zero or below |
| `JournalLaws.PostExactAt` | crates/kerosene-ledger/src/double_entry.rs:223-390 | the same at every post of every run within the posting limit |
| `JournalLaws.PostTotals` | crates/kerosene-ledger/src/double_entry.rs:300-333 | an entry that is balanced and next in the chain adds what it posts to every total and net |
| `JournalLaws.PostRecords` | crates/kerosene-ledger/src/double_entry.rs:366-390 | only a posted entry is appended, with a receipt of its sequence, hashes and balances; one that is not balanced or not next changes nothing |
| `JournalLaws.RefusalOrder` | crates/kerosene-ledger/src/double_entry.rs:231-298 | the first thing wrong decides the refusal: an empty side, unequal sums, the sequence, the hashes |
| `JournalRuns.RunFolds` | crates/kerosene-ledger/src/double_entry.rs:300-364 | balances are always the fold of the journal together with the posts refused for a negative balance |
| `JournalRuns.RefusalExact` | crates/kerosene-ledger/src/double_entry.rs:333-357 | a post is refused for a negative balance if and only if it passes every check and the balances before it, with its own postings, give some account the wrong sign for its class |
| `JournalRuns.PoisonedExactly` | crates/kerosene-ledger/src/double_entry.rs:300-364 | balances are the fold of the journal if and only if no post that passed its checks would have overdrawn an account |
| `JournalRuns.OverdraftSticks` | crates/kerosene-ledger/src/double_entry.rs:300-357 | a concrete refused post whose postings stay |
| `JournalHash.PostingsInjective` | crates/kerosene-ledger/src/double_entry.rs:73-83 | the bytes hashed for a list of postings decode to one list |
| `JournalHash.HeadAmbiguity` | crates/kerosene-ledger/src/double_entry.rs:52-70 | an id and description can be read as a shorter id with another description if and only if the id imitates the sequence mark that follows it |
| `JournalHash.MaterialParts` | crates/kerosene-ledger/src/double_entry.rs:52-70 | the hashed string determines the timestamp, the previous hash, both postings hashes and the caller part |
| `JournalHash.NoBarUnambiguous` | crates/kerosene-ledger/src/double_entry.rs:52-70 | an id without a bar is unambiguous |
| `JournalHash.ReachableChained` | crates/kerosene-ledger/src/double_entry.rs:248-298 | every reachable journal is numbered, linked and hashed without a gap |
| `JournalHash.TamperEvidence` | crates/kerosene-ledger/src/double_entry.rs:52-298 | reachable journals with unambiguous ids, one length and one head hash are equal entry by entry, or two different hashed strings share a digest |
| `JournalHash.AmbiguousTwin` | crates/kerosene-ledger/src/double_entry.rs:52-298 | an accepted entry with an ambiguous id has a twin with another id that is accepted in its place and leaves the same head hash |
| `JournalHash.ConfusedHeads` | crates/kerosene-ledger/src/double_entry.rs:52-70 | two concrete id and description pairs with one hashed string |
| `JournalHash.ConfusedEntries` | crates/kerosene-ledger/src/double_entry.rs:52-298 | both of these entries are accepted by an empty journal, are twins, and leave one head hash |
| `JournalHash.TrialBalanceBinds` | crates/kerosene-ledger/src/double_entry.rs:197-213 | balances with one trial-balance hash are equal in every total and net, or their two lists of lines collide |
| `Reconciliation.SaturatingSumExact` | crates/kerosene-ledger/src/reconciliation.rs:119-170 | a saturating fold is the true sum cut off at the largest u64 |
| `Reconciliation.TotalsExact` | crates/kerosene-ledger/src/reconciliation.rs:119-170 | each of the four totals is the true total cut off at the largest u64, although accounts saturate one by one |
| `Reconciliation.CanAuthorizeWithdrawals` | crates/kerosene-ledger/src/gates.rs:127-178 | the gate lists every objection in order and allows if and only if there is none |
| `Reconciliation.StatusLaw` | crates/kerosene-ledger/src/reconciliation.rs:211-223 | which difference has which status, on both sides of the tolerance and of zero |
| `Reconciliation.GateExact` | crates/kerosene-ledger/src/gates.rs:127-178 | on every state the gate allows a fresh report if and only if chain data is complete, the node is operational, and true liabilities are at most live value plus max(1000, assets / 1000) or the reported assets plus tolerance reach the largest u64; so its verdict is true solvency if and only if the books are solvent or that sum stays below it |
| `Reconciliation.SolvencyGate` | crates/kerosene-ledger/src/gates.rs:127-178 | in particular the gate decides true solvency whenever true liabilities fit a u64 |
| `Reconciliation.SaturationHidesDeficit` | crates/kerosene-ledger/src/reconciliation.rs:196-234 | a concrete state with liabilities of twice the assets that the gate lets through |
| `Reconciliation.DifferenceExact` | crates/kerosene-ledger/src/reconciliation.rs:196-234 | reserves, releases and transfers leave the reported difference alone if and only if they do not destroy money and so pull a saturated total back below the largest u64 |
| `Reconciliation.StrandedTransferShows` | crates/kerosene-ledger/src/reconciliation.rs:196-234 | ten satoshis sent to an account five short of the largest u64: the reported difference moves |
| `Reconciliation.RunSolvency` | crates/kerosene-ledger/src/reconciliation.rs:196-234 | over any log that cannot overflow, reported liabilities are the starting ones plus net movements, and the gate decides true solvency |
| `Membership.ValidateRoster` | crates/kerosene-membership/src/lib.rs:275-306 | the roster loop, error by error |
| `Membership.RosterExact` | crates/kerosene-membership/src/lib.rs:275-306 | a roster passes if and only if its threshold is between one and its size, every member checks out and no id repeats |
| `Membership.MembershipVerifier.Create` | crates/kerosene-membership/src/lib.rs:47-65 | a new verifier, or the first error of the bundle |
| `Membership.MembershipVerifier.AcceptManifest` | crates/kerosene-membership/src/lib.rs:79-90 | a manifest becomes current if and only if no check objects; otherwise nothing changes |
| `Membership.MembershipVerifier.RestoreLog` | crates/kerosene-membership/src/lib.rs:67-77 | restoring a log accepts its manifests in order and fails with the first objection |
| `MembershipLaws.AcceptExact` | crates/kerosene-membership/src/lib.rs:79-256 | from any reachable verifier a manifest is accepted if and only if its contract version, network and plane are the verifier ones, its roster is good, its signers are distinct, its announced epoch fits its phase, and its previous hash, epoch, roster and signers are what the current manifest, or the genesis plane, asks for; then it alone becomes current |
| `MembershipLaws.ErrorsExact` | crates/kerosene-membership/src/lib.rs:138-236 | contract version and scope errors under exactly their own conditions, then threshold, phase and chain errors |
| `MembershipLaws.CreateExact` | crates/kerosene-membership/src/lib.rs:47-65 | a verifier is created if and only if the bundle has this contract version and both planes are good |
| `MembershipLaws.LogScoped` | crates/kerosene-membership/src/lib.rs:138-144 | every manifest of an accepted log has the contract version, the bundle network and the node plane, a good roster, and was acceptable in its turn |
| `MembershipLaws.RestoreNext` | crates/kerosene-membership/src/lib.rs:67-77 | a restored log restores with one more manifest if and only if that one is acceptable |
| `MembershipLaws.EffectiveExact` | crates/kerosene-membership/src/lib.rs:100-136 | membership, threshold and size are those of the current manifest, or of the genesis plane before there is one |
| `MembershipRuns.EffectiveRoster` | crates/kerosene-membership/src/lib.rs:100-136 | in every reachable verifier the effective roster has as many ids as members, a reachable threshold, and for different ids keys that decode differently |
| `MembershipRuns.CountIsSigners` | crates/kerosene-membership/src/lib.rs:238-256 | counting valid signatures counts distinct roster members |
| `MembershipRuns.AcceptedIsSigned` | crates/kerosene-membership/src/lib.rs:169-256 | an acceptable manifest carries the effective threshold of valid signatures from the effective roster, whichever of the three transitions it takes |
| `MembershipRuns.ForkAccountability` | crates/kerosene-membership/src/lib.rs:138-256 | two manifests acceptable from one reachable state share at least 2t - n members, with different keys, whose signatures verify on both, genesis included |
| `MembershipRuns.LogForkAccountability` | crates/kerosene-membership/src/lib.rs:67-90 | two logs accepted from one bundle whose contents diverge, signature lists aside, part at a place where one roster and threshold judge both branches and at least 2t - n of its members, with different keys, have signatures that verify on two different contents |
| `MembershipRuns.TrustChain` | crates/kerosene-membership/src/lib.rs:169-236 | in every accepted log each manifest is signed by the previous effective threshold; rosters change only at a Joint step signed by both rosters; a Joint is followed only by a Stable with its roster and announced epoch |
| `MembershipRuns.EpochsGrow` | crates/kerosene-membership/src/lib.rs:183-222 | epochs never decrease along an accepted log and strictly increase below the largest u64 |
| `MembershipRuns.LogBinding` | crates/kerosene-membership/src/lib.rs:224-236 | equally long accepted logs with one current hash have the same contents throughout, or two of their manifests with different contents have one hash |
| `Discovery.ChallengeStore.Issue` | crates/kerosene-discovery/src/lib.rs:105-113 | a challenge becomes pending until now plus the time to live, saturating |
| `Discovery.ChallengeStore.Consume` | crates/kerosene-discovery/src/lib.rs:115-122 | expired challenges go, and the challenge is taken if and only if it is pending and not expired |
| `Discovery.PeerAuthenticator.Authenticate` | crates/kerosene-discovery/src/lib.rs:150-181 | scope, clock, endpoint, signature, challenge and membership, in that order |
| `Discovery.ChallengesTouched` | crates/kerosene-discovery/src/lib.rs:150-181 | a hello that fails scope, clock, endpoint or signature leaves every challenge pending; any other drops its own challenge and the expired ones only |
| `DiscoveryLaws.AuthenticateExact` | crates/kerosene-discovery/src/lib.rs:150-181 | a hello is let in if and only if contract version, network and plane match, the clock difference is at most the skew, the endpoint is an onion, the signature checks, the challenge is pending and unexpired, and the roster maps the id to that key |
| `DiscoveryLaws.AuthenticateErrors` | crates/kerosene-discovery/src/lib.rs:150-181 | each error is returned under exactly its own condition, in the order of the checks |
| `DiscoveryLaws.PendingExact` | crates/kerosene-discovery/src/lib.rs:97-123 | after any interleaving a challenge is pending if and only if its latest issue has been neither presented nor swept away since, and it expires at that issue plus the time to live |
| `DiscoveryLaws.TakesExact` | crates/kerosene-discovery/src/lib.rs:115-122 | a challenge is used up if and only if it is presented by a consume, or by a hello that passes every earlier check, while pending and unexpired |
| `Discovery.TakenAtMostIssued` | crates/kerosene-discovery/src/lib.rs:97-123 | over any interleaving a challenge is taken at most as often as it was issued, one less while it is pending |
| `Discovery.TakenInTime` | crates/kerosene-discovery/src/lib.rs:97-123 | whatever takes a challenge answers its latest issue, nobody else has since, and it is not later than that issue plus the time to live |
| `Node.Lifecycle.Advance` | crates/kerosene-sync/src/lib.rs:76-85 | the lifecycle moves only to the next state |
| `Node.Lifecycle.Bootstrap` | crates/kerosene-node/src/lib.rs:309-318 | the three local states lead to Discovering and every other state is kept |
| `Node.NodeService.Boot` | crates/kerosene-node/src/lib.rs:64-105 | a started node, its verifier restored from the log and its lifecycle from its file; no node when the endpoint, the log or the first save fails |
| `Node.NodeService.IssueChallenge` | crates/kerosene-node/src/lib.rs:168-170 | a challenge becomes pending and nothing else changes |
| `Node.NodeService.GetReadiness` | crates/kerosene-node/src/lib.rs:123-166 | expired peers go and the report is computed from the rest |
| `Node.NodeService.ObservePeer` | crates/kerosene-node/src/lib.rs:172-192 | the node after a hello, let in or turned away, with each store and save succeeding or not |
| `Node.NodeService.AcceptMembership` | crates/kerosene-node/src/lib.rs:223-237 | the node after a manifest: repeated, refused, not persisted, or persisted and then current |
| `Node.NodeService.VerifyStateSnapshot` | crates/kerosene-node/src/lib.rs:260-275 | the node after a snapshot, memory moved even when the save fails |
| `Node.NodeService.AdvanceAfterAuthentication` | crates/kerosene-node/src/lib.rs:277-291 | the lifecycle after an authentication and a membership check |
| `Node.NodeService.ActivateIfQuorum` | crates/kerosene-node/src/lib.rs:293-300 | activation if and only if eligible and in a quorum |
| `NodeLaws.MeetLaw` | crates/kerosene-node/src/lib.rs:172-192 | a hello that is let in uses up its challenge, makes its sender a peer seen now, takes the lifecycle as far as membership allows, drops quiet peers and activates an eligible node in a quorum; nothing else changes |
| `NodeLaws.TurnedAwayLaw` | crates/kerosene-node/src/lib.rs:172-181 | a hello that is turned away moves nothing but challenges |
| `NodeLaws.SubmitLaw` | crates/kerosene-node/src/lib.rs:223-237 | a repeated manifest is a no-op, an acceptable one that reaches the disk is appended and becomes current, any other changes nothing |
| `NodeLaws.SynchronizeLaw` | crates/kerosene-node/src/lib.rs:260-275 | a snapshot with the right root makes a syncing node eligible, and with the save and a quorum active; every other case has its error and changes nothing |
| `NodeLaws.StartLaw` | crates/kerosene-node/src/lib.rs:64-105 | a node starts if and only if its endpoint is an onion and its log restores, in the saved state or discovering |
| `NodeLaws.ReadinessLaw` | crates/kerosene-node/src/lib.rs:123-166 | the peers kept and the lifecycle, threshold, size and hash reported |
| `NodeLaws.FullCourse` | crates/kerosene-node/src/lib.rs:277-300 | a hello let in, a good snapshot and a quorum take a discovering member to active |
| `NodeRuns.RestartAgreement` | crates/kerosene-node/src/lib.rs:223-237 | after any calls a restart succeeds and rebuilds exactly the verifier in memory, and every prefix of the manifest log restores |
| `NodeRuns.PeersAuthentic` | crates/kerosene-node/src/lib.rs:172-221 | the local id is never an active peer, and every active peer was let in at the time recorded for it by a hello that was in scope, on time, properly signed, answered a pending challenge and came from a roster member under its key |
| `NodeRuns.HonestQuorum` | crates/kerosene-node/src/lib.rs:123-166 | in every reachable state live members are the distinct current-roster ids that are local or heard from within the window, at most the roster; quorum is reported if and only if the node is a member and they reach the threshold, and financial readiness and the operational state follow from it and the lifecycle |
| `NodeRuns.LifecycleProvenance` | crates/kerosene-node/src/lib.rs:260-318 | in every run with restarts and lost saves the state is one of five, and an active node has, in order, let in a peer, found itself in the roster, verified a snapshot and stood in a live quorum |

## Left out

- HTTP routing, TLS, the Tor client, the command line, configuration and file formats.
- The sled-backed stores of persistent.rs, whose latest snapshot is the last one saved and not the highest.
- Internals of SHA-256, Ed25519, hexadecimal decoding, JSON and URL parsing, and the types of the contracts crate beyond the fields the code here reads.
- `compute_payload_hash`: the hash travels with a command and is never recomputed by `apply`.
- Injectivity of reservation encodings and of the certificate signing message, which concatenate strings without lengths; RootBinding.ReservationAmbiguity says exactly which reservations look alike.
- Versions.NoLostUpdate: assumes the version counter cannot wrap within the log, because a wrapped u64 version does repeat.
- AccountStore.StoreNoLostUpdate: assumes the same of the store's version counters.
- Recovery.RecoveryExactIff: the only-if half is stated for logs that replay without error, because a failing replay can agree by accident (`FailedReplayMayAgree`), and for fewer than 2^64 commands, because versions tell states apart only there.
- The signed reply of `exchange_hello`, and the contents of the peer, endpoint and success files, which no modelled decision reads; only whether writing them worked.
- Interleavings inside `accept_membership`, where no lock spans the clone, the append and the replacement; each call is one step.
- Withdrawal, promotion and install-snapshot commands beyond the version bump, since the code does no more.
- The deposit, membership and key-rotation gates, degraded modes, withdrawal statuses, reservations and idempotency stores, nonce sets, settlement checks, metrics and wallet invariants: each call decides one value from a table or a single comparison and keeps no state the modelled parts read, so no law spans them.
- Overflow panics of debug builds, and the texts carried by error values.
