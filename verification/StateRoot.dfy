/** The state root: what is hashed, in which order (state_root.rs; compute_utxo_root in chain.rs). */
module StateRoot {
  import opened Binary
  import opened LedgerTypes
  import opened Sequences
  import opened Accounts
  import opened Chain
  import opened JournalEntries
  import opened Ledger

  /** A domain tag, a colon, and the payload. */
  function Section(tag: string, payload: Bytes): (r: Bytes)
    ensures |r| == |tag| + 1 + |payload|
  {
    Ascii(tag) + ([COLON] + payload)
  }

  lemma SectionSplit(tag: string, a: Bytes, r1: Bytes, b: Bytes, r2: Bytes)
    requires |a| == |b|
    requires Section(tag, a) + r1 == Section(tag, b) + r2
    ensures a == b && r1 == r2
  {
    SplitEqual(Section(tag, a), r1, Section(tag, b), r2);
    SectionInjective(tag, a, b);
  }

  lemma SectionInjective(tag: string, a: Bytes, b: Bytes)
    requires Section(tag, a) == Section(tag, b)
    ensures a == b
  {
    SplitEqual(Ascii(tag), [COLON] + a, Ascii(tag), [COLON] + b);
    SplitEqual([COLON], a, [COLON], b);
  }

  // ---------------------------------------------------------------- leaves

  function AccountBytes(a: AccountState): Bytes {
    Section("KROOTv1:acct",
            LE8(a.version) + (LE8(a.availableSats) + (LE8(a.reservedSats) + (LE8(a.pendingIncomingSats) +
            (LE8(a.pendingOutgoingSats) + (LE8(a.lastCommittedSequence) + a.accountId))))))
  }

  function JournalBytes(e: JournalEntry): Bytes {
    Section("KROOTv1:jent", e.entryHash)
  }

  function ReservationCode(s: ReservationState): byte {
    match s
    case Prepared => 0
    case Committed => 1
    case Consumed => 2
    case Released => 3
    case Expired => 4
  }

  function ReservationBytes(r: Reservation): Bytes {
    Section("KROOTv1:resv",
            LE8(r.amountSats) + LE8(r.createdAtBucket) + LE8(r.expiresAtBucket) + LE8(r.committedSequence) +
            [ReservationCode(r.state)] + r.accountId + r.reservationId + r.authorizationCommitment)
  }

  function IntentBytes(intent: Text): Bytes {
    Section("KROOTv1:intent", intent)
  }

  function StateCode(s: OnchainState): byte {
    match s
    case Seen => 0
    case InMempool => 1
    case Confirming => 2
    case Spendable => 3
    case FinalizedByPolicy => 4
    case Replaced => 5
    case Reorged => 6
    case Spent => 7
  }

  function UtxoBytes(u: UtxoEntry): Bytes {
    [StateCode(u.state)] + (LE8(u.valueSats) + (LE4(u.outpoint.vout) + (LE8(u.detectedAtBucket) +
    (EncodeOptionU64(u.blockHeight) + (EncodeOptionU64(u.confirmedAtBucket) + (EncodeOptionU64(u.reservedAtBucket) +
    (EncodeOptionU64(u.spentAtBucket) + (EncodeOptionText(u.reservedBy) + (EncodeOptionText(u.spentByTxid) +
    (EncodeText(u.outpoint.txid) + (EncodeText(u.address) + EncodeText(Key(u)))))))))))))
  }

  // ---------------------------------------------------------------- groups

  function LeafDigests<T>(sha: Bytes -> Digest, items: seq<T>, leaf: T -> Bytes): (r: seq<Bytes>)
    ensures AllDigests(r)
  {
    Map((x: T) => sha(leaf(x)), items)
  }

  /** Leaf digests are sorted before they are concatenated. */
  function GroupBytes<T>(sha: Bytes -> Digest, items: seq<T>, tag: string, leaf: T -> Bytes): Bytes {
    Section(tag, Concat(SortLex(LeafDigests(sha, items, leaf))))
  }

  function InsertByKey(u: UtxoEntry, s: seq<UtxoEntry>): (r: seq<UtxoEntry>)
    ensures multiset(r) == multiset(s) + multiset{u}
  {
    if |s| == 0 then [u]
    else if LexLe(Key(u), Key(s[0])) then [u] + s
    else
      assert s == [s[0]] + s[1..];
      [s[0]] + InsertByKey(u, s[1..])
  }

  function SortByKey(utxos: seq<UtxoEntry>): (r: seq<UtxoEntry>)
    ensures Permuted(r, utxos)
  {
    if |utxos| == 0 then []
    else
      assert utxos == [utxos[0]] + utxos[1..];
      InsertByKey(utxos[0], SortByKey(utxos[1..]))
  }

  /** Entries are sorted by key, and their digests are then sorted again. */
  function UtxosBytes(sha: Bytes -> Digest, utxos: seq<UtxoEntry>): Bytes {
    Ascii("KROOTv1:utxos") + Concat(SortLex(LeafDigests(sha, SortByKey(utxos), UtxoBytes)))
  }

  /** `compute_utxo_root`. */
  function UtxoRoot(sha: Bytes -> Digest, utxos: seq<UtxoEntry>): Bytes {
    Hex(sha(UtxosBytes(sha, utxos)))
  }

  function ProfileCode(p: ConsensusProfile): byte {
    match p
    case Single => 0
    case HaCrash => 1
    case BftF1 => 2
    case BftF2 => 3
  }

  /** `encode_membership`. */
  function MembershipPayload(m: MembershipView): Bytes {
    [ProfileCode(m.activeProfile)] + (EncodeText(m.clusterId) + (LE8(|m.nodes|) + Concat(Map(EncodeText, SortLex(m.nodes)))))
  }

  function MembershipBytes(m: MembershipView): Bytes {
    Section("KROOTv1:mem", MembershipPayload(m))
  }

  function UtxoSectionBytes(sha: Bytes -> Digest, utxos: seq<UtxoEntry>): Bytes {
    Section("KROOTv1:utxos", UtxoRoot(sha, utxos))
  }

  // ---------------------------------------------------------------- the root

  function RootBytes(sha: Bytes -> Digest, s: LedgerState): Bytes {
    Section("KROOTv1:version", LE8(s.version)) +
    (Section("KROOTv1:accounts", sha(GroupBytes(sha, s.accounts, "KROOTv1:accounts", AccountBytes))) +
    (Section("KROOTv1:journal", sha(GroupBytes(sha, s.journal, "KROOTv1:journal", JournalBytes))) +
    (Section("KROOTv1:reservations", sha(GroupBytes(sha, s.reservations, "KROOTv1:reservations", ReservationBytes))) +
    (Section("KROOTv1:intents", sha(GroupBytes(sha, s.consumedIntents, "KROOTv1:intents", IntentBytes))) +
    (Section("KROOTv1:membership", sha(MembershipBytes(s.membership))) +
     Section("KROOTv1:utxos", sha(UtxoSectionBytes(sha, s.utxos))))))))
  }

  /** `compute_state_root`. */
  function Root(sha: Bytes -> Digest, s: LedgerState): Bytes {
    Hex(sha(RootBytes(sha, s)))
  }

  // ---------------------------------------------------------------- the computation, step by step

  method CollectDigests<T>(sha: Bytes -> Digest, items: seq<T>, leaf: T -> Bytes) returns (hashes: seq<Bytes>)
    ensures hashes == LeafDigests(sha, items, leaf)
  {
    hashes := [];
    for i := 0 to |items|
      invariant |hashes| == i
      invariant forall k :: 0 <= k < i ==> hashes[k] == sha(leaf(items[k]))
    {
      hashes := hashes + [sha(leaf(items[i]))];
    }
  }

  /** `hasher.update` over a vector. */
  method Feed(start: Bytes, parts: seq<Bytes>) returns (fed: Bytes)
    ensures fed == start + Concat(parts)
  {
    fed := start;
    for i := 0 to |parts|
      invariant fed == start + Concat(parts[..i])
    {
      assert parts[..i + 1] == parts[..i] + [parts[i]];
      ConcatSnoc(parts[..i], parts[i]);
      fed := fed + parts[i];
    }
    assert parts[..|parts|] == parts;
  }

  /** `hash_sorted_items`: collect the leaf digests, sort them, feed them to the hasher in order. */
  method HashSortedItems<T>(sha: Bytes -> Digest, items: seq<T>, tag: string, leaf: T -> Bytes) returns (h: Digest)
    ensures h == sha(GroupBytes(sha, items, tag, leaf))
  {
    var hashes := CollectDigests(sha, items, leaf);
    var fed := Feed(Ascii(tag) + [COLON], SortLex(hashes));
    Associate(Ascii(tag), [COLON], Concat(SortLex(hashes)));
    h := sha(fed);
  }

  method EncodeMembership(m: MembershipView) returns (buf: Bytes)
    ensures buf == MembershipPayload(m)
  {
    buf := [ProfileCode(m.activeProfile)] + EncodeText(m.clusterId);
    var sorted := SortLex(m.nodes);
    PermutedMembers(sorted, m.nodes);
    buf := buf + LE8(|sorted|);
    buf := Feed(buf, Map(EncodeText, sorted));
  }

  method ComputeUtxoRoot(sha: Bytes -> Digest, utxos: seq<UtxoEntry>) returns (root: Bytes)
    ensures root == UtxoRoot(sha, utxos)
  {
    var hashes := CollectDigests(sha, SortByKey(utxos), UtxoBytes);
    var fed := Feed(Ascii("KROOTv1:utxos"), SortLex(hashes));
    root := Hex(sha(fed));
  }

  method ComputeStateRoot(sha: Bytes -> Digest, s: LedgerState) returns (root: Bytes)
    ensures root == Root(sha, s)
  {
    var accounts := HashSortedItems(sha, s.accounts, "KROOTv1:accounts", AccountBytes);
    var journal := HashSortedItems(sha, s.journal, "KROOTv1:journal", JournalBytes);
    var reservations := HashSortedItems(sha, s.reservations, "KROOTv1:reservations", ReservationBytes);
    var intents := HashSortedItems(sha, s.consumedIntents, "KROOTv1:intents", IntentBytes);
    var membership := EncodeMembership(s.membership);
    var utxos := ComputeUtxoRoot(sha, s.utxos);
    root := Hex(sha(
      Section("KROOTv1:version", LE8(s.version)) +
      (Section("KROOTv1:accounts", accounts) +
      (Section("KROOTv1:journal", journal) +
      (Section("KROOTv1:reservations", reservations) +
      (Section("KROOTv1:intents", intents) +
      (Section("KROOTv1:membership", sha(Section("KROOTv1:mem", membership))) +
       Section("KROOTv1:utxos", sha(Section("KROOTv1:utxos", utxos))))))))));
  }
}
