/** The state root depends on the content of a state, not on its storage order, and pins that content
    down unless two of the byte strings that were hashed collide. */
module RootBinding {
  import opened Binary
  import opened Collisions
  import opened Sequences
  import opened Accounts
  import opened Chain
  import opened JournalEntries
  import opened Ledger
  import opened StateRoot

  function EntryHash(e: JournalEntry): Bytes {
    e.entryHash
  }

  /** Equal up to storage order, as far as the root can tell: of a journal entry only its hash is
      hashed, and of a reservation an encoding without length prefixes. */
  predicate SameContent(s: LedgerState, t: LedgerState) {
    && s.version == t.version
    && Permuted(s.accounts, t.accounts)
    && Permuted(Map(EntryHash, s.journal), Map(EntryHash, t.journal))
    && Permuted(Map(ReservationBytes, s.reservations), Map(ReservationBytes, t.reservations))
    && Permuted(s.consumedIntents, t.consumedIntents)
    && s.membership.clusterId == t.membership.clusterId
    && s.membership.activeProfile == t.membership.activeProfile
    && Permuted(s.membership.nodes, t.membership.nodes)
    && Permuted(s.utxos, t.utxos)
  }

  // ---------------------------------------------------------------- the hashed byte strings

  function Images<T>(leaf: T -> Bytes, items: seq<T>): set<Bytes> {
    set i | 0 <= i < |items| :: leaf(items[i])
  }

  function GroupHashed<T>(sha: Bytes -> Digest, items: seq<T>, tag: string, leaf: T -> Bytes): set<Bytes> {
    {GroupBytes(sha, items, tag, leaf)} + Images(leaf, items)
  }

  function UtxosHashed(sha: Bytes -> Digest, utxos: seq<UtxoEntry>): set<Bytes> {
    {UtxoSectionBytes(sha, utxos)} + {UtxosBytes(sha, utxos)} + Images(UtxoBytes, utxos)
  }

  /** Every byte string hashed while the root of `s` is computed. */
  function Hashed(sha: Bytes -> Digest, s: LedgerState): set<Bytes> {
    {RootBytes(sha, s)} + {MembershipBytes(s.membership)} + UtxosHashed(sha, s.utxos)
    + GroupHashed(sha, s.accounts, "KROOTv1:accounts", AccountBytes)
    + GroupHashed(sha, s.journal, "KROOTv1:journal", JournalBytes)
    + GroupHashed(sha, s.reservations, "KROOTv1:reservations", ReservationBytes)
    + GroupHashed(sha, s.consumedIntents, "KROOTv1:intents", IntentBytes)
  }

  // ---------------------------------------------------------------- leaves decode uniquely

  lemma AccountBytesInjective(a: AccountState, b: AccountState)
    requires AccountBytes(a) == AccountBytes(b)
    ensures a == b
  {
    var a5, b5 := LE8(a.lastCommittedSequence) + a.accountId, LE8(b.lastCommittedSequence) + b.accountId;
    var a4, b4 := LE8(a.pendingOutgoingSats) + a5, LE8(b.pendingOutgoingSats) + b5;
    var a3, b3 := LE8(a.pendingIncomingSats) + a4, LE8(b.pendingIncomingSats) + b4;
    var a2, b2 := LE8(a.reservedSats) + a3, LE8(b.reservedSats) + b3;
    var a1, b1 := LE8(a.availableSats) + a2, LE8(b.availableSats) + b2;
    SectionInjective("KROOTv1:acct", LE8(a.version) + a1, LE8(b.version) + b1);
    LE8Split(a.version, a1, b.version, b1);
    LE8Split(a.availableSats, a2, b.availableSats, b2);
    LE8Split(a.reservedSats, a3, b.reservedSats, b3);
    LE8Split(a.pendingIncomingSats, a4, b.pendingIncomingSats, b4);
    LE8Split(a.pendingOutgoingSats, a5, b.pendingOutgoingSats, b5);
    LE8Split(a.lastCommittedSequence, a.accountId, b.lastCommittedSequence, b.accountId);
  }

  /** The variable-length tail of an entry's encoding. */
  function UtxoTail(u: UtxoEntry): Bytes {
    EncodeOptionText(u.reservedBy) + (EncodeOptionText(u.spentByTxid) +
    (EncodeText(u.outpoint.txid) + (EncodeText(u.address) + EncodeText(Key(u)))))
  }

  lemma UtxoTailDecodes(u: UtxoEntry, v: UtxoEntry)
    requires UtxoTail(u) == UtxoTail(v)
    ensures u.reservedBy == v.reservedBy && u.spentByTxid == v.spentByTxid
    ensures u.outpoint.txid == v.outpoint.txid && u.address == v.address
  {
    var u3, v3 := EncodeText(u.address) + EncodeText(Key(u)), EncodeText(v.address) + EncodeText(Key(v));
    var u2, v2 := EncodeText(u.outpoint.txid) + u3, EncodeText(v.outpoint.txid) + v3;
    var u1, v1 := EncodeOptionText(u.spentByTxid) + u2, EncodeOptionText(v.spentByTxid) + v2;
    EncodeOptionTextSplit(u.reservedBy, u1, v.reservedBy, v1);
    EncodeOptionTextSplit(u.spentByTxid, u2, v.spentByTxid, v2);
    EncodeTextSplit(u.outpoint.txid, u3, v.outpoint.txid, v3);
    EncodeTextSplit(u.address, EncodeText(Key(u)), v.address, EncodeText(Key(v)));
  }

  function UtxoOptions(u: UtxoEntry): Bytes {
    EncodeOptionU64(u.blockHeight) + (EncodeOptionU64(u.confirmedAtBucket) + (EncodeOptionU64(u.reservedAtBucket) +
    (EncodeOptionU64(u.spentAtBucket) + UtxoTail(u))))
  }

  lemma UtxoOptionsDecode(u: UtxoEntry, v: UtxoEntry)
    requires UtxoOptions(u) == UtxoOptions(v)
    ensures u.blockHeight == v.blockHeight && u.confirmedAtBucket == v.confirmedAtBucket
    ensures u.reservedAtBucket == v.reservedAtBucket && u.spentAtBucket == v.spentAtBucket
    ensures UtxoTail(u) == UtxoTail(v)
  {
    var u3, v3 := EncodeOptionU64(u.spentAtBucket) + UtxoTail(u), EncodeOptionU64(v.spentAtBucket) + UtxoTail(v);
    var u2, v2 := EncodeOptionU64(u.reservedAtBucket) + u3, EncodeOptionU64(v.reservedAtBucket) + v3;
    var u1, v1 := EncodeOptionU64(u.confirmedAtBucket) + u2, EncodeOptionU64(v.confirmedAtBucket) + v2;
    EncodeOptionU64Split(u.blockHeight, u1, v.blockHeight, v1);
    EncodeOptionU64Split(u.confirmedAtBucket, u2, v.confirmedAtBucket, v2);
    EncodeOptionU64Split(u.reservedAtBucket, u3, v.reservedAtBucket, v3);
    EncodeOptionU64Split(u.spentAtBucket, UtxoTail(u), v.spentAtBucket, UtxoTail(v));
  }

  lemma UtxoBytesInjective(u: UtxoEntry, v: UtxoEntry)
    requires UtxoBytes(u) == UtxoBytes(v)
    ensures u == v
  {
    var u3, v3 := LE8(u.detectedAtBucket) + UtxoOptions(u), LE8(v.detectedAtBucket) + UtxoOptions(v);
    var u2, v2 := LE4(u.outpoint.vout) + u3, LE4(v.outpoint.vout) + v3;
    var u1, v1 := LE8(u.valueSats) + u2, LE8(v.valueSats) + v2;
    SplitEqual([StateCode(u.state)], u1, [StateCode(v.state)], v1);
    assert [StateCode(u.state)][0] == [StateCode(v.state)][0];
    LE8Split(u.valueSats, u2, v.valueSats, v2);
    LE4Split(u.outpoint.vout, u3, v.outpoint.vout, v3);
    LE8Split(u.detectedAtBucket, UtxoOptions(u), v.detectedAtBucket, UtxoOptions(v));
    UtxoOptionsDecode(u, v);
    UtxoTailDecodes(u, v);
  }

  predicate AllTexts(s: seq<Bytes>) {
    forall i :: 0 <= i < |s| ==> |s[i]| < U64_SIZE
  }

  /** A list of length-prefixed texts decodes uniquely, whatever its length. */
  lemma {:induction false} TextListInjective(a: seq<Bytes>, b: seq<Bytes>)
    requires AllTexts(a) && AllTexts(b)
    requires Concat(Map(EncodeText, a)) == Concat(Map(EncodeText, b))
    ensures a == b
  {
    var ea, eb := Map(EncodeText, a), Map(EncodeText, b);
    if |a| > 0 && |b| > 0 {
      assert ea[1..] == Map(EncodeText, a[1..]) && eb[1..] == Map(EncodeText, b[1..]);
      EncodeTextSplit(a[0], Concat(ea[1..]), b[0], Concat(eb[1..]));
      TextListInjective(a[1..], b[1..]);
      assert a == [a[0]] + a[1..] && b == [b[0]] + b[1..];
    }
    NonEmptyTextList(a);
    NonEmptyTextList(b);
  }

  lemma NonEmptyTextList(a: seq<Bytes>)
    ensures |Concat(Map(EncodeText, a))| == 0 ==> |a| == 0
  {
    if |a| > 0 {
      assert |Map(EncodeText, a)[0]| > 0;
    }
  }

  lemma MembershipDecodes(m: MembershipView, n: MembershipView)
    requires MembershipBytes(m) == MembershipBytes(n)
    ensures m.clusterId == n.clusterId && m.activeProfile == n.activeProfile && Permuted(m.nodes, n.nodes)
  {
    SectionInjective("KROOTv1:mem", MembershipPayload(m), MembershipPayload(n));
    var sm, sn := SortLex(m.nodes), SortLex(n.nodes);
    var m2, n2 := Concat(Map(EncodeText, sm)), Concat(Map(EncodeText, sn));
    var m1, n1 := EncodeText(m.clusterId) + (LE8(|m.nodes|) + m2), EncodeText(n.clusterId) + (LE8(|n.nodes|) + n2);
    SplitEqual([ProfileCode(m.activeProfile)], m1, [ProfileCode(n.activeProfile)], n1);
    assert [ProfileCode(m.activeProfile)][0] == [ProfileCode(n.activeProfile)][0];
    EncodeTextSplit(m.clusterId, LE8(|m.nodes|) + m2, n.clusterId, LE8(|n.nodes|) + n2);
    SplitEqual(LE8(|m.nodes|), m2, LE8(|n.nodes|), n2);
    PermutedMembers(sm, m.nodes);
    PermutedMembers(sn, n.nodes);
    assert AllTexts(sm) by { forall i | 0 <= i < |sm| ensures |sm[i]| < U64_SIZE { assert sm[i] in m.nodes; } }
    assert AllTexts(sn) by { forall i | 0 <= i < |sn| ensures |sn[i]| < U64_SIZE { assert sn[i] in n.nodes; } }
    TextListInjective(sm, sn);
    SortLexCanonical(m.nodes, n.nodes);
  }

  // ---------------------------------------------------------------- groups bind their leaves

  lemma {:induction false} SortedDigests(s: seq<Bytes>)
    requires AllDigests(s)
    ensures AllDigests(SortLex(s))
  {
    PermutedMembers(SortLex(s), s);
    forall i | 0 <= i < |s| ensures |SortLex(s)[i]| == 32 {
      assert SortLex(s)[i] in s;
    }
  }

  /** Equal concatenations of sorted digests mean equal collections of leaves, unless leaves collide. */
  lemma DigestsBind<T>(sha: Bytes -> Digest, a: seq<T>, b: seq<T>, leaf: T -> Bytes)
    requires Concat(SortLex(LeafDigests(sha, a, leaf))) == Concat(SortLex(LeafDigests(sha, b, leaf)))
    requires CollisionFree(sha, Images(leaf, a), Images(leaf, b))
    ensures Permuted(Map(leaf, a), Map(leaf, b))
  {
    var da, db := LeafDigests(sha, a, leaf), LeafDigests(sha, b, leaf);
    SortedDigests(da);
    SortedDigests(db);
    ConcatDigestsInjective(SortLex(da), SortLex(db));
    SortLexCanonical(da, db);
    DigestsOf(sha, a, leaf);
    DigestsOf(sha, b, leaf);
    HashReflectsPermuted(sha, Map(leaf, a), Map(leaf, b));
  }

  function HashAll(sha: Bytes -> Digest, xs: seq<Bytes>): seq<Bytes> {
    Map((x: Bytes) => (var d: Bytes := sha(x); d), xs)
  }

  lemma DigestsOf<T>(sha: Bytes -> Digest, a: seq<T>, leaf: T -> Bytes)
    ensures LeafDigests(sha, a, leaf) == HashAll(sha, Map(leaf, a))
    ensures forall x :: x in Map(leaf, a) ==> x in Images(leaf, a)
  {
  }

  lemma HashReflectsPermuted(sha: Bytes -> Digest, xs: seq<Bytes>, ys: seq<Bytes>)
    requires Permuted(HashAll(sha, xs), HashAll(sha, ys))
    requires forall x, y :: x in xs && y in ys && sha(x) == sha(y) ==> x == y
    ensures Permuted(xs, ys)
  {
    MapReflectsPermuted((x: Bytes) => (var d: Bytes := sha(x); d), xs, ys);
  }

  lemma GroupBinds<T>(sha: Bytes -> Digest, a: seq<T>, b: seq<T>, tag: string, leaf: T -> Bytes)
    requires sha(GroupBytes(sha, a, tag, leaf)) == sha(GroupBytes(sha, b, tag, leaf))
    requires CollisionFree(sha, GroupHashed(sha, a, tag, leaf), GroupHashed(sha, b, tag, leaf))
    ensures Permuted(Map(leaf, a), Map(leaf, b))
  {
    assert GroupBytes(sha, a, tag, leaf) in GroupHashed(sha, a, tag, leaf);
    assert GroupBytes(sha, b, tag, leaf) in GroupHashed(sha, b, tag, leaf);
    CollisionFreeParts(sha, GroupHashed(sha, a, tag, leaf), GroupHashed(sha, b, tag, leaf), Images(leaf, a), Images(leaf, b));
    SectionInjective(tag, Concat(SortLex(LeafDigests(sha, a, leaf))), Concat(SortLex(LeafDigests(sha, b, leaf))));
    DigestsBind(sha, a, b, leaf);
  }

  lemma UtxosBind(sha: Bytes -> Digest, a: seq<UtxoEntry>, b: seq<UtxoEntry>)
    requires sha(UtxoSectionBytes(sha, a)) == sha(UtxoSectionBytes(sha, b))
    requires CollisionFree(sha, UtxosHashed(sha, a), UtxosHashed(sha, b))
    ensures Permuted(a, b)
  {
    assert UtxoSectionBytes(sha, a) in UtxosHashed(sha, a) && UtxoSectionBytes(sha, b) in UtxosHashed(sha, b);
    SectionInjective("KROOTv1:utxos", UtxoRoot(sha, a), UtxoRoot(sha, b));
    HexInjective(sha(UtxosBytes(sha, a)), sha(UtxosBytes(sha, b)));
    assert UtxosBytes(sha, a) in UtxosHashed(sha, a) && UtxosBytes(sha, b) in UtxosHashed(sha, b);
    UtxoLeavesBind(sha, a, b);
  }

  lemma UtxoLeavesBind(sha: Bytes -> Digest, a: seq<UtxoEntry>, b: seq<UtxoEntry>)
    requires UtxosBytes(sha, a) == UtxosBytes(sha, b)
    requires CollisionFree(sha, UtxosHashed(sha, a), UtxosHashed(sha, b))
    ensures Permuted(a, b)
  {
    var sa, sb := SortByKey(a), SortByKey(b);
    SplitEqual(Ascii("KROOTv1:utxos"), Concat(SortLex(LeafDigests(sha, sa, UtxoBytes))),
               Ascii("KROOTv1:utxos"), Concat(SortLex(LeafDigests(sha, sb, UtxoBytes))));
    PermutedMembers(sa, a);
    PermutedMembers(sb, b);
    SortedImages(UtxoBytes, sa, a);
    SortedImages(UtxoBytes, sb, b);
    CollisionFreeParts(sha, UtxosHashed(sha, a), UtxosHashed(sha, b), Images(UtxoBytes, a), Images(UtxoBytes, b));
    DigestsBind(sha, sa, sb, UtxoBytes);
    forall u, v | u in sa && v in sb && UtxoBytes(u) == UtxoBytes(v) ensures u == v {
      UtxoBytesInjective(u, v);
    }
    MapReflectsPermuted(UtxoBytes, sa, sb);
  }

  lemma SortedImages<T>(leaf: T -> Bytes, a: seq<T>, b: seq<T>)
    requires Permuted(a, b)
    ensures Images(leaf, a) == Images(leaf, b)
  {
    PermutedMembers(a, b);
    forall i | 0 <= i < |a| ensures leaf(a[i]) in Images(leaf, b) {
      assert a[i] in b;
    }
    forall i | 0 <= i < |b| ensures leaf(b[i]) in Images(leaf, a) {
      assert b[i] in a;
    }
  }

  // ---------------------------------------------------------------- the theorem

  /** The seven digests of the root's preimage. */
  lemma RootSections(sha: Bytes -> Digest, s: LedgerState, t: LedgerState)
    requires RootBytes(sha, s) == RootBytes(sha, t)
    ensures s.version == t.version
    ensures sha(GroupBytes(sha, s.accounts, "KROOTv1:accounts", AccountBytes)) == sha(GroupBytes(sha, t.accounts, "KROOTv1:accounts", AccountBytes))
    ensures sha(GroupBytes(sha, s.journal, "KROOTv1:journal", JournalBytes)) == sha(GroupBytes(sha, t.journal, "KROOTv1:journal", JournalBytes))
    ensures sha(GroupBytes(sha, s.reservations, "KROOTv1:reservations", ReservationBytes)) == sha(GroupBytes(sha, t.reservations, "KROOTv1:reservations", ReservationBytes))
    ensures sha(GroupBytes(sha, s.consumedIntents, "KROOTv1:intents", IntentBytes)) == sha(GroupBytes(sha, t.consumedIntents, "KROOTv1:intents", IntentBytes))
    ensures sha(MembershipBytes(s.membership)) == sha(MembershipBytes(t.membership))
    ensures sha(UtxoSectionBytes(sha, s.utxos)) == sha(UtxoSectionBytes(sha, t.utxos))
  {
    var sa, ta := sha(GroupBytes(sha, s.accounts, "KROOTv1:accounts", AccountBytes)), sha(GroupBytes(sha, t.accounts, "KROOTv1:accounts", AccountBytes));
    var sj, tj := sha(GroupBytes(sha, s.journal, "KROOTv1:journal", JournalBytes)), sha(GroupBytes(sha, t.journal, "KROOTv1:journal", JournalBytes));
    var sr, tr := sha(GroupBytes(sha, s.reservations, "KROOTv1:reservations", ReservationBytes)), sha(GroupBytes(sha, t.reservations, "KROOTv1:reservations", ReservationBytes));
    var si, ti := sha(GroupBytes(sha, s.consumedIntents, "KROOTv1:intents", IntentBytes)), sha(GroupBytes(sha, t.consumedIntents, "KROOTv1:intents", IntentBytes));
    var sm, tm := sha(MembershipBytes(s.membership)), sha(MembershipBytes(t.membership));
    var su, tu := sha(UtxoSectionBytes(sha, s.utxos)), sha(UtxoSectionBytes(sha, t.utxos));
    SevenSections(LE8(s.version), sa, sj, sr, si, sm, su, LE8(t.version), ta, tj, tr, ti, tm, tu);
    Associate(LE8(s.version), [], []);
    LE8Split(s.version, [], t.version, []);
  }

  function Sections(v: Bytes, a: Bytes, j: Bytes, r: Bytes, i: Bytes, m: Bytes, u: Bytes): Bytes {
    Section("KROOTv1:version", v) +
    (Section("KROOTv1:accounts", a) +
    (Section("KROOTv1:journal", j) +
    (Section("KROOTv1:reservations", r) +
    (Section("KROOTv1:intents", i) +
    (Section("KROOTv1:membership", m) +
     Section("KROOTv1:utxos", u))))))
  }

  lemma SevenSections(v1: Bytes, a1: Digest, j1: Digest, r1: Digest, i1: Digest, m1: Digest, u1: Digest,
                      v2: Bytes, a2: Digest, j2: Digest, r2: Digest, i2: Digest, m2: Digest, u2: Digest)
    requires |v1| == |v2|
    requires Sections(v1, a1, j1, r1, i1, m1, u1) == Sections(v2, a2, j2, r2, i2, m2, u2)
    ensures v1 == v2 && a1 == a2 && j1 == j2 && r1 == r2 && i1 == i2 && m1 == m2 && u1 == u2
  {
    var x6, y6 := Section("KROOTv1:utxos", u1), Section("KROOTv1:utxos", u2);
    var x5, y5 := Section("KROOTv1:membership", m1) + x6, Section("KROOTv1:membership", m2) + y6;
    var x4, y4 := Section("KROOTv1:intents", i1) + x5, Section("KROOTv1:intents", i2) + y5;
    var x3, y3 := Section("KROOTv1:reservations", r1) + x4, Section("KROOTv1:reservations", r2) + y4;
    var x2, y2 := Section("KROOTv1:journal", j1) + x3, Section("KROOTv1:journal", j2) + y3;
    var x1, y1 := Section("KROOTv1:accounts", a1) + x2, Section("KROOTv1:accounts", a2) + y2;
    SectionSplit("KROOTv1:version", v1, x1, v2, y1);
    SectionSplit("KROOTv1:accounts", a1, x2, a2, y2);
    SectionSplit("KROOTv1:journal", j1, x3, j2, y3);
    SectionSplit("KROOTv1:reservations", r1, x4, r2, y4);
    SectionSplit("KROOTv1:intents", i1, x5, i2, y5);
    SectionSplit("KROOTv1:membership", m1, x6, m2, y6);
    SectionInjective("KROOTv1:utxos", u1, u2);
  }

  lemma AccountsBind(a: seq<AccountState>, b: seq<AccountState>)
    requires Permuted(Map(AccountBytes, a), Map(AccountBytes, b))
    ensures Permuted(a, b)
  {
    forall x, y | x in a && y in b && AccountBytes(x) == AccountBytes(y) ensures x == y {
      AccountBytesInjective(x, y);
    }
    MapReflectsPermuted(AccountBytes, a, b);
  }

  lemma IntentsBind(a: seq<Text>, b: seq<Text>)
    requires Permuted(Map(IntentBytes, a), Map(IntentBytes, b))
    ensures Permuted(a, b)
  {
    forall x, y | x in a && y in b && IntentBytes(x) == IntentBytes(y) ensures x == y {
      SectionInjective("KROOTv1:intent", x, y);
    }
    MapReflectsPermuted(IntentBytes, a, b);
  }

  /** Collision freedom of the whole is collision freedom of every group. */
  lemma HashedParts(sha: Bytes -> Digest, s: LedgerState, t: LedgerState)
    requires CollisionFree(sha, Hashed(sha, s), Hashed(sha, t))
    ensures CollisionFree(sha, {RootBytes(sha, s)}, {RootBytes(sha, t)})
    ensures CollisionFree(sha, {MembershipBytes(s.membership)}, {MembershipBytes(t.membership)})
    ensures CollisionFree(sha, UtxosHashed(sha, s.utxos), UtxosHashed(sha, t.utxos))
    ensures CollisionFree(sha, GroupHashed(sha, s.accounts, "KROOTv1:accounts", AccountBytes), GroupHashed(sha, t.accounts, "KROOTv1:accounts", AccountBytes))
    ensures CollisionFree(sha, GroupHashed(sha, s.journal, "KROOTv1:journal", JournalBytes), GroupHashed(sha, t.journal, "KROOTv1:journal", JournalBytes))
    ensures CollisionFree(sha, GroupHashed(sha, s.reservations, "KROOTv1:reservations", ReservationBytes), GroupHashed(sha, t.reservations, "KROOTv1:reservations", ReservationBytes))
    ensures CollisionFree(sha, GroupHashed(sha, s.consumedIntents, "KROOTv1:intents", IntentBytes), GroupHashed(sha, t.consumedIntents, "KROOTv1:intents", IntentBytes))
  {
  }

  lemma RootBindsContent(sha: Bytes -> Digest, s: LedgerState, t: LedgerState)
    requires Root(sha, s) == Root(sha, t)
    requires CollisionFree(sha, Hashed(sha, s), Hashed(sha, t))
    ensures SameContent(s, t)
  {
    HexInjective(sha(RootBytes(sha, s)), sha(RootBytes(sha, t)));
    HashedParts(sha, s, t);
    SingletonFree(sha, RootBytes(sha, s), RootBytes(sha, t));
    RootSections(sha, s, t);
    SingletonFree(sha, MembershipBytes(s.membership), MembershipBytes(t.membership));
    GroupBinds(sha, s.accounts, t.accounts, "KROOTv1:accounts", AccountBytes);
    AccountsBind(s.accounts, t.accounts);
    GroupBinds(sha, s.journal, t.journal, "KROOTv1:journal", JournalBytes);
    JournalHashesBind(s.journal, t.journal);
    GroupBinds(sha, s.reservations, t.reservations, "KROOTv1:reservations", ReservationBytes);
    GroupBinds(sha, s.consumedIntents, t.consumedIntents, "KROOTv1:intents", IntentBytes);
    IntentsBind(s.consumedIntents, t.consumedIntents);
    MembershipDecodes(s.membership, t.membership);
    UtxosBind(sha, s.utxos, t.utxos);
  }

  lemma SingletonFree(sha: Bytes -> Digest, x: Bytes, y: Bytes)
    requires CollisionFree(sha, {x}, {y})
    ensures sha(x) == sha(y) ==> x == y
  {
    assert x in {x} && y in {y};
  }

  lemma JournalHashesBind(a: seq<JournalEntry>, b: seq<JournalEntry>)
    requires Permuted(Map(JournalBytes, a), Map(JournalBytes, b))
    ensures Permuted(Map(EntryHash, a), Map(EntryHash, b))
  {
    var tagged := (h: Bytes) => Section("KROOTv1:jent", h);
    var ha, hb := Map(EntryHash, a), Map(EntryHash, b);
    assert Map(tagged, ha) == Map(JournalBytes, a) && Map(tagged, hb) == Map(JournalBytes, b);
    forall x, y | x in ha && y in hb && tagged(x) == tagged(y) ensures x == y {
      SectionInjective("KROOTv1:jent", x, y);
    }
    MapReflectsPermuted(tagged, ha, hb);
  }

  /** Storage order never shows in the root. */
  lemma RootIgnoresOrder(sha: Bytes -> Digest, s: LedgerState, t: LedgerState)
    requires SameContent(s, t)
    ensures Root(sha, s) == Root(sha, t)
  {
    MapPermuted(AccountBytes, s.accounts, t.accounts);
    GroupIgnoresOrder(sha, s.accounts, t.accounts, "KROOTv1:accounts", AccountBytes);

    var tagged := (h: Bytes) => Section("KROOTv1:jent", h);
    MapPermuted(tagged, Map(EntryHash, s.journal), Map(EntryHash, t.journal));
    assert Map(tagged, Map(EntryHash, s.journal)) == Map(JournalBytes, s.journal);
    assert Map(tagged, Map(EntryHash, t.journal)) == Map(JournalBytes, t.journal);
    GroupIgnoresOrder(sha, s.journal, t.journal, "KROOTv1:journal", JournalBytes);

    GroupIgnoresOrder(sha, s.reservations, t.reservations, "KROOTv1:reservations", ReservationBytes);

    MapPermuted(IntentBytes, s.consumedIntents, t.consumedIntents);
    GroupIgnoresOrder(sha, s.consumedIntents, t.consumedIntents, "KROOTv1:intents", IntentBytes);

    SortLexCanonical(s.membership.nodes, t.membership.nodes);
    PermutedMembers(s.membership.nodes, t.membership.nodes);
    MapPermuted(UtxoBytes, SortByKey(s.utxos), SortByKey(t.utxos));
    DigestsIgnoreOrder(sha, SortByKey(s.utxos), SortByKey(t.utxos), UtxoBytes);
  }

  lemma DigestsIgnoreOrder<T>(sha: Bytes -> Digest, a: seq<T>, b: seq<T>, leaf: T -> Bytes)
    requires Permuted(Map(leaf, a), Map(leaf, b))
    ensures SortLex(LeafDigests(sha, a, leaf)) == SortLex(LeafDigests(sha, b, leaf))
  {
    MapPermuted((x: Bytes) => (var d: Bytes := sha(x); d), Map(leaf, a), Map(leaf, b));
    DigestsOf(sha, a, leaf);
    DigestsOf(sha, b, leaf);
    SortLexCanonical(LeafDigests(sha, a, leaf), LeafDigests(sha, b, leaf));
  }

  lemma GroupIgnoresOrder<T>(sha: Bytes -> Digest, a: seq<T>, b: seq<T>, tag: string, leaf: T -> Bytes)
    requires Permuted(Map(leaf, a), Map(leaf, b))
    ensures GroupBytes(sha, a, tag, leaf) == GroupBytes(sha, b, tag, leaf)
  {
    DigestsIgnoreOrder(sha, a, b, leaf);
  }

  /** Two states with the same root have the same content, or computing their roots hashed two
      different byte strings to the same digest. */
  lemma RootBinding(sha: Bytes -> Digest, s: LedgerState, t: LedgerState)
    requires Root(sha, s) == Root(sha, t)
    ensures SameContent(s, t) || Collide(sha, Hashed(sha, s), Hashed(sha, t))
  {
    if CollisionFree(sha, Hashed(sha, s), Hashed(sha, t)) {
      RootBindsContent(sha, s, t);
    }
  }

  /** What the root does not bind: the borders between a reservation's three strings.  Exactly the
      reservations that agree on the numbers and on the strings run together look alike. */
  lemma ReservationAmbiguity(a: Reservation, b: Reservation)
    ensures ReservationBytes(a) == ReservationBytes(b) <==>
      && a.amountSats == b.amountSats && a.createdAtBucket == b.createdAtBucket
      && a.expiresAtBucket == b.expiresAtBucket && a.committedSequence == b.committedSequence
      && a.state == b.state
      && a.accountId + a.reservationId + a.authorizationCommitment == b.accountId + b.reservationId + b.authorizationCommitment
  {
    var sa, sb := a.accountId + a.reservationId + a.authorizationCommitment, b.accountId + b.reservationId + b.authorizationCommitment;
    ReservationNested(a);
    ReservationNested(b);
    if ReservationBytes(a) == ReservationBytes(b) {
      var a4, b4 := [ReservationCode(a.state)] + sa, [ReservationCode(b.state)] + sb;
      var a3, b3 := LE8(a.committedSequence) + a4, LE8(b.committedSequence) + b4;
      var a2, b2 := LE8(a.expiresAtBucket) + a3, LE8(b.expiresAtBucket) + b3;
      var a1, b1 := LE8(a.createdAtBucket) + a2, LE8(b.createdAtBucket) + b2;
      SectionInjective("KROOTv1:resv", LE8(a.amountSats) + a1, LE8(b.amountSats) + b1);
      LE8Split(a.amountSats, a1, b.amountSats, b1);
      LE8Split(a.createdAtBucket, a2, b.createdAtBucket, b2);
      LE8Split(a.expiresAtBucket, a3, b.expiresAtBucket, b3);
      LE8Split(a.committedSequence, a4, b.committedSequence, b4);
      SplitEqual([ReservationCode(a.state)], sa, [ReservationCode(b.state)], sb);
      assert [ReservationCode(a.state)][0] == [ReservationCode(b.state)][0];
    }
  }

  lemma ReservationNested(r: Reservation)
    ensures ReservationBytes(r) == Section("KROOTv1:resv",
      LE8(r.amountSats) + (LE8(r.createdAtBucket) + (LE8(r.expiresAtBucket) + (LE8(r.committedSequence) +
      ([ReservationCode(r.state)] + (r.accountId + r.reservationId + r.authorizationCommitment))))))
  {
    var n0, n1, n2, n3 := LE8(r.amountSats), LE8(r.createdAtBucket), LE8(r.expiresAtBucket), LE8(r.committedSequence);
    var c := [ReservationCode(r.state)];
    var t := r.accountId + r.reservationId + r.authorizationCommitment;
    assert n0 + n1 + n2 + n3 + c + r.accountId + r.reservationId + r.authorizationCommitment == n0 + (n1 + (n2 + (n3 + (c + t))));
  }
}
