/** Tamper evidence: the head hash of a journal pins down every entry, as long as no entry id imitates
    the `|sequence|` that follows it in the hashed string. */
module JournalHash {
  import opened Binary
  import opened Collisions
  import opened JournalEntries
  import opened Journal
  import opened JournalRuns

  // ---------------------------------------------------------------- lists of postings

  predicate NoComma(s: string) {
    forall i :: 0 <= i < |s| ==> s[i] != ',' && s[i] < 256 as char
  }

  lemma AsciiNoComma(s: string)
    requires NoComma(s)
    ensures COMMA !in Ascii(s)
  {
  }

  lemma AssetNames(a: StandardAccount)
    requires Class(a).Asset?
    ensures COMMA !in AccountName(a)
  {
    match a
    case AssetCustodiedBtc => AsciiNoComma("AssetCustodiedBtc");
    case AssetColdBtc => AsciiNoComma("AssetColdBtc");
    case AssetHotBtc => AsciiNoComma("AssetHotBtc");
  }

  lemma LiabilityNames(a: StandardAccount)
    requires Class(a).Liability?
    ensures COMMA !in AccountName(a)
  {
    match a
    case LiabilityUserBalances => AsciiNoComma("LiabilityUserBalances");
    case LiabilityPendingWithdrawals => AsciiNoComma("LiabilityPendingWithdrawals");
    case LiabilityInternalReserved => AsciiNoComma("LiabilityInternalReserved");
  }

  lemma OtherNames(a: StandardAccount)
    requires !Class(a).Asset? && !Class(a).Liability?
    ensures COMMA !in AccountName(a)
  {
    match a
    case EquityPlatform => AsciiNoComma("EquityPlatform");
    case ExpenseMinerFees => AsciiNoComma("ExpenseMinerFees");
    case RevenuePlatformFees => AsciiNoComma("RevenuePlatformFees");
  }

  lemma NameHasNoComma(a: StandardAccount)
    ensures COMMA !in AccountName(a)
  {
    if Class(a).Asset? {
      AssetNames(a);
    } else if Class(a).Liability? {
      LiabilityNames(a);
    } else {
      OtherNames(a);
    }
  }

  function NameLength(a: StandardAccount): nat {
    match a
    case AssetCustodiedBtc => 17
    case AssetColdBtc => 12
    case AssetHotBtc => 11
    case LiabilityUserBalances => 21
    case LiabilityPendingWithdrawals => 27
    case LiabilityInternalReserved => 25
    case EquityPlatform => 14
    case ExpenseMinerFees => 16
    case RevenuePlatformFees => 19
  }

  lemma NameHasLength(a: StandardAccount)
    ensures |AccountName(a)| == NameLength(a)
  {
  }

  /** No two account names have the same length. */
  lemma NameInjective(a: StandardAccount, b: StandardAccount)
    requires AccountName(a) == AccountName(b)
    ensures a == b
  {
    NameHasLength(a);
    NameHasLength(b);
  }

  predicate EndsInComma(x: Bytes) {
    |x| == 0 || x[|x| - 1] == COMMA
  }

  /** A comma-free tail after a comma-terminated prefix is determined by the whole. */
  lemma TailEqual(x1: Bytes, n1: Bytes, x2: Bytes, n2: Bytes)
    requires x1 + n1 == x2 + n2
    requires EndsInComma(x1) && EndsInComma(x2)
    requires COMMA !in n1 && COMMA !in n2
    ensures x1 == x2 && n1 == n2
  {
    if |x1| > |x2| {
      TailNotLonger(x1, n1, x2, n2);
    }
    if |x2| > |x1| {
      TailNotLonger(x2, n2, x1, n1);
    }
    SplitEqual(x1, n1, x2, n2);
  }

  lemma TailNotLonger(x1: Bytes, n1: Bytes, x2: Bytes, n2: Bytes)
    requires x1 + n1 == x2 + n2
    requires EndsInComma(x1)
    requires COMMA !in n2
    ensures |x1| <= |x2|
  {
    forall k | |x2| <= k < |x2 + n2| ensures (x2 + n2)[k] != COMMA {
      assert (x2 + n2)[k] == n2[k - |x2|];
    }
    assert |x1| > 0 ==> (x1 + n1)[|x1| - 1] == COMMA;
  }

  lemma {:induction false} PostingsEndInComma(ps: seq<Posting>)
    ensures EndsInComma(PostingsBytes(ps))
  {
  }

  /** An amount with its punctuation. */
  function AmountBytes(n: u64): (r: Bytes)
    ensures |r| == 10
  {
    [COLON] + LE8(n) + [COMMA]
  }

  lemma AmountInjective(n: u64, m: u64)
    requires AmountBytes(n) == AmountBytes(m)
    ensures n == m
  {
    SplitEqualRight([COLON] + LE8(n), [COMMA], [COLON] + LE8(m), [COMMA]);
    SplitEqual([COLON], LE8(n), [COLON], LE8(m));
    LE8Split(n, [], m, []);
  }

  lemma NamedAmountEqual(x: Bytes, name: Bytes, n: u64, x': Bytes, name': Bytes, n': u64)
    requires x + (name + AmountBytes(n)) == x' + (name' + AmountBytes(n'))
    requires EndsInComma(x) && EndsInComma(x')
    requires COMMA !in name && COMMA !in name'
    ensures x == x' && name == name' && n == n'
  {
    Associate(x, name, AmountBytes(n));
    Associate(x', name', AmountBytes(n'));
    SplitEqualRight(x + name, AmountBytes(n), x' + name', AmountBytes(n'));
    AmountInjective(n, n');
    TailEqual(x, name, x', name');
  }

  lemma PostingForm(name: Bytes, n: u64)
    ensures name + [COLON] + LE8(n) + [COMMA] == name + AmountBytes(n)
  {
    Associate(name, [COLON], LE8(n));
    Associate(name, [COLON] + LE8(n), [COMMA]);
  }

  lemma LastPostingEqual(x: Bytes, p: Posting, y: Bytes, q: Posting)
    requires x + PostingBytes(p) == y + PostingBytes(q)
    requires EndsInComma(x) && EndsInComma(y)
    ensures x == y && p == q
  {
    NameHasNoComma(p.account);
    NameHasNoComma(q.account);
    PostingForm(AccountName(p.account), p.amountSats);
    PostingForm(AccountName(q.account), q.amountSats);
    NamedAmountEqual(x, AccountName(p.account), p.amountSats, y, AccountName(q.account), q.amountSats);
    NameInjective(p.account, q.account);
  }

  lemma {:induction false} PostingsEmpty(ps: seq<Posting>)
    ensures PostingsBytes(ps) == [] <==> ps == []
  {
  }

  lemma {:induction false} LastEqual(ps: seq<Posting>, qs: seq<Posting>)
    requires PostingsBytes(ps) == PostingsBytes(qs)
    requires |ps| > 0 && |qs| > 0
    ensures PostingsBytes(ps[..|ps| - 1]) == PostingsBytes(qs[..|qs| - 1]) && ps[|ps| - 1] == qs[|qs| - 1]
  {
    var ps', qs' := ps[..|ps| - 1], qs[..|qs| - 1];
    PostingsEndInComma(ps');
    PostingsEndInComma(qs');
    LastPostingEqual(PostingsBytes(ps'), ps[|ps| - 1], PostingsBytes(qs'), qs[|qs| - 1]);
  }

  lemma SnocEqual<T>(a: seq<T>, b: seq<T>)
    requires |a| > 0 && |b| > 0
    requires a[..|a| - 1] == b[..|b| - 1] && a[|a| - 1] == b[|b| - 1]
    ensures a == b
  {
    assert a == a[..|a| - 1] + [a[|a| - 1]] && b == b[..|b| - 1] + [b[|b| - 1]];
  }

  /** The bytes fed to `hash_postings` decode to one list of postings. */
  lemma {:induction false} PostingsInjective(ps: seq<Posting>, qs: seq<Posting>)
    requires PostingsBytes(ps) == PostingsBytes(qs)
    ensures ps == qs
    decreases |ps|
  {
    if |ps| > 0 && |qs| > 0 {
      LastEqual(ps, qs);
      PostingsInjective(ps[..|ps| - 1], qs[..|qs| - 1]);
      SnocEqual(ps, qs);
    } else {
      PostingsEmpty(ps);
      PostingsEmpty(qs);
    }
  }

  // ---------------------------------------------------------------- the head of the hashed string

  /** What separates the id from the description. */
  function Mark(n: nat): (r: Bytes)
    ensures |r| >= 3 && r[0] == BAR && r[|r| - 1] == BAR
    ensures forall i :: 0 < i < |r| - 1 ==> r[i] != BAR
  {
    [BAR] + Decimal(n) + [BAR]
  }

  predicate OccursAt(w: Bytes, p: nat, mark: Bytes) {
    p + |mark| <= |w| && w[p..p + |mark|] == mark
  }

  lemma OccursStart(w: Bytes, p: nat, mark: Bytes)
    requires |mark| > 0
    ensures OccursAt(w, p, mark) ==> p < |w| && w[p] == mark[0]
  {
    if OccursAt(w, p, mark) {
      assert w[p..p + |mark|][0] == w[p];
    }
  }

  /** The id followed by its own bar already holds a bar, the sequence number and a bar. */
  predicate Ambiguous(id: Bytes, n: nat) {
    exists p: nat :: p <= |id| && OccursAt(id + [BAR], p, Mark(n))
  }

  lemma NoBarUnambiguous(id: Bytes, n: nat)
    requires BAR !in id
    ensures !Ambiguous(id, n)
  {
    var w, mark := id + [BAR], Mark(n);
    forall p: nat | p <= |id| ensures !OccursAt(w, p, mark) {
      if p < |id| {
        assert w[p] == id[p] && id[p] in id;
        OccursStart(w, p, mark);
      }
    }
  }

  lemma {:induction false} HeadForm(id: Bytes, n: nat, d: Bytes)
    ensures EntryHead(id, n, d) == id + (Mark(n) + d)
    ensures EntryHead(id, n, d) == (id + [BAR]) + (Decimal(n) + [BAR] + d)
  {
    Associate(id, [BAR], Decimal(n));
    Associate(id, [BAR] + Decimal(n), [BAR]);
    Associate(id, Mark(n), d);
    Associate(id + [BAR], Decimal(n), [BAR]);
    Associate(id + [BAR], Decimal(n) + [BAR], d);
  }

  /** The mark cannot straddle a bar that is neither its first nor its last. */
  lemma MarkEndsBefore(w: Bytes, p: nat, n: nat, k: nat)
    requires OccursAt(w, p, Mark(n))
    requires p < k < |w| && w[k] == BAR
    ensures p + |Mark(n)| <= k + 1
  {
    var mark := Mark(n);
    forall q | p < q < p + |mark| - 1 ensures w[q] != BAR {
      assert w[q] == w[p..p + |mark|][q - p];
    }
  }

  lemma OccursInPrefix(x: Bytes, r: Bytes, p: nat, mark: Bytes)
    requires OccursAt(x + r, p, mark) && p + |mark| <= |x|
    ensures OccursAt(x, p, mark)
  {
    assert (x + r)[p..p + |mark|] == x[p..p + |mark|];
  }

  lemma OccursAfter(x: Bytes, mark: Bytes, r: Bytes)
    ensures OccursAt(x + (mark + r), |x|, mark)
  {
    assert (x + (mark + r))[|x|..|x| + |mark|] == mark;
  }

  /** A shorter id with the same head shows up inside the longer one. */
  lemma ShorterIdOccurs(id: Bytes, d: Bytes, id': Bytes, d': Bytes, n: nat)
    requires EntryHead(id, n, d) == EntryHead(id', n, d')
    requires |id'| < |id|
    ensures OccursAt(id + [BAR], |id'|, Mark(n))
  {
    var w := EntryHead(id, n, d);
    HeadForm(id, n, d);
    HeadForm(id', n, d');
    OccursAfter(id', Mark(n), d');
    assert w[|id|] == BAR;
    MarkEndsBefore(w, |id'|, n, |id|);
    OccursInPrefix(id + [BAR], Decimal(n) + [BAR] + d, |id'|, Mark(n));
  }

  /** The other reading of an ambiguous id: cut it at the imitation, and let the rest open the
      description. */
  function CutDescription(id: Bytes, d: Bytes, n: nat, p: nat): Bytes
    requires OccursAt(id + [BAR], p, Mark(n))
  {
    (id + [BAR])[p + |Mark(n)|..] + (Decimal(n) + [BAR] + d)
  }

  lemma CutHead(id: Bytes, d: Bytes, n: nat, p: nat)
    requires p <= |id| && OccursAt(id + [BAR], p, Mark(n))
    ensures p < |id|
    ensures EntryHead(id[..p], n, CutDescription(id, d, n, p)) == EntryHead(id, n, d)
  {
    var w, mark, tail := id + [BAR], Mark(n), Decimal(n) + [BAR] + d;
    var rest := w[p + |mark|..];
    assert id[..p] == w[..p];
    assert w == w[..p] + w[p..p + |mark|] + w[p + |mark|..];
    HeadForm(id, n, d);
    HeadForm(id[..p], n, CutDescription(id, d, n, p));
    Associate(id[..p], mark, rest);
    Associate(id[..p] + mark, rest, tail);
    Associate(id[..p], mark, rest + tail);
  }

  /** Exactly the ambiguous ids can be read as a shorter id with another description. */
  lemma HeadAmbiguity(id: Bytes, d: Bytes, n: nat)
    ensures Ambiguous(id, n) <==>
      exists id': Bytes, d': Bytes :: |id'| < |id| && EntryHead(id', n, d') == EntryHead(id, n, d)
  {
    if Ambiguous(id, n) {
      var p: nat :| p <= |id| && OccursAt(id + [BAR], p, Mark(n));
      CutHead(id, d, n, p);
    }
    if id': Bytes, d': Bytes :| |id'| < |id| && EntryHead(id', n, d') == EntryHead(id, n, d) {
      ShorterIdOccurs(id, d, id', d', n);
    }
  }

  /** Two unambiguous ids with one head are one id with one description. */
  lemma HeadUnique(id: Bytes, d: Bytes, id': Bytes, d': Bytes, n: nat)
    requires !Ambiguous(id, n) && !Ambiguous(id', n)
    requires EntryHead(id, n, d) == EntryHead(id', n, d')
    ensures id == id' && d == d'
  {
    if |id'| < |id| {
      ShorterIdOccurs(id, d, id', d', n);
    }
    if |id| < |id'| {
      ShorterIdOccurs(id', d', id, d, n);
    }
    HeadForm(id, n, d);
    HeadForm(id', n, d');
    SplitEqual(id, Mark(n) + d, id', Mark(n) + d');
    SplitEqual(Mark(n), d, Mark(n), d');
  }

  // ---------------------------------------------------------------- one entry

  predicate BarFree(prev: Option<Bytes>) {
    prev.Some? ==> BAR !in prev.value
  }

  /** The hashed string parses uniquely from the right, down to the caller's part. */
  lemma MaterialParts(sha: Bytes -> Digest, e: JournalEntry, prev: Option<Bytes>, f: JournalEntry, prev': Option<Bytes>)
    requires EntryMaterial(sha, e, prev) == EntryMaterial(sha, f, prev')
    requires BarFree(prev) && BarFree(prev')
    ensures EntryHead(e.entryId, e.sequence, e.description) == EntryHead(f.entryId, f.sequence, f.description)
    ensures HashPostings(sha, e.debits) == HashPostings(sha, f.debits)
    ensures HashPostings(sha, e.credits) == HashPostings(sha, f.credits)
    ensures PreviousText(prev) == PreviousText(prev')
    ensures e.timestampBucket == f.timestampBucket
  {
    var e1 := EntryHead(e.entryId, e.sequence, e.description);
    var f1 := EntryHead(f.entryId, f.sequence, f.description);
    var e2, f2 := e1 + [BAR] + HashPostings(sha, e.debits), f1 + [BAR] + HashPostings(sha, f.debits);
    var e3, f3 := e2 + [BAR] + HashPostings(sha, e.credits), f2 + [BAR] + HashPostings(sha, f.credits);
    var e4, f4 := e3 + [BAR] + PreviousText(prev), f3 + [BAR] + PreviousText(prev');
    DelimitedEqualRight(e4, Decimal(e.timestampBucket), f4, Decimal(f.timestampBucket), BAR);
    DecimalInjective(e.timestampBucket, f.timestampBucket);
    DelimitedEqualRight(e3, PreviousText(prev), f3, PreviousText(prev'), BAR);
    DelimitedEqualRight(e2, HashPostings(sha, e.credits), f2, HashPostings(sha, f.credits), BAR);
    DelimitedEqualRight(e1, HashPostings(sha, e.debits), f1, HashPostings(sha, f.debits), BAR);
  }

  /** The byte strings hashed for one entry. */
  function EntryHashed(sha: Bytes -> Digest, e: JournalEntry, prev: Option<Bytes>): set<Bytes> {
    {EntryMaterial(sha, e, prev), PostingsBytes(e.debits), PostingsBytes(e.credits)}
  }

  /** Everything an entry says, apart from its hashes. */
  predicate SameEntry(e: JournalEntry, f: JournalEntry) {
    && e.entryId == f.entryId && e.description == f.description
    && e.debits == f.debits && e.credits == f.credits && e.timestampBucket == f.timestampBucket
  }

  /** An entry hash pins the entry and the hash before it. */
  lemma EntryBound(sha: Bytes -> Digest, e: JournalEntry, prev: Option<Bytes>, f: JournalEntry, prev': Option<Bytes>)
    requires ComputeEntryHash(sha, e, prev) == ComputeEntryHash(sha, f, prev')
    requires CollisionFree(sha, EntryHashed(sha, e, prev), EntryHashed(sha, f, prev'))
    requires e.sequence == f.sequence
    requires !Ambiguous(e.entryId, e.sequence) && !Ambiguous(f.entryId, f.sequence)
    requires BarFree(prev) && BarFree(prev')
    ensures SameEntry(e, f) && PreviousText(prev) == PreviousText(prev')
  {
    HexInjective(sha(EntryMaterial(sha, e, prev)), sha(EntryMaterial(sha, f, prev')));
    MaterialParts(sha, e, prev, f, prev');
    HexInjective(sha(PostingsBytes(e.debits)), sha(PostingsBytes(f.debits)));
    HexInjective(sha(PostingsBytes(e.credits)), sha(PostingsBytes(f.credits)));
    PostingsInjective(e.debits, f.debits);
    PostingsInjective(e.credits, f.credits);
    HeadUnique(e.entryId, e.description, f.entryId, f.description, e.sequence);
  }

  // ---------------------------------------------------------------- whole journals

  /** Every entry is numbered by its place, points at the entry before it and carries its own hash. */
  predicate Chained(sha: Bytes -> Digest, entries: seq<JournalEntry>) {
    forall k :: 0 <= k < |entries| ==> Link(sha, entries, k)
  }

  predicate Link(sha: Bytes -> Digest, entries: seq<JournalEntry>, k: nat)
    requires k < |entries|
  {
    && entries[k].sequence == k % U64_SIZE
    && entries[k].previousEntryHash == HeadHash(entries[..k])
    && entries[k].entryHash == ComputeEntryHash(sha, entries[k], HeadHash(entries[..k]))
  }

  lemma ChainedSnoc(sha: Bytes -> Digest, entries: seq<JournalEntry>, e: JournalEntry)
    requires Chained(sha, entries)
    requires e.sequence == ExpectedSequence(entries) && e.previousEntryHash == HeadHash(entries)
    requires e.entryHash == ComputeEntryHash(sha, e, HeadHash(entries))
    ensures Chained(sha, entries + [e])
  {
    var more := entries + [e];
    forall k | 0 <= k < |more| ensures Link(sha, more, k) {
      assert more[..k] == entries[..k];
      assert k < |entries| ==> Link(sha, entries, k);
      assert entries[..|entries|] == entries;
    }
  }

  lemma ChainedPrefix(sha: Bytes -> Digest, entries: seq<JournalEntry>)
    requires Chained(sha, entries) && |entries| > 0
    ensures Chained(sha, entries[..|entries| - 1])
  {
    var fewer := entries[..|entries| - 1];
    forall k | 0 <= k < |fewer| ensures Link(sha, fewer, k) {
      assert Link(sha, entries, k);
      assert fewer[..k] == entries[..k];
    }
  }

  /** Every journal `post_entry` can build is chained, whatever was refused in between. */
  lemma {:induction false} ReachableChained(sha: Bytes -> Digest, posts: seq<JournalEntry>)
    ensures Chained(sha, RunPosts(sha, posts).entries)
  {
    if |posts| > 0 {
      var n := |posts| - 1;
      var s, e := RunPosts(sha, posts[..n]), posts[n];
      ReachableChained(sha, posts[..n]);
      AcceptedPosts(sha, s, e);
      if e.entryId !in s.receipts && Post(sha, s, e).1.Posted? {
        ChainedSnoc(sha, s.entries, e);
      }
    }
  }

  predicate Unambiguous(entries: seq<JournalEntry>) {
    forall k :: 0 <= k < |entries| ==> !Ambiguous(entries[k].entryId, entries[k].sequence)
  }

  /** Every byte string hashed to check a journal. */
  function JournalHashed(sha: Bytes -> Digest, entries: seq<JournalEntry>): set<Bytes> {
    if |entries| == 0 then {}
    else
      var n := |entries| - 1;
      JournalHashed(sha, entries[..n]) + EntryHashed(sha, entries[n], HeadHash(entries[..n]))
  }

  lemma HeadBarFree(sha: Bytes -> Digest, entries: seq<JournalEntry>)
    requires Chained(sha, entries)
    ensures BarFree(HeadHash(entries))
  {
    if |entries| > 0 {
      assert Link(sha, entries, |entries| - 1);
    }
  }

  /** The last entries of two chains with one head are the same, and so are the heads before them. */
  lemma LastBound(sha: Bytes -> Digest, a: seq<JournalEntry>, b: seq<JournalEntry>)
    requires Chained(sha, a) && Chained(sha, b)
    requires Unambiguous(a) && Unambiguous(b)
    requires |a| == |b| > 0 && HeadHash(a) == HeadHash(b)
    requires var n := |a| - 1;
      CollisionFree(sha, EntryHashed(sha, a[n], HeadHash(a[..n])), EntryHashed(sha, b[n], HeadHash(b[..n])))
    ensures a[|a| - 1] == b[|a| - 1] && HeadHash(a[..|a| - 1]) == HeadHash(b[..|a| - 1])
  {
    var n := |a| - 1;
    ChainedPrefix(sha, a);
    ChainedPrefix(sha, b);
    HeadBarFree(sha, a[..n]);
    HeadBarFree(sha, b[..n]);
    assert Link(sha, a, n) && Link(sha, b, n);
    EntryBound(sha, a[n], HeadHash(a[..n]), b[n], HeadHash(b[..n]));
  }

  lemma {:induction false} HashedParts(sha: Bytes -> Digest, a: seq<JournalEntry>)
    requires |a| > 0
    ensures JournalHashed(sha, a[..|a| - 1]) <= JournalHashed(sha, a)
    ensures EntryHashed(sha, a[|a| - 1], HeadHash(a[..|a| - 1])) <= JournalHashed(sha, a)
  {
  }

  predicate Bound(sha: Bytes -> Digest, a: seq<JournalEntry>, b: seq<JournalEntry>) {
    && Chained(sha, a) && Chained(sha, b)
    && Unambiguous(a) && Unambiguous(b)
    && |a| == |b| && HeadHash(a) == HeadHash(b)
    && CollisionFree(sha, JournalHashed(sha, a), JournalHashed(sha, b))
  }

  lemma BoundPrefix(sha: Bytes -> Digest, a: seq<JournalEntry>, b: seq<JournalEntry>)
    requires Bound(sha, a, b) && |a| > 0
    ensures Bound(sha, a[..|a| - 1], b[..|a| - 1])
    ensures a[|a| - 1] == b[|a| - 1]
  {
    var n := |a| - 1;
    HashedParts(sha, a);
    HashedParts(sha, b);
    LastBound(sha, a, b);
    ChainedPrefix(sha, a);
    ChainedPrefix(sha, b);
    CollisionFreeParts(sha, JournalHashed(sha, a), JournalHashed(sha, b), JournalHashed(sha, a[..n]), JournalHashed(sha, b[..n]));
  }

  lemma {:induction false} ChainBound(sha: Bytes -> Digest, a: seq<JournalEntry>, b: seq<JournalEntry>)
    requires Bound(sha, a, b)
    ensures a == b
    decreases |a|
  {
    if |a| > 0 {
      BoundPrefix(sha, a, b);
      ChainBound(sha, a[..|a| - 1], b[..|a| - 1]);
      SnocEqual(a, b);
    }
  }

  /** Two reachable journals of one length with one head hash are the same entry by entry, or two
      different byte strings hashed along the way share a digest. */
  lemma {:induction false} TamperEvidence(sha: Bytes -> Digest, posts: seq<JournalEntry>, posts': seq<JournalEntry>)
    ensures var a, b := RunPosts(sha, posts).entries, RunPosts(sha, posts').entries;
      |a| == |b| && HeadHash(a) == HeadHash(b) && Unambiguous(a) && Unambiguous(b) ==>
        a == b || Collide(sha, JournalHashed(sha, a), JournalHashed(sha, b))
  {
    var a, b := RunPosts(sha, posts).entries, RunPosts(sha, posts').entries;
    ReachableChained(sha, posts);
    ReachableChained(sha, posts');
    if |a| == |b| && HeadHash(a) == HeadHash(b) && Unambiguous(a) && Unambiguous(b) &&
       !Collide(sha, JournalHashed(sha, a), JournalHashed(sha, b)) {
      ChainBound(sha, a, b);
    }
  }

  // ---------------------------------------------------------------- the trial balance

  lemma BalanceTextInjective(a: AccountBalance, b: AccountBalance)
    requires BalanceText(a) == BalanceText(b)
    ensures a == b
  {
    DelimitedEqualRight(Decimal(a.totalDebits) + [BAR] + Decimal(a.totalCredits), SignedDecimal(a.net),
                        Decimal(b.totalDebits) + [BAR] + Decimal(b.totalCredits), SignedDecimal(b.net), BAR);
    SignedDecimalInjective(a.net, b.net);
    DelimitedEqual(Decimal(a.totalDebits), Decimal(a.totalCredits), Decimal(b.totalDebits), Decimal(b.totalCredits), BAR);
    DecimalInjective(a.totalDebits, b.totalDebits);
    DecimalInjective(a.totalCredits, b.totalCredits);
  }

  lemma {:induction false} TrialBytesBind(b: Balances, c: Balances, accounts: seq<StandardAccount>)
    requires TrialBytes(b, accounts) == TrialBytes(c, accounts)
    ensures forall a :: a in accounts ==> b[a] == c[a]
  {
    if |accounts| > 0 {
      var a, rest := accounts[0], accounts[1..];
      var name := AccountName(a) + [BAR];
      var tb, tc := BalanceText(b[a]), BalanceText(c[a]);
      Associate(name + tb, [NEWLINE], TrialBytes(b, rest));
      Associate(name, tb, [NEWLINE] + TrialBytes(b, rest));
      Associate(name + tc, [NEWLINE], TrialBytes(c, rest));
      Associate(name, tc, [NEWLINE] + TrialBytes(c, rest));
      LineSplit(name, tb, TrialBytes(b, rest), tc, TrialBytes(c, rest));
      BalanceTextInjective(b[a], c[a]);
      TrialBytesBind(b, c, rest);
    }
  }

  lemma LineSplit(name: Bytes, t: Bytes, r: Bytes, t': Bytes, r': Bytes)
    requires name + (t + ([NEWLINE] + r)) == name + (t' + ([NEWLINE] + r'))
    requires NEWLINE !in t && NEWLINE !in t'
    ensures t == t' && r == r'
  {
    SplitEqual(name, t + ([NEWLINE] + r), name, t' + ([NEWLINE] + r'));
    Associate(t, [NEWLINE], r);
    Associate(t', [NEWLINE], r');
    DelimitedEqual(t, r, t', r', NEWLINE);
  }

  lemma SameBalances(b: Balances, c: Balances, accounts: seq<StandardAccount>)
    requires Walks(accounts) && forall a :: a in accounts ==> b[a] == c[a]
    ensures b == c
  {
    forall a ensures b[a] == c[a] {
      assert a in accounts;
    }
  }

  /** A trial-balance hash pins every total and net of the chart, or the two lists of lines collide. */
  lemma {:induction false} TrialBalanceBinds(sha: Bytes -> Digest, b: Balances, c: Balances)
    requires TrialBalanceHash(sha, b) == TrialBalanceHash(sha, c)
    ensures b == c || Collide(sha, {TrialBytes(b, ALL_ACCOUNTS)}, {TrialBytes(c, ALL_ACCOUNTS)})
  {
    var x, y := TrialBytes(b, ALL_ACCOUNTS), TrialBytes(c, ALL_ACCOUNTS);
    HexInjective(sha(x), sha(y));
    if x == y {
      TrialBytesBind(b, c, ALL_ACCOUNTS);
      AllAccountsChart();
      SameBalances(b, c, ALL_ACCOUNTS);
    }
  }

  // ---------------------------------------------------------------- what an ambiguous id allows

  /** The same entry with its id cut at the imitation. */
  function Twin(e: JournalEntry, p: nat): JournalEntry
    requires p <= |e.entryId| && OccursAt(e.entryId + [BAR], p, Mark(e.sequence))
    requires |CutDescription(e.entryId, e.description, e.sequence, p)| < U64_SIZE
  {
    e.(entryId := e.entryId[..p], description := CutDescription(e.entryId, e.description, e.sequence, p))
  }

  /** An entry whose id is ambiguous can be replaced by one with another id and description: it is
      accepted in the same place and leaves the same head hash. */
  lemma AmbiguousTwin(sha: Bytes -> Digest, s: JournalState, e: JournalEntry, p: nat)
    requires p <= |e.entryId| && OccursAt(e.entryId + [BAR], p, Mark(e.sequence))
    requires |CutDescription(e.entryId, e.description, e.sequence, p)| < U64_SIZE
    requires e.entryId !in s.receipts && Post(sha, s, e).1.Posted?
    requires Twin(e, p).entryId !in s.receipts
    ensures Twin(e, p).entryId != e.entryId
    ensures Post(sha, s, Twin(e, p)).1.Posted?
    ensures Post(sha, s, Twin(e, p)).0.entries == s.entries + [Twin(e, p)]
    ensures HeadHash(Post(sha, s, Twin(e, p)).0.entries) == HeadHash(Post(sha, s, e).0.entries)
  {
    CutHead(e.entryId, e.description, e.sequence, p);
    assert EntryMaterial(sha, Twin(e, p), HeadHash(s.entries)) == EntryMaterial(sha, e, HeadHash(s.entries));
  }

  /** The first entry of a journal with id `a|0` and description `x` has the hashed string of the one
      with id `a` and description `0|x`. */
  lemma ConfusedHeads()
    ensures Ambiguous(Ascii("a|0"), 0)
    ensures EntryHead(Ascii("a|0"), 0, Ascii("x")) == EntryHead(Ascii("a"), 0, Ascii("0|x"))
  {
    assert Decimal(0) == [48];
    assert Ascii("a|0") == [97, BAR, 48] && Ascii("a") == [97] && Ascii("x") == [120] && Ascii("0|x") == [48, BAR, 120];
    assert OccursAt(Ascii("a|0") + [BAR], 1, Mark(0));
  }

  /** The first entry of a journal: one satoshi deposited for a user. */
  function Deposit(sha: Bytes -> Digest, id: Text, description: Text): JournalEntry {
    var draft := JournalEntry(id, 0, description, [Posting(AssetCustodiedBtc, 1)], [Posting(LiabilityUserBalances, 1)], 0, [], None);
    draft.(entryHash := ComputeEntryHash(sha, draft, None))
  }

  lemma DepositBalances(e: JournalEntry)
    requires e.debits == [Posting(AssetCustodiedBtc, 1)] && e.credits == [Posting(LiabilityUserBalances, 1)]
    ensures var (b, o) := PostBoth(INITIAL_BALANCES, e.debits, e.credits); o.None? && SignsOk(b)
  {
    var (b, o) := PostOne(INITIAL_BALANCES, e.debits[0], DebitSide);
    assert PostAll(INITIAL_BALANCES, e.debits, DebitSide) == (b, None) by { assert e.debits[1..] == []; }
    var (b', o') := PostOne(b, e.credits[0], CreditSide);
    assert PostAll(b, e.credits, CreditSide) == (b', None) by { assert e.credits[1..] == []; }
  }

  lemma DepositAccepted(sha: Bytes -> Digest, id: Text, description: Text)
    ensures var e := Deposit(sha, id, description);
      Post(sha, EMPTY_JOURNAL, e).1.Posted? && Post(sha, EMPTY_JOURNAL, e).0.entries == [e]
  {
    var e := Deposit(sha, id, description);
    OneAmount(e.debits);
    OneAmount(e.credits);
    assert EntryMaterial(sha, e, None) == EntryMaterial(sha, e.(entryHash := []), None);
    assert CheckEntry(sha, EMPTY_JOURNAL, e).None?;
    DepositBalances(e);
  }

  /** Both readings are accepted as the first entry of a journal, are each other's twin, and leave one
      head hash. */
  lemma ConfusedEntries(sha: Bytes -> Digest)
    ensures var e, f := Deposit(sha, Ascii("a|0"), Ascii("x")), Deposit(sha, Ascii("a"), Ascii("0|x"));
      && OccursAt(e.entryId + [BAR], 1, Mark(0)) && f == Twin(e, 1) && e.entryId != f.entryId
      && Post(sha, EMPTY_JOURNAL, e).1.Posted? && Post(sha, EMPTY_JOURNAL, f).1.Posted?
      && HeadHash(Post(sha, EMPTY_JOURNAL, e).0.entries) == HeadHash(Post(sha, EMPTY_JOURNAL, f).0.entries)
  {
    var e, f := Deposit(sha, Ascii("a|0"), Ascii("x")), Deposit(sha, Ascii("a"), Ascii("0|x"));
    DepositAccepted(sha, e.entryId, e.description);
    DepositAccepted(sha, f.entryId, f.description);
    ConfusedTwin(e, f);
    AmbiguousTwin(sha, EMPTY_JOURNAL, e, 1);
    assert EntryMaterial(sha, f, None) == EntryMaterial(sha, e, None);
  }

  lemma ConfusedTwin(e: JournalEntry, f: JournalEntry)
    requires e.entryId == Ascii("a|0") && e.description == Ascii("x") && e.sequence == 0
    requires f.entryId == Ascii("a") && f.description == Ascii("0|x") && f.sequence == 0
    ensures OccursAt(e.entryId + [BAR], 1, Mark(0))
    ensures CutDescription(e.entryId, e.description, 0, 1) == f.description && e.entryId[..1] == f.entryId
    ensures EntryHead(e.entryId, 0, e.description) == EntryHead(f.entryId, 0, f.description)
  {
    assert Decimal(0) == [48];
    assert e.entryId == [97, BAR, 48] && f.entryId == [97] && e.description == [120] && f.description == [48, BAR, 120];
    assert Mark(0) == [BAR, 48, BAR];
    assert e.entryId + [BAR] == [97, BAR, 48, BAR];
    CutHead(e.entryId, e.description, 0, 1);
  }
}
