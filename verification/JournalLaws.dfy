/** Which entries `post_entry` takes, and what it does with them, account by account. */
module JournalLaws {
  import opened Binary
  import opened Sequences
  import opened JournalEntries
  import opened Journal
  import opened JournalRuns

  /** The string an entry's hash is taken of, part by part. */
  function Material(sha: Bytes -> Digest, e: JournalEntry, previous: Bytes): Bytes {
    e.entryId + [BAR] + Decimal(e.sequence) + [BAR] + e.description
    + [BAR] + Hex(sha(PostingsBytes(e.debits))) + [BAR] + Hex(sha(PostingsBytes(e.credits)))
    + [BAR] + previous + [BAR] + Decimal(e.timestampBucket)
  }

  /** The entry is numbered by the length of the journal, points at its last entry, and carries its hash. */
  predicate NextInChain(sha: Bytes -> Digest, entries: seq<JournalEntry>, e: JournalEntry) {
    && e.sequence == |entries| % U64_SIZE
    && (|entries| == 0 ==> e.previousEntryHash == None && e.entryHash == Hex(sha(Material(sha, e, []))))
    && (|entries| > 0 ==>
          var last := entries[|entries| - 1].entryHash;
          e.previousEntryHash == Some(last) && e.entryHash == Hex(sha(Material(sha, e, last))))
  }

  /** The net an account would be left with. */
  function Left(b: Balances, e: JournalEntry, a: StandardAccount): int {
    b[a].totalDebits - b[a].totalCredits + PostedTo(e.debits, a) - PostedTo(e.credits, a)
  }

  /** Assets and expenses end in debit or at zero, everything else in credit or at zero. */
  predicate SignsFit(b: Balances, e: JournalEntry) {
    && Left(b, e, AssetCustodiedBtc) >= 0 && Left(b, e, AssetColdBtc) >= 0 && Left(b, e, AssetHotBtc) >= 0
    && Left(b, e, ExpenseMinerFees) >= 0
    && Left(b, e, LiabilityUserBalances) <= 0 && Left(b, e, LiabilityPendingWithdrawals) <= 0
    && Left(b, e, LiabilityInternalReserved) <= 0 && Left(b, e, EquityPlatform) <= 0 && Left(b, e, RevenuePlatformFees) <= 0
  }

  predicate Balanced(e: JournalEntry) {
    |e.debits| > 0 && |e.credits| > 0 && Sum(AmountOf, e.debits) == Sum(AmountOf, e.credits)
  }

  lemma MaterialIs(sha: Bytes -> Digest, e: JournalEntry, prev: Option<Bytes>)
    ensures ComputeEntryHash(sha, e, prev) == Hex(sha(Material(sha, e, if prev.Some? then prev.value else [])))
  {
  }

  lemma ChecksExact(sha: Bytes -> Digest, s: JournalState, e: JournalEntry)
    ensures CheckEntry(sha, s, e).None? <==> Balanced(e) && NextInChain(sha, s.entries, e)
  {
    MaterialIs(sha, e, HeadHash(s.entries));
  }

  lemma SignsExact(b: Balances, e: JournalEntry, n: nat)
    requires Sound(b, n)
    ensures Overdraws(b, e) <==> !SignsFit(b, e)
  {
    forall a ensures NetAfter(b, e, a) == Left(b, e, a) {
      assert SoundBalance(b[a], n);
    }
    OverdrawnSomewhere(b, e);
  }

  lemma OverdrawnSomewhere(b: Balances, e: JournalEntry)
    requires forall a: StandardAccount :: NetAfter(b, e, a) == Left(b, e, a)
    ensures Overdraws(b, e) <==> !SignsFit(b, e)
  {
    if !Overdraws(b, e) {
      forall a: StandardAccount ensures SignFits(a, Left(b, e, a)) {
        assert a in b && NetAfter(b, e, a) == Left(b, e, a);
      }
    } else {
      var a :| a in b && !SignFits(a, NetAfter(b, e, a));
      assert !SignFits(a, Left(b, e, a));
    }
  }

  /** Within the posting limit, an entry with a new id is posted exactly when both sides are there and
      equal, it is next in the chain, and every account ends with the sign of its kind; if only the
      signs are wrong it is refused for a negative balance. */
  lemma PostExact(sha: Bytes -> Digest, s: JournalState, e: JournalEntry, n: nat)
    requires e.entryId !in s.receipts
    requires Sound(s.balances, n) && n + |e.debits| + |e.credits| <= POSTING_LIMIT
    ensures var r := Post(sha, s, e).1;
      var reaches := Balanced(e) && NextInChain(sha, s.entries, e);
      && (r.Posted? <==> reaches && SignsFit(s.balances, e))
      && (r == Refused(NegativeBalance) <==> reaches && !SignsFit(s.balances, e))
  {
    ChecksExact(sha, s, e);
    PostStep(sha, s, e, n);
    SignsExact(s.balances, e, n);
    if Reaches(sha, s, e) {
      SignsAfter(s.balances, e, Post(sha, s, e).0.balances, n, n + |e.debits| + |e.credits|);
    }
  }

  lemma TotalsAfter(b: Balances, e: JournalEntry, b': Balances, n: nat, m: nat)
    requires Sound(b, n) && Sound(b', m) && Adds(b, e, b')
    ensures forall a: StandardAccount ::
      Grown(b[a], b'[a], PostedTo(e.debits, a), PostedTo(e.credits, a)) && b'[a].net == Left(b, e, a)
  {
    forall a: StandardAccount
      ensures Grown(b[a], b'[a], PostedTo(e.debits, a), PostedTo(e.credits, a)) && b'[a].net == Left(b, e, a)
    {
      assert a in b && SoundBalance(b'[a], m);
      assert Grown(b[a], b'[a], PostedTo(e.debits, a), PostedTo(e.credits, a));
    }
  }

  /** An entry that is balanced and next in the chain adds what it posts to every total, posted or not. */
  lemma PostTotals(sha: Bytes -> Digest, s: JournalState, e: JournalEntry, n: nat)
    requires e.entryId !in s.receipts && Balanced(e) && NextInChain(sha, s.entries, e)
    requires Sound(s.balances, n) && n + |e.debits| + |e.credits| <= POSTING_LIMIT
    ensures var b := Post(sha, s, e).0.balances;
      forall a: StandardAccount ::
        Grown(s.balances[a], b[a], PostedTo(e.debits, a), PostedTo(e.credits, a)) && b[a].net == Left(s.balances, e, a)
  {
    ChecksExact(sha, s, e);
    PostStep(sha, s, e, n);
    TotalsAfter(s.balances, e, Post(sha, s, e).0.balances, n, n + |e.debits| + |e.credits|);
  }

  /** Any other entry changes nothing, and only a posted one is appended, with a receipt. */
  lemma PostRecords(sha: Bytes -> Digest, s: JournalState, e: JournalEntry)
    requires e.entryId !in s.receipts
    ensures var (t, r) := Post(sha, s, e);
      && (!(Balanced(e) && NextInChain(sha, s.entries, e)) ==> t == s)
      && (!r.Posted? ==> t == s.(balances := t.balances))
      && (r.Posted? ==> t == JournalState(s.entries + [e], t.balances, s.receipts[e.entryId := r.receipt]))
      && (r.Posted? ==> r.receipt == JournalReceipt(e.sequence, e.entryHash, e.previousEntryHash, t.balances))
  {
    ChecksExact(sha, s, e);
  }

  /** The same along a run. */
  lemma {:induction false} PostExactAt(sha: Bytes -> Digest, posts: seq<JournalEntry>, i: nat)
    requires Applied(sha, posts) <= POSTING_LIMIT && i < |posts|
    requires Applied(sha, posts[..i]) + |posts[i].debits| + |posts[i].credits| <= POSTING_LIMIT
    ensures var before := RunPosts(sha, posts[..i]);
      posts[i].entryId !in before.receipts ==>
        (ResultAt(sha, posts, i).Posted? <==>
           Balanced(posts[i]) && NextInChain(sha, before.entries, posts[i]) && SignsFit(before.balances, posts[i]))
  {
    AppliedGrows(sha, posts, i);
    RunSound(sha, posts[..i]);
    var before := RunPosts(sha, posts[..i]);
    if posts[i].entryId !in before.receipts {
      PostExact(sha, before, posts[i], Applied(sha, posts[..i]));
    }
  }

  /** The first thing wrong decides the refusal. */
  lemma RefusalOrder(sha: Bytes -> Digest, s: JournalState, e: JournalEntry)
    requires e.entryId !in s.receipts
    ensures var r := Post(sha, s, e).1;
      var debits, credits := Sum(AmountOf, e.debits), Sum(AmountOf, e.credits);
      && (e.debits == [] || e.credits == [] ==> r == Refused(EmptyEntry))
      && (e.debits != [] && e.credits != [] && debits != credits ==>
            debits >= 0 && credits >= 0 && r == Refused(UnbalancedEntry(debits, credits)))
      && (Balanced(e) && e.sequence != |s.entries| % U64_SIZE ==> r == Refused(SequenceGap(|s.entries| % U64_SIZE, e.sequence)))
      && (Balanced(e) && e.sequence == |s.entries| % U64_SIZE && !NextInChain(sha, s.entries, e) ==> r == Refused(InvalidHash))
  {
    SumNonNegative(AmountOf, e.debits);
    SumNonNegative(AmountOf, e.credits);
    MaterialIs(sha, e, HeadHash(s.entries));
  }
}
