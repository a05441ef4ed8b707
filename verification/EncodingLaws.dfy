/** Where each field sits in the bytes that are hashed, and which numbers stand for which states. */
module EncodingLaws {
  import opened Binary
  import opened LedgerTypes
  import opened Accounts
  import opened Chain
  import opened Ledger
  import opened StateRoot
  import opened RootBinding

  /** Eight bytes that spell a number. */
  predicate Spells8(b: Bytes, at: nat, n: u64) {
    at + 8 <= |b| && FromLittleEndian(b[at..at + 8]) == n
  }

  lemma LE8Spells(n: u64)
    ensures FromLittleEndian(LE8(n)) == n
  {
    Pow256Values();
    LittleEndianValue(n, 8);
  }

  /** Fixed-width numbers in a row are found one after the other. */
  lemma SpelledAt(front: Bytes, n: u64, rest: Bytes, b: Bytes)
    requires b == front + (LE8(n) + rest)
    ensures Spells8(b, |front|, n) && b == (front + LE8(n)) + rest && |front + LE8(n)| == |front| + 8
  {
    LE8Spells(n);
    Associate(front, LE8(n), rest);
    assert b[|front|..|front| + 8] == LE8(n);
  }

  /** An account: the tag, six numbers and the id. */
  lemma AccountLayout(a: AccountState)
    ensures var b := AccountBytes(a);
      && |b| == 61 + |a.accountId|
      && b[..12] == Ascii("KROOTv1:acct") && b[12] == COLON
      && Spells8(b, 13, a.version) && Spells8(b, 21, a.availableSats) && Spells8(b, 29, a.reservedSats)
      && Spells8(b, 37, a.pendingIncomingSats) && Spells8(b, 45, a.pendingOutgoingSats) && Spells8(b, 53, a.lastCommittedSequence)
      && b[61..] == a.accountId
  {
    var b := AccountBytes(a);
    var tag := Ascii("KROOTv1:acct");
    var f0 := tag + [COLON];
    var r6 := a.accountId;
    var r5 := LE8(a.lastCommittedSequence) + r6;
    var r4 := LE8(a.pendingOutgoingSats) + r5;
    var r3 := LE8(a.pendingIncomingSats) + r4;
    var r2 := LE8(a.reservedSats) + r3;
    var r1 := LE8(a.availableSats) + r2;
    Associate(tag, [COLON], LE8(a.version) + r1);
    SpelledAt(f0, a.version, r1, b);
    var f1 := f0 + LE8(a.version);
    SpelledAt(f1, a.availableSats, r2, b);
    var f2 := f1 + LE8(a.availableSats);
    SpelledAt(f2, a.reservedSats, r3, b);
    var f3 := f2 + LE8(a.reservedSats);
    SpelledAt(f3, a.pendingIncomingSats, r4, b);
    var f4 := f3 + LE8(a.pendingIncomingSats);
    SpelledAt(f4, a.pendingOutgoingSats, r5, b);
    var f5 := f4 + LE8(a.pendingOutgoingSats);
    SpelledAt(f5, a.lastCommittedSequence, r6, b);
    assert b == (f5 + LE8(a.lastCommittedSequence)) + r6;
    assert b[..12] == tag && b[12] == COLON;
  }

  lemma SomeOptions(u: UtxoEntry)
    ensures |UtxoOptions(u)| > 0
  {
  }

  /** The fixed head of an output: its state, value, index and detection time. */
  lemma UtxoLayout(u: UtxoEntry)
    ensures var b := UtxoBytes(u);
      && |b| > 21 && b[0] == StateCode(u.state)
      && Spells8(b, 1, u.valueSats) && FromLittleEndian(b[9..13]) == u.outpoint.vout && Spells8(b, 13, u.detectedAtBucket)
  {
    var b := UtxoBytes(u);
    var r3 := UtxoOptions(u);
    var r2 := LE8(u.detectedAtBucket) + r3;
    var code := [StateCode(u.state)];
    SomeOptions(u);
    SpelledAt(code, u.valueSats, LE4(u.outpoint.vout) + r2, b);
    var f := code + LE8(u.valueSats);
    Associate(f, LE4(u.outpoint.vout), r2);
    assert b[9..13] == LE4(u.outpoint.vout);
    Pow256Values();
    LittleEndianValue(u.outpoint.vout, 4);
    SpelledAt(f + LE4(u.outpoint.vout), u.detectedAtBucket, r3, b);
  }

  /** The numbers that stand for states and profiles are fixed. */
  lemma StableCodes()
    ensures StateCode(Seen) == 0 && StateCode(InMempool) == 1 && StateCode(Confirming) == 2 && StateCode(Spendable) == 3
    ensures StateCode(FinalizedByPolicy) == 4 && StateCode(Replaced) == 5 && StateCode(Reorged) == 6 && StateCode(Spent) == 7
    ensures ReservationCode(Prepared) == 0 && ReservationCode(Committed) == 1 && ReservationCode(Consumed) == 2
    ensures ReservationCode(Released) == 3 && ReservationCode(Expired) == 4
    ensures ProfileCode(Single) == 0 && ProfileCode(HaCrash) == 1 && ProfileCode(BftF1) == 2 && ProfileCode(BftF2) == 3
  {
  }

  /** The root starts with the version under its tag. */
  lemma RootLayout(sha: Bytes -> Digest, s: LedgerState)
    ensures var b := RootBytes(sha, s);
      |b| > 24 && b[..15] == Ascii("KROOTv1:version") && b[15] == COLON && Spells8(b, 16, s.version)
  {
    var b := RootBytes(sha, s);
    var tag := Ascii("KROOTv1:version");
    var rest := b[24..];
    assert b == Section("KROOTv1:version", LE8(s.version)) + rest;
    Associate(tag, [COLON], LE8(s.version));
    Associate(tag + [COLON], LE8(s.version), rest);
    SpelledAt(tag + [COLON], s.version, rest, b);
    assert b[..15] == tag && b[15] == COLON;
  }
}
