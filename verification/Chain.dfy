/** On-chain outputs: their keys, their lifecycle, reorganizations and replacements (chain.rs), and
    the in-memory store that holds them (utxo_store.rs). */
module Chain {
  import opened Binary
  import opened LedgerTypes
  import opened Sequences

  // ---------------------------------------------------------------- outpoints

  /** `OutPoint::to_canonical_string`. */
  function CanonicalKey(op: OutPoint): Bytes {
    op.txid + [COLON] + Decimal(op.vout)
  }

  /** `OutPoint::from_canonical_string`: splits at the FIRST colon. */
  function ParseOutPoint(s: Text): Result<OutPoint> {
    match SplitOnce(s, COLON)
    case None => Err(InvalidUtxoData)
    case Some((txid, vout)) =>
      match ParseUnsigned(vout, U32_SIZE)
      case None => Err(InvalidUtxoData)
      case Some(n) => Ok(OutPoint(txid, n))
  }

  /** Lookups by key and lookups by outpoint agree: the key names exactly one outpoint, even though
      a transaction id may itself contain colons. */
  lemma CanonicalKeyInjective(a: OutPoint, b: OutPoint)
    ensures CanonicalKey(a) == CanonicalKey(b) <==> a == b
  {
    if CanonicalKey(a) == CanonicalKey(b) {
      DelimitedEqualRight(a.txid, Decimal(a.vout), b.txid, Decimal(b.vout), COLON);
      DecimalInjective(a.vout, b.vout);
    }
  }

  /** Reading back a printed outpoint succeeds exactly when the transaction id has no colon. */
  lemma OutPointRoundTrip(op: OutPoint)
    requires |CanonicalKey(op)| < U64_SIZE
    ensures ParseOutPoint(CanonicalKey(op)) == Ok(op) <==> COLON !in op.txid
  {
    var key := CanonicalKey(op);
    assert key[|op.txid|] == COLON;
    var (txid, vout) := SplitOnce(key, COLON).value;
    if COLON !in op.txid {
      DelimitedEqual(txid, vout, op.txid, Decimal(op.vout), COLON);
      ParseDecimal(op.vout, U32_SIZE);
    } else if ParseOutPoint(key).Ok? {
      assert ParseOutPoint(key).value.txid == txid;
      assert COLON !in txid;
    }
  }

  // ---------------------------------------------------------------- entries and their lifecycle

  datatype UtxoEntry = UtxoEntry(
    outpoint: OutPoint,
    valueSats: u64,
    address: Text,
    state: OnchainState,
    blockHeight: Option<u64>,
    detectedAtBucket: u64,
    confirmedAtBucket: Option<u64>,
    reservedBy: Option<Text>,
    reservedAtBucket: Option<u64>,
    spentAtBucket: Option<u64>,
    spentByTxid: Option<Text>)

  function NewSeen(op: OutPoint, value: u64, address: Text, bucket: u64): UtxoEntry {
    UtxoEntry(op, value, address, Seen, None, bucket, None, None, None, None, None)
  }

  function Key(u: UtxoEntry): Bytes {
    CanonicalKey(u.outpoint)
  }

  predicate IsTerminal(s: OnchainState) {
    s == Replaced || s == Spent
  }

  predicate IsReservable(s: OnchainState) {
    s == Spendable || s == FinalizedByPolicy
  }

  /** `UtxoTransitionGate::validate_transition`. */
  predicate TransitionAllowed(current: OnchainState, target: OnchainState) {
    match (current, target)
    case (Seen, InMempool) => true
    case (InMempool, Seen) => true
    case (Seen, Replaced) => true
    case (InMempool, Confirming) => true
    case (InMempool, Replaced) => true
    case (Confirming, Spendable) => true
    case (Confirming, Reorged) => true
    case (Spendable, FinalizedByPolicy) => true
    case (Spendable, Spent) => true
    case (Reorged, Seen) => true
    case _ => false
  }

  predicate UniqueOutpoints(utxos: seq<UtxoEntry>) {
    forall i, j :: 0 <= i < j < |utxos| ==> utxos[i].outpoint != utxos[j].outpoint
  }

  /** The first entry with the given outpoint. */
  function FindUtxo(utxos: seq<UtxoEntry>, op: OutPoint): (r: Option<nat>)
    ensures r.Some? ==> r.value < |utxos| && utxos[r.value].outpoint == op
    ensures r.Some? ==> forall k :: 0 <= k < r.value ==> utxos[k].outpoint != op
    ensures r.None? <==> forall k :: 0 <= k < |utxos| ==> utxos[k].outpoint != op
  {
    if |utxos| == 0 then None
    else if utxos[0].outpoint == op then Some(0)
    else
      match FindUtxo(utxos[1..], op)
      case None => assert forall k :: 0 < k < |utxos| ==> utxos[k] == utxos[1..][k - 1]; None
      case Some(i) => assert forall k :: 0 < k < |utxos| ==> utxos[k] == utxos[1..][k - 1]; Some(i + 1)
  }

  predicate Present(utxos: seq<UtxoEntry>, op: OutPoint) {
    exists i :: 0 <= i < |utxos| && utxos[i].outpoint == op
  }

  // ---------------------------------------------------------------- reorganizations and replacements

  datatype DetectUtxoPayload = DetectUtxoPayload(valueSats: u64, address: Text)
  datatype ReorgPayload = ReorgPayload(disconnectedTxids: seq<Text>, newUtxos: seq<UtxoEntry>)

  predicate IsDisconnected(u: UtxoEntry, txids: seq<Text>) {
    u.outpoint.txid in txids && (u.state == Confirming || u.state == Spendable || u.state == FinalizedByPolicy)
  }

  function Disconnect(u: UtxoEntry, txids: seq<Text>): UtxoEntry {
    if IsDisconnected(u, txids) then u.(state := Reorged, blockHeight := None, confirmedAtBucket := None) else u
  }

  function DisconnectAll(utxos: seq<UtxoEntry>, txids: seq<Text>): (r: seq<UtxoEntry>) {
    Map((u: UtxoEntry) => Disconnect(u, txids), utxos)
  }

  function Replace(u: UtxoEntry, txid: Text): UtxoEntry {
    if u.outpoint.txid == txid && u.state != Replaced then
      (if u.reservedBy.Some? then u.(reservedBy := None, reservedAtBucket := None) else u).(state := Replaced)
    else u
  }

  function ReplaceAll(utxos: seq<UtxoEntry>, txid: Text): (r: seq<UtxoEntry>) {
    Map((u: UtxoEntry) => Replace(u, txid), utxos)
  }

  /** Appends, in order, `seen(u)` for every `u` whose outpoint is not there yet. */
  function AddMissing(utxos: seq<UtxoEntry>, news: seq<UtxoEntry>, seen: UtxoEntry -> UtxoEntry): (r: seq<UtxoEntry>)
    ensures utxos <= r
    decreases |news|
  {
    if |news| == 0 then utxos
    else
      AddMissing(if Present(utxos, news[0].outpoint) then utxos else utxos + [seen(news[0])], news[1..], seen)
  }

  function SeenAt(bucket: u64): UtxoEntry -> UtxoEntry {
    (u: UtxoEntry) => u.(state := Seen, detectedAtBucket := bucket)
  }

  function SeenAsIs(): UtxoEntry -> UtxoEntry {
    (u: UtxoEntry) => u.(state := Seen)
  }

  function Reorganized(utxos: seq<UtxoEntry>, payload: ReorgPayload, bucket: u64): seq<UtxoEntry> {
    AddMissing(DisconnectAll(utxos, payload.disconnectedTxids), payload.newUtxos, SeenAt(bucket))
  }

  function Rbf(utxos: seq<UtxoEntry>, txid: Text, replacements: seq<UtxoEntry>): seq<UtxoEntry> {
    AddMissing(ReplaceAll(utxos, txid), replacements, SeenAsIs())
  }

  // ---------------------------------------------------------------- one step on the outputs

  /** Everything that changes the tracked outputs: the ledger's UTXO commands, the store's
      operations, and the two batch handlers. */
  datatype UtxoStep =
    | Detect(outpoint: OutPoint, valueSats: u64, address: Text, bucket: u64)
    | Confirm(outpoint: OutPoint, blockHeight: u64, bucket: u64)
    | MarkSpendable(outpoint: OutPoint)
    | ReserveUtxo(outpoint: OutPoint, holder: Text, bucket: u64)
    | ReleaseUtxo(outpoint: OutPoint)
    | MarkSpent(outpoint: OutPoint, spentBy: Option<Text>, bucket: u64)
    | Reorganize(payload: ReorgPayload, bucket: u64)
    | ReplaceByFee(txid: Text, replacements: seq<UtxoEntry>)
    | AddUtxo(entry: UtxoEntry)
    | UpdateState(outpoint: OutPoint, target: OnchainState)

  /** Steps on one entry that has to exist. */
  predicate OnEntry(step: UtxoStep) {
    step.Confirm? || step.MarkSpendable? || step.ReserveUtxo? || step.ReleaseUtxo? || step.MarkSpent? || step.UpdateState?
  }

  /** What a step on an existing entry turns it into. */
  function StepEntry(u: UtxoEntry, step: UtxoStep): (r: Result<UtxoEntry>)
    requires OnEntry(step)
    ensures r.Err? ==> !r.error.InvariantViolation?
  {
    match step
    case Confirm(_, height, bucket) =>
      if TransitionAllowed(u.state, Confirming) then
        Ok(u.(state := Confirming, blockHeight := Some(height), confirmedAtBucket := Some(bucket)))
      else Err(InvalidUtxoTransition(u.state, Confirming))
    case MarkSpendable(_) =>
      if TransitionAllowed(u.state, Spendable) then Ok(u.(state := Spendable))
      else Err(InvalidUtxoTransition(u.state, Spendable))
    case ReserveUtxo(_, holder, bucket) =>
      if !IsReservable(u.state) then Err(InvalidUtxoTransition(u.state, u.state))
      else if u.reservedBy.Some? then Err(UtxoAlreadyReserved(u.reservedBy.value))
      else Ok(u.(reservedBy := Some(holder), reservedAtBucket := Some(bucket)))
    case ReleaseUtxo(_) =>
      if u.reservedBy.None? then Err(UtxoNotReserved)
      else Ok(u.(reservedBy := None, reservedAtBucket := None))
    case MarkSpent(_, spentBy, bucket) =>
      if TransitionAllowed(u.state, Spent) then
        Ok(u.(reservedBy := None, reservedAtBucket := None, state := Spent,
              spentAtBucket := Some(bucket), spentByTxid := spentBy))
      else Err(InvalidUtxoTransition(u.state, Spent))
    case UpdateState(_, target) =>
      if TransitionAllowed(u.state, target) then Ok(u.(state := target))
      else Err(InvalidUtxoTransition(u.state, target))
  }

  function Redetect(u: UtxoEntry, bucket: u64): UtxoEntry {
    if u.state == Reorged then u.(state := Seen, detectedAtBucket := bucket) else u
  }

  function StepExisting(utxos: seq<UtxoEntry>, step: UtxoStep): (r: (seq<UtxoEntry>, Result<()>))
    requires OnEntry(step)
    ensures r.1.Err? ==> r.0 == utxos && !r.1.error.InvariantViolation?
  {
    match FindUtxo(utxos, step.outpoint)
    case None => (utxos, Err(UtxoNotFound(step.outpoint)))
    case Some(i) =>
      match StepEntry(utxos[i], step)
      case Ok(u) => (utxos[i := u], Ok(()))
      case Err(e) => (utxos, Err(e))
  }

  function Detected(utxos: seq<UtxoEntry>, op: OutPoint, value: u64, address: Text, bucket: u64): seq<UtxoEntry> {
    match FindUtxo(utxos, op)
    case Some(i) => utxos[i := Redetect(utxos[i], bucket)]
    case None => utxos + [NewSeen(op, value, address, bucket)]
  }

  /** The outputs after a step; a step that fails changes nothing. */
  function StepUtxos(utxos: seq<UtxoEntry>, step: UtxoStep): (r: (seq<UtxoEntry>, Result<()>))
    ensures r.1.Err? ==> r.0 == utxos && !r.1.error.InvariantViolation?
  {
    if OnEntry(step) then StepExisting(utxos, step)
    else if step.Detect? then (Detected(utxos, step.outpoint, step.valueSats, step.address, step.bucket), Ok(()))
    else if step.Reorganize? then (Reorganized(utxos, step.payload, step.bucket), Ok(()))
    else if step.ReplaceByFee? then (Rbf(utxos, step.txid, step.replacements), Ok(()))
    else (if Present(utxos, step.entry.outpoint) then utxos else utxos + [step.entry], Ok(()))
  }
}
