/** The vector of tracked outputs as the code updates it: `ReorgHandler::apply_reorg` and
    `apply_rbf_replacement` (chain.rs) and `InMemoryUtxoStore` (utxo_store.rs). */
module UtxoTables {
  import opened Binary
  import opened LedgerTypes
  import opened Sequences
  import opened Chain

  function Keys(utxos: seq<UtxoEntry>): seq<Bytes> {
    Map(Key, utxos)
  }

  /** Keys of the entries a reorganization disconnects, in table order. */
  function DisconnectedKeys(utxos: seq<UtxoEntry>, txids: seq<Text>): seq<Bytes> {
    if |utxos| == 0 then []
    else DisconnectedKeys(utxos[..|utxos| - 1], txids) +
         if IsDisconnected(utxos[|utxos| - 1], txids) then [Key(utxos[|utxos| - 1])] else []
  }

  /** Holders of the reservations a replacement clears, in table order. */
  function ReleasedHolders(utxos: seq<UtxoEntry>, txid: Text): seq<Text> {
    if |utxos| == 0 then []
    else
      var u := utxos[|utxos| - 1];
      ReleasedHolders(utxos[..|utxos| - 1], txid) +
      if u.outpoint.txid == txid && u.state != Replaced && u.reservedBy.Some? then [u.reservedBy.value] else []
  }

  class UtxoTable {
    var entries: seq<UtxoEntry>

    constructor (initial: seq<UtxoEntry>)
      ensures entries == initial
    {
      entries := initial;
    }

    /** Position of the first entry whose canonical key is that of `op`. */
    method Position(op: OutPoint) returns (r: Option<nat>)
      ensures r == FindUtxo(entries, op)
    {
      var i := 0;
      while i < |entries|
        invariant i <= |entries|
        invariant forall k :: 0 <= k < i ==> entries[k].outpoint != op
      {
        CanonicalKeyInjective(entries[i].outpoint, op);
        if Key(entries[i]) == CanonicalKey(op) {
          return Some(i);
        }
        i := i + 1;
      }
      return None;
    }

    method AppendMissing(news: seq<UtxoEntry>, seen: UtxoEntry -> UtxoEntry)
      requires forall u :: seen(u).outpoint == u.outpoint
      modifies this
      ensures entries == AddMissing(old(entries), news, seen)
    {
      var j := 0;
      while j < |news|
        invariant j <= |news|
        invariant AddMissing(entries, news[j..], seen) == AddMissing(old(entries), news, seen)
      {
        var at := Position(news[j].outpoint);
        assert Present(entries, news[j].outpoint) <==> at.Some?;
        assert news[j..][0] == news[j] && news[j..][1..] == news[j + 1..];
        if at.None? {
          entries := entries + [seen(news[j])];
        }
        j := j + 1;
      }
    }

    /** Returns the keys of the entries it changed, then of those it added. */
    method ApplyReorg(payload: ReorgPayload, bucket: u64) returns (affected: seq<Bytes>)
      modifies this
      ensures entries == Reorganized(old(entries), payload, bucket)
      ensures |old(entries)| <= |entries|
      ensures affected == DisconnectedKeys(old(entries), payload.disconnectedTxids) + Keys(entries[|old(entries)|..])
    {
      ghost var before := entries;
      var txids := payload.disconnectedTxids;
      affected := [];
      var i := 0;
      while i < |entries|
        invariant i <= |entries| == |before|
        invariant forall k :: 0 <= k < i ==> entries[k] == Disconnect(before[k], txids)
        invariant forall k :: i <= k < |before| ==> entries[k] == before[k]
        invariant affected == DisconnectedKeys(before[..i], txids)
      {
        var utxo := entries[i];
        assert before[..i + 1][..i] == before[..i];
        if utxo.outpoint.txid in txids {
          if utxo.state == Confirming || utxo.state == Spendable || utxo.state == FinalizedByPolicy {
            entries := entries[i := utxo.(state := Reorged, blockHeight := None, confirmedAtBucket := None)];
            affected := affected + [Key(utxo)];
          }
        }
        i := i + 1;
      }
      assert before[..i] == before;
      assert entries == DisconnectAll(before, txids);
      AppendMissing(payload.newUtxos, SeenAt(bucket));
      var news := entries[i..];
      affected := affected + Keys(news);
    }

    /** Returns the holders whose reservations were cleared. */
    method ApplyRbf(txid: Text, replacements: seq<UtxoEntry>) returns (released: seq<Text>)
      modifies this
      ensures entries == Rbf(old(entries), txid, replacements)
      ensures released == ReleasedHolders(old(entries), txid)
    {
      ghost var before := entries;
      released := [];
      var i := 0;
      while i < |entries|
        invariant i <= |entries| == |before|
        invariant forall k :: 0 <= k < i ==> entries[k] == Replace(before[k], txid)
        invariant forall k :: i <= k < |before| ==> entries[k] == before[k]
        invariant released == ReleasedHolders(before[..i], txid)
      {
        var utxo := entries[i];
        assert before[..i + 1][..i] == before[..i];
        if utxo.outpoint.txid == txid && utxo.state != Replaced {
          if utxo.reservedBy.Some? {
            released := released + [utxo.reservedBy.value];
            utxo := utxo.(reservedBy := None, reservedAtBucket := None);
          }
          utxo := utxo.(state := Replaced);
          entries := entries[i := utxo];
        }
        i := i + 1;
      }
      assert before[..i] == before;
      assert entries == ReplaceAll(before, txid);
      AppendMissing(replacements, SeenAsIs());
    }

    method Add(utxo: UtxoEntry)
      modifies this
      ensures entries == StepUtxos(old(entries), AddUtxo(utxo)).0
    {
      var at := Position(utxo.outpoint);
      assert Present(entries, utxo.outpoint) <==> at.Some?;
      if at.None? {
        entries := entries + [utxo];
      }
    }

    method SetState(op: OutPoint, target: OnchainState) returns (r: Result<()>)
      modifies this
      ensures (entries, r) == StepUtxos(old(entries), UpdateState(op, target))
    {
      var at := Position(op);
      if at.None? {
        return Err(UtxoNotFound(op));
      }
      var entry := entries[at.value];
      if !TransitionAllowed(entry.state, target) {
        return Err(InvalidUtxoTransition(entry.state, target));
      }
      entries := entries[at.value := entry.(state := target)];
      return Ok(());
    }

    method ReserveFor(op: OutPoint, holder: Text, bucket: u64) returns (r: Result<()>)
      modifies this
      ensures (entries, r) == StepUtxos(old(entries), ReserveUtxo(op, holder, bucket))
    {
      var at := Position(op);
      if at.None? {
        return Err(UtxoNotFound(op));
      }
      var entry := entries[at.value];
      if !IsReservable(entry.state) {
        return Err(InvalidUtxoTransition(entry.state, entry.state));
      }
      if entry.reservedBy.Some? {
        return Err(UtxoAlreadyReserved(entry.reservedBy.value));
      }
      entries := entries[at.value := entry.(reservedBy := Some(holder), reservedAtBucket := Some(bucket))];
      return Ok(());
    }

    method Release(op: OutPoint) returns (r: Result<()>)
      modifies this
      ensures (entries, r) == StepUtxos(old(entries), ReleaseUtxo(op))
    {
      var at := Position(op);
      if at.None? {
        return Err(UtxoNotFound(op));
      }
      var entry := entries[at.value];
      if entry.reservedBy.None? {
        return Err(UtxoNotReserved);
      }
      entries := entries[at.value := entry.(reservedBy := None, reservedAtBucket := None)];
      return Ok(());
    }

    /** Any single step; the commands of the ledger go through here. */
    method Perform(step: UtxoStep) returns (r: Result<()>)
      modifies this
      ensures (entries, r) == StepUtxos(old(entries), step)
    {
      match step {
        case Reorganize(payload, bucket) =>
          var _ := ApplyReorg(payload, bucket);
          r := Ok(());
        case ReplaceByFee(txid, replacements) =>
          var _ := ApplyRbf(txid, replacements);
          r := Ok(());
        case AddUtxo(entry) =>
          Add(entry);
          r := Ok(());
        case UpdateState(op, target) => r := SetState(op, target);
        case ReserveUtxo(op, holder, bucket) => r := ReserveFor(op, holder, bucket);
        case ReleaseUtxo(op) => r := Release(op);
        case Detect(op, value, address, bucket) =>
          var at := Position(op);
          if at.Some? {
            assert entries == entries[at.value := entries[at.value]];
            if entries[at.value].state == Reorged {
              entries := entries[at.value := entries[at.value].(state := Seen, detectedAtBucket := bucket)];
            }
          } else {
            entries := entries + [NewSeen(op, value, address, bucket)];
          }
          r := Ok(());
        case Confirm(op, height, bucket) =>
          var at := Position(op);
          if at.None? {
            return Err(UtxoNotFound(op));
          }
          var utxo := entries[at.value];
          if !TransitionAllowed(utxo.state, Confirming) {
            return Err(InvalidUtxoTransition(utxo.state, Confirming));
          }
          entries := entries[at.value := utxo.(state := Confirming, blockHeight := Some(height), confirmedAtBucket := Some(bucket))];
          r := Ok(());
        case MarkSpendable(op) => r := SetState(op, Spendable);
        case MarkSpent(op, spentBy, bucket) =>
          var at := Position(op);
          if at.None? {
            return Err(UtxoNotFound(op));
          }
          var utxo := entries[at.value];
          if !TransitionAllowed(utxo.state, Spent) {
            return Err(InvalidUtxoTransition(utxo.state, Spent));
          }
          utxo := utxo.(reservedBy := None, reservedAtBucket := None);
          utxo := utxo.(state := Spent, spentAtBucket := Some(bucket), spentByTxid := spentBy);
          entries := entries[at.value := utxo];
          r := Ok(());
      }
    }
  }
}
