/** A reorganization changes exactly what it reports, once (chain.rs, reconciliation.rs). */
module Reorgs {
  import opened Binary
  import opened LedgerTypes
  import opened Sequences
  import opened Chain
  import opened ChainLemmas
  import opened UtxoTables

  function LiveValue(u: UtxoEntry): int {
    if u.state == Spent || u.state == Replaced then 0 else u.valueSats
  }

  function Value(u: UtxoEntry): int {
    u.valueSats
  }

  /** What `apply_reorg` returns, by its postcondition. */
  function Affected(utxos: seq<UtxoEntry>, payload: ReorgPayload, bucket: u64): seq<Bytes> {
    var after := Reorganized(utxos, payload, bucket);
    DisconnectedKeys(utxos, payload.disconnectedTxids) + Keys(after[|utxos|..])
  }

  /** Position `i` of the table holds something it did not hold before. */
  predicate Touched(utxos: seq<UtxoEntry>, after: seq<UtxoEntry>, i: nat)
    requires i < |after|
  {
    i >= |utxos| || after[i] != utxos[i]
  }

  lemma InPlace(utxos: seq<UtxoEntry>, payload: ReorgPayload, bucket: u64)
    ensures var after := Reorganized(utxos, payload, bucket);
      && |utxos| <= |after|
      && (forall i :: 0 <= i < |utxos| ==> after[i] == Disconnect(utxos[i], payload.disconnectedTxids))
  {
    assert DisconnectAll(utxos, payload.disconnectedTxids) <= Reorganized(utxos, payload, bucket);
  }

  lemma {:induction false} DisconnectedKeysMembers(utxos: seq<UtxoEntry>, txids: seq<Text>, key: Bytes)
    ensures key in DisconnectedKeys(utxos, txids) <==>
      exists i :: 0 <= i < |utxos| && IsDisconnected(utxos[i], txids) && Key(utxos[i]) == key
  {
    if |utxos| > 0 {
      var n := |utxos| - 1;
      DisconnectedKeysMembers(utxos[..n], txids, key);
      assert forall i :: 0 <= i < n ==> utxos[..n][i] == utxos[i];
      if key in DisconnectedKeys(utxos[..n], txids) {
        var i :| 0 <= i < n && IsDisconnected(utxos[..n][i], txids) && Key(utxos[..n][i]) == key;
        assert IsDisconnected(utxos[i], txids) && Key(utxos[i]) == key;
      }
    }
  }

  predicate NoDuplicates<T(==)>(s: seq<T>) {
    forall i, j :: 0 <= i < j < |s| ==> s[i] != s[j]
  }

  lemma {:induction false} DisconnectedKeysDistinct(utxos: seq<UtxoEntry>, txids: seq<Text>)
    requires UniqueOutpoints(utxos)
    ensures NoDuplicates(DisconnectedKeys(utxos, txids))
  {
    if |utxos| > 0 {
      var n := |utxos| - 1;
      DisconnectedKeysDistinct(utxos[..n], txids);
      var last := Key(utxos[n]);
      DisconnectedKeysMembers(utxos[..n], txids, last);
      forall i | 0 <= i < n ensures Key(utxos[..n][i]) != last {
        CanonicalKeyInjective(utxos[i].outpoint, utxos[n].outpoint);
      }
    }
  }

  /** The returned keys are exactly those of the entries that were changed or added, each once, and
      every other entry is untouched in its place. */
  lemma ReorgExact(utxos: seq<UtxoEntry>, payload: ReorgPayload, bucket: u64)
    requires UniqueOutpoints(utxos)
    ensures var after := Reorganized(utxos, payload, bucket);
      var affected := Affected(utxos, payload, bucket);
      && UniqueOutpoints(after)
      && NoDuplicates(affected)
      && (forall i :: 0 <= i < |after| ==> (Touched(utxos, after, i) <==> Key(after[i]) in affected))
      && (forall key :: key in affected ==> exists i :: 0 <= i < |after| && Key(after[i]) == key)
  {
    var after := Reorganized(utxos, payload, bucket);
    var txids := payload.disconnectedTxids;
    InPlace(utxos, payload, bucket);
    StepKeepsUnique(utxos, Reorganize(payload, bucket));
    AffectedDistinct(utxos, after, txids);
    forall i | 0 <= i < |after|
      ensures Touched(utxos, after, i) <==> Key(after[i]) in Affected(utxos, payload, bucket)
    {
      AddedKey(after, |utxos|, i);
      ChangedKey(utxos, after, txids, i);
    }
    forall key | key in Affected(utxos, payload, bucket)
      ensures exists i :: 0 <= i < |after| && Key(after[i]) == key
    {
      AffectedReal(utxos, after, txids, key);
    }
  }

  lemma AffectedReal(utxos: seq<UtxoEntry>, after: seq<UtxoEntry>, txids: seq<Text>, key: Bytes)
    requires |utxos| <= |after|
    requires forall k :: 0 <= k < |utxos| ==> after[k] == Disconnect(utxos[k], txids)
    requires key in DisconnectedKeys(utxos, txids) + Keys(after[|utxos|..])
    ensures exists i :: 0 <= i < |after| && Key(after[i]) == key
  {
    var added := Keys(after[|utxos|..]);
    if key in added {
      var i :| 0 <= i < |added| && added[i] == key;
      assert Key(after[|utxos| + i]) == key;
    } else {
      DisconnectedKeysMembers(utxos, txids, key);
      var i :| 0 <= i < |utxos| && IsDisconnected(utxos[i], txids) && Key(utxos[i]) == key;
      assert Key(after[i]) == key;
    }
  }

  lemma {:induction false} AffectedDistinct(utxos: seq<UtxoEntry>, after: seq<UtxoEntry>, txids: seq<Text>)
    requires UniqueOutpoints(utxos) && UniqueOutpoints(after) && |utxos| <= |after|
    requires forall k :: 0 <= k < |utxos| ==> after[k] == Disconnect(utxos[k], txids)
    ensures NoDuplicates(DisconnectedKeys(utxos, txids) + Keys(after[|utxos|..]))
  {
    var changed, added := DisconnectedKeys(utxos, txids), Keys(after[|utxos|..]);
    DisconnectedKeysDistinct(utxos, txids);
    forall i, j | 0 <= i < j < |added| ensures added[i] != added[j] {
      CanonicalKeyInjective(after[|utxos| + i].outpoint, after[|utxos| + j].outpoint);
    }
    forall i | 0 <= i < |added| ensures added[i] !in changed {
      ChangedKey(utxos, after, txids, |utxos| + i);
    }
  }

  lemma AddedKey(after: seq<UtxoEntry>, n: nat, i: nat)
    requires UniqueOutpoints(after) && n <= |after| && i < |after|
    ensures Key(after[i]) in Keys(after[n..]) <==> i >= n
  {
    var added := Keys(after[n..]);
    if i >= n {
      assert added[i - n] == Key(after[i]);
    } else {
      forall k | 0 <= k < |added| ensures added[k] != Key(after[i]) {
        CanonicalKeyInjective(after[n + k].outpoint, after[i].outpoint);
      }
    }
  }

  lemma ChangedKey(utxos: seq<UtxoEntry>, after: seq<UtxoEntry>, txids: seq<Text>, i: nat)
    requires UniqueOutpoints(after) && |utxos| <= |after| && i < |after|
    requires forall k :: 0 <= k < |utxos| ==> after[k] == Disconnect(utxos[k], txids)
    ensures Key(after[i]) in DisconnectedKeys(utxos, txids) <==> i < |utxos| && after[i] != utxos[i]
  {
    DisconnectedKeysMembers(utxos, txids, Key(after[i]));
    if k :| 0 <= k < |utxos| && IsDisconnected(utxos[k], txids) && Key(utxos[k]) == Key(after[i]) {
      CanonicalKeyInjective(after[k].outpoint, after[i].outpoint);
      assert k == i;
    }
    if i < |utxos| && after[i] != utxos[i] {
      assert IsDisconnected(utxos[i], txids) && Key(utxos[i]) == Key(after[i]);
    }
  }

  /** Live value rises by exactly the value of the added entries: disconnecting moves none, and a
      payload that lists an output twice adds it once. */
  lemma ReorgValue(utxos: seq<UtxoEntry>, payload: ReorgPayload, bucket: u64)
    ensures var after := Reorganized(utxos, payload, bucket);
      |utxos| <= |after| && Sum(LiveValue, after) == Sum(LiveValue, utxos) + Sum(Value, after[|utxos|..])
  {
    var after := Reorganized(utxos, payload, bucket);
    var middle := DisconnectAll(utxos, payload.disconnectedTxids);
    InPlace(utxos, payload, bucket);
    assert after == after[..|utxos|] + after[|utxos|..];
    SumAppend(LiveValue, after[..|utxos|], after[|utxos|..]);
    SumPointwise(LiveValue, LiveValue, after[..|utxos|], utxos);
    AddMissingMembers(middle, payload.newUtxos, SeenAt(bucket));
    var added := after[|utxos|..];
    forall i | 0 <= i < |added| ensures LiveValue(added[i]) == Value(added[i]) {
      assert added[i] == after[|utxos| + i];
    }
    SumPointwise(LiveValue, Value, added, added);
  }

  lemma {:induction false} SumPointwise(f: UtxoEntry -> int, g: UtxoEntry -> int, a: seq<UtxoEntry>, b: seq<UtxoEntry>)
    requires |a| == |b|
    requires forall i :: 0 <= i < |a| ==> f(a[i]) == g(b[i])
    ensures Sum(f, a) == Sum(g, b)
  {
    if |a| > 0 {
      SumPointwise(f, g, a[1..], b[1..]);
    }
  }

  /** Applying the same reorganization again changes nothing and reports nothing. */
  lemma ReorgIdempotent(utxos: seq<UtxoEntry>, payload: ReorgPayload, bucket: u64, later: u64)
    ensures var after := Reorganized(utxos, payload, bucket);
      Reorganized(after, payload, later) == after && Affected(after, payload, later) == []
  {
    var after := Reorganized(utxos, payload, bucket);
    var txids := payload.disconnectedTxids;
    var middle := DisconnectAll(utxos, txids);
    InPlace(utxos, payload, bucket);
    AddMissingMembers(middle, payload.newUtxos, SeenAt(bucket));
    forall i | 0 <= i < |after| ensures !IsDisconnected(after[i], txids) {
      if i < |utxos| {
        assert after[i] == Disconnect(utxos[i], txids);
      }
    }
    assert DisconnectAll(after, txids) == after;
    forall k | 0 <= k < |payload.newUtxos| ensures Present(after, payload.newUtxos[k].outpoint) {
      assert Present(payload.newUtxos, payload.newUtxos[k].outpoint);
    }
    AddMissingNothing(after, payload.newUtxos, SeenAt(later));
    NothingDisconnected(after, txids);
  }

  lemma {:induction false} NothingDisconnected(utxos: seq<UtxoEntry>, txids: seq<Text>)
    requires forall i :: 0 <= i < |utxos| ==> !IsDisconnected(utxos[i], txids)
    ensures DisconnectedKeys(utxos, txids) == []
  {
    if |utxos| > 0 {
      NothingDisconnected(utxos[..|utxos| - 1], txids);
    }
  }
}
