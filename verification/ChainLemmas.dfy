/** What every step on the tracked outputs keeps: unique outpoints, the fixed part of each entry, and
    independence of storage order. */
module ChainLemmas {
  import opened Binary
  import opened LedgerTypes
  import opened Sequences
  import opened Chain

  /** The batch handlers store a new entry under its own outpoint. */
  ghost predicate KeepsOutpoint(seen: UtxoEntry -> UtxoEntry) {
    forall u :: seen(u).outpoint == u.outpoint
  }

  lemma UniqueAppend(utxos: seq<UtxoEntry>, u: UtxoEntry)
    requires UniqueOutpoints(utxos)
    requires !Present(utxos, u.outpoint)
    ensures UniqueOutpoints(utxos + [u])
  {
  }

  lemma {:induction false} AddMissingUnique(utxos: seq<UtxoEntry>, news: seq<UtxoEntry>, seen: UtxoEntry -> UtxoEntry)
    requires UniqueOutpoints(utxos) && KeepsOutpoint(seen)
    ensures UniqueOutpoints(AddMissing(utxos, news, seen))
    decreases |news|
  {
    if |news| > 0 {
      if !Present(utxos, news[0].outpoint) {
        UniqueAppend(utxos, seen(news[0]));
        AddMissingUnique(utxos + [seen(news[0])], news[1..], seen);
      } else {
        AddMissingUnique(utxos, news[1..], seen);
      }
    }
  }

  /** Afterwards exactly the old and the listed outpoints are there, and what was appended came from
      the list. */
  lemma {:induction false} AddMissingMembers(utxos: seq<UtxoEntry>, news: seq<UtxoEntry>, seen: UtxoEntry -> UtxoEntry)
    requires KeepsOutpoint(seen)
    ensures var r := AddMissing(utxos, news, seen);
      && (forall op :: Present(r, op) <==> Present(utxos, op) || Present(news, op))
      && (forall i :: |utxos| <= i < |r| ==> exists k :: 0 <= k < |news| && r[i] == seen(news[k]))
    decreases |news|
  {
    var r := AddMissing(utxos, news, seen);
    if |news| > 0 {
      var next := if Present(utxos, news[0].outpoint) then utxos else utxos + [seen(news[0])];
      AddMissingMembers(next, news[1..], seen);
      forall op
        ensures Present(r, op) <==> Present(utxos, op) || Present(news, op)
      {
        PresentAppend(utxos, seen(news[0]), op);
        PresentCons(news, op);
      }
      forall i | |utxos| <= i < |r|
        ensures exists k :: 0 <= k < |news| && r[i] == seen(news[k])
      {
        if i < |next| {
          assert r[i] == next[i] == seen(news[0]);
        } else {
          var k :| 0 <= k < |news[1..]| && r[i] == seen(news[1..][k]);
          assert news[1..][k] == news[k + 1];
        }
      }
    }
  }

  lemma PresentAppend(utxos: seq<UtxoEntry>, u: UtxoEntry, op: OutPoint)
    ensures Present(utxos + [u], op) <==> Present(utxos, op) || u.outpoint == op
  {
    assert (utxos + [u])[|utxos|] == u;
    assert forall i :: 0 <= i < |utxos| ==> (utxos + [u])[i] == utxos[i];
  }

  lemma PresentCons(news: seq<UtxoEntry>, op: OutPoint)
    requires |news| > 0
    ensures Present(news, op) <==> news[0].outpoint == op || Present(news[1..], op)
  {
    assert forall i :: 0 < i < |news| ==> news[i] == news[1..][i - 1];
    if Present(news[1..], op) {
      var i :| 0 <= i < |news[1..]| && news[1..][i].outpoint == op;
      assert news[i + 1].outpoint == op;
    }
  }

  lemma {:induction false} AddMissingNothing(utxos: seq<UtxoEntry>, news: seq<UtxoEntry>, seen: UtxoEntry -> UtxoEntry)
    requires forall k :: 0 <= k < |news| ==> Present(utxos, news[k].outpoint)
    ensures AddMissing(utxos, news, seen) == utxos
    decreases |news|
  {
    if |news| > 0 {
      AddMissingNothing(utxos, news[1..], seen);
    }
  }

  lemma MapUnique(f: UtxoEntry -> UtxoEntry, utxos: seq<UtxoEntry>)
    requires UniqueOutpoints(utxos) && KeepsOutpoint(f)
    ensures UniqueOutpoints(Map(f, utxos))
  {
  }

  /** Outpoints stay unique whatever step is taken. */
  lemma ReorgKeepsUnique(utxos: seq<UtxoEntry>, payload: ReorgPayload, bucket: u64)
    requires UniqueOutpoints(utxos)
    ensures UniqueOutpoints(Reorganized(utxos, payload, bucket))
  {
    var txids := payload.disconnectedTxids;
    MapUnique((u: UtxoEntry) => Disconnect(u, txids), utxos);
    AddMissingUnique(DisconnectAll(utxos, txids), payload.newUtxos, SeenAt(bucket));
  }

  lemma RbfKeepsUnique(utxos: seq<UtxoEntry>, txid: Text, replacements: seq<UtxoEntry>)
    requires UniqueOutpoints(utxos)
    ensures UniqueOutpoints(Rbf(utxos, txid, replacements))
  {
    MapUnique((u: UtxoEntry) => Replace(u, txid), utxos);
    AddMissingUnique(ReplaceAll(utxos, txid), replacements, SeenAsIs());
  }

  lemma ExistingKeepsUnique(utxos: seq<UtxoEntry>, step: UtxoStep)
    requires UniqueOutpoints(utxos) && OnEntry(step)
    ensures UniqueOutpoints(StepExisting(utxos, step).0)
  {
  }

  lemma StepKeepsUnique(utxos: seq<UtxoEntry>, step: UtxoStep)
    requires UniqueOutpoints(utxos)
    ensures UniqueOutpoints(StepUtxos(utxos, step).0)
  {
    if OnEntry(step) {
      ExistingKeepsUnique(utxos, step);
    } else if step.Reorganize? {
      ReorgKeepsUnique(utxos, step.payload, step.bucket);
    } else if step.ReplaceByFee? {
      RbfKeepsUnique(utxos, step.txid, step.replacements);
    }
  }

  // ---------------------------------------------------------------- storage order

  lemma PermutedPresent(a: seq<UtxoEntry>, b: seq<UtxoEntry>, op: OutPoint)
    requires Permuted(a, b)
    ensures Present(a, op) <==> Present(b, op)
  {
    PermutedMembers(a, b);
    if Present(a, op) {
      var i :| 0 <= i < |a| && a[i].outpoint == op;
      assert a[i] in b;
    }
    if Present(b, op) {
      var i :| 0 <= i < |b| && b[i].outpoint == op;
      assert b[i] in a;
    }
  }

  /** With unique outpoints, lookup finds the same entry in any order. */
  lemma {:induction false} PermutedFind(a: seq<UtxoEntry>, b: seq<UtxoEntry>, op: OutPoint)
    requires Permuted(a, b) && UniqueOutpoints(a) && UniqueOutpoints(b)
    ensures var i, j := FindUtxo(a, op), FindUtxo(b, op);
      i.Some? == j.Some? && (i.Some? ==> a[i.value] == b[j.value])
  {
    PermutedPresent(a, b, op);
    PermutedMembers(a, b);
    var i, j := FindUtxo(a, op), FindUtxo(b, op);
    assert i.Some? <==> Present(a, op);
    assert j.Some? <==> Present(b, op);
    if i.Some? {
      assert a[i.value] in b;
    }
  }

  lemma {:induction false} AddMissingPermuted(a: seq<UtxoEntry>, b: seq<UtxoEntry>, news: seq<UtxoEntry>, seen: UtxoEntry -> UtxoEntry)
    requires Permuted(a, b)
    ensures Permuted(AddMissing(a, news, seen), AddMissing(b, news, seen))
    decreases |news|
  {
    if |news| > 0 {
      PermutedPresent(a, b, news[0].outpoint);
      if Present(a, news[0].outpoint) {
        AddMissingPermuted(a, b, news[1..], seen);
      } else {
        AddMissingPermuted(a + [seen(news[0])], b + [seen(news[0])], news[1..], seen);
      }
    }
  }

  /** Every step gives the same result on any two arrangements and leaves arrangements of the same
      entries. */
  lemma StepPermuted(a: seq<UtxoEntry>, b: seq<UtxoEntry>, step: UtxoStep)
    requires Permuted(a, b) && UniqueOutpoints(a) && UniqueOutpoints(b)
    ensures var (a', r), (b', q) := StepUtxos(a, step), StepUtxos(b, step); r == q && Permuted(a', b')
  {
    if step.Reorganize? {
      var txids := step.payload.disconnectedTxids;
      MapPermuted((u: UtxoEntry) => Disconnect(u, txids), a, b);
      AddMissingPermuted(DisconnectAll(a, txids), DisconnectAll(b, txids), step.payload.newUtxos, SeenAt(step.bucket));
    } else if step.ReplaceByFee? {
      MapPermuted((u: UtxoEntry) => Replace(u, step.txid), a, b);
      AddMissingPermuted(ReplaceAll(a, step.txid), ReplaceAll(b, step.txid), step.replacements, SeenAsIs());
    } else if step.AddUtxo? {
      PermutedPresent(a, b, step.entry.outpoint);
    } else {
      PermutedFind(a, b, step.outpoint);
      var i, j := FindUtxo(a, step.outpoint), FindUtxo(b, step.outpoint);
      if i.Some? {
        if step.Detect? {
          PermutedUpdate(a, i.value, b, j.value, Redetect(a[i.value], step.bucket));
        } else if StepEntry(a[i.value], step).Ok? {
          PermutedUpdate(a, i.value, b, j.value, StepEntry(a[i.value], step).value);
        }
      }
    }
  }
}
