/** What each step on the tracked outputs answers and leaves behind, entry by entry. */
module UtxoLaws {
  import opened Binary
  import opened LedgerTypes
  import opened Sequences
  import opened Chain
  import opened UtxoTables
  import opened Ledger
  import opened BalanceLaws

  predicate FirstUtxo(utxos: seq<UtxoEntry>, op: OutPoint, i: nat) {
    i < |utxos| && utxos[i].outpoint == op && forall k :: 0 <= k < i ==> utxos[k].outpoint != op
  }

  predicate NoUtxo(utxos: seq<UtxoEntry>, op: OutPoint) {
    forall k :: 0 <= k < |utxos| ==> utxos[k].outpoint != op
  }

  lemma {:induction false} FoundUtxo(utxos: seq<UtxoEntry>, op: OutPoint)
    ensures forall i: nat :: FirstUtxo(utxos, op, i) ==> FindUtxo(utxos, op) == Some(i)
    ensures NoUtxo(utxos, op) ==> FindUtxo(utxos, op) == None
  {
  }

  // ---------------------------------------------------------------- steps on one entry

  /** Confirming takes an output from the mempool, and notes the height and the time. */
  lemma ConfirmLaw(utxos: seq<UtxoEntry>, op: OutPoint, height: u64, bucket: u64, i: nat)
    requires FirstUtxo(utxos, op, i)
    ensures var u := utxos[i];
      StepUtxos(utxos, Confirm(op, height, bucket)) ==
        if u.state == InMempool
        then (utxos[i := u.(state := Confirming, blockHeight := Some(height), confirmedAtBucket := Some(bucket))], Ok(()))
        else (utxos, Err(InvalidUtxoTransition(u.state, Confirming)))
  {
    FoundUtxo(utxos, op);
  }

  /** Only a confirming output becomes spendable. */
  lemma SpendableLaw(utxos: seq<UtxoEntry>, op: OutPoint, i: nat)
    requires FirstUtxo(utxos, op, i)
    ensures var u := utxos[i];
      StepUtxos(utxos, MarkSpendable(op)) ==
        if u.state == Confirming then (utxos[i := u.(state := Spendable)], Ok(()))
        else (utxos, Err(InvalidUtxoTransition(u.state, Spendable)))
  {
    FoundUtxo(utxos, op);
  }

  /** Only a spendable output is spent; whatever reserved it is forgotten. */
  lemma SpentLaw(utxos: seq<UtxoEntry>, op: OutPoint, spentBy: Option<Text>, bucket: u64, i: nat)
    requires FirstUtxo(utxos, op, i)
    ensures var u := utxos[i];
      StepUtxos(utxos, MarkSpent(op, spentBy, bucket)) ==
        if u.state == Spendable
        then (utxos[i := u.(state := Spent, reservedBy := None, reservedAtBucket := None, spentAtBucket := Some(bucket), spentByTxid := spentBy)], Ok(()))
        else (utxos, Err(InvalidUtxoTransition(u.state, Spent)))
  {
    FoundUtxo(utxos, op);
  }

  /** A reservation needs a spendable or finalized output nobody else has reserved. */
  lemma ReservationLaw(utxos: seq<UtxoEntry>, op: OutPoint, holder: Text, bucket: u64, i: nat)
    requires FirstUtxo(utxos, op, i)
    ensures var u := utxos[i];
      StepUtxos(utxos, ReserveUtxo(op, holder, bucket)) ==
        if u.state != Spendable && u.state != FinalizedByPolicy then (utxos, Err(InvalidUtxoTransition(u.state, u.state)))
        else if u.reservedBy.Some? then (utxos, Err(UtxoAlreadyReserved(u.reservedBy.value)))
        else (utxos[i := u.(reservedBy := Some(holder), reservedAtBucket := Some(bucket))], Ok(()))
  {
    FoundUtxo(utxos, op);
  }

  /** A release needs a reservation, and asks nothing of the state. */
  lemma ReleaseOfLaw(utxos: seq<UtxoEntry>, op: OutPoint, i: nat)
    requires FirstUtxo(utxos, op, i)
    ensures var u := utxos[i];
      StepUtxos(utxos, ReleaseUtxo(op)) ==
        if u.reservedBy.None? then (utxos, Err(UtxoNotReserved))
        else (utxos[i := u.(reservedBy := None, reservedAtBucket := None)], Ok(()))
  {
    FoundUtxo(utxos, op);
  }

  /** The store moves a state along exactly ten arrows. */
  lemma UpdateLaw(utxos: seq<UtxoEntry>, op: OutPoint, target: OnchainState, i: nat)
    requires FirstUtxo(utxos, op, i)
    ensures var u := utxos[i];
      var arrows := {(Seen, InMempool), (InMempool, Seen), (Seen, Replaced), (InMempool, Confirming), (InMempool, Replaced),
                     (Confirming, Spendable), (Confirming, Reorged), (Spendable, FinalizedByPolicy), (Spendable, Spent), (Reorged, Seen)};
      StepUtxos(utxos, UpdateState(op, target)) ==
        if (u.state, target) in arrows then (utxos[i := u.(state := target)], Ok(()))
        else (utxos, Err(InvalidUtxoTransition(u.state, target)))
  {
    FoundUtxo(utxos, op);
  }

  /** None of these steps finds an output that is not there. */
  lemma UnknownUtxoLaw(utxos: seq<UtxoEntry>, op: OutPoint, height: u64, bucket: u64, who: Text, spentBy: Option<Text>, target: OnchainState)
    requires NoUtxo(utxos, op)
    ensures forall step :: step in {Confirm(op, height, bucket), MarkSpendable(op), ReserveUtxo(op, who, bucket), ReleaseUtxo(op),
                                    MarkSpent(op, spentBy, bucket), UpdateState(op, target)} ==>
      StepUtxos(utxos, step) == (utxos, Err(UtxoNotFound(op)))
  {
    FoundUtxo(utxos, op);
  }

  /** Detecting a new output appends it as seen; a reorganized one is seen again; any other is left alone. */
  lemma DetectLaw(utxos: seq<UtxoEntry>, op: OutPoint, value: u64, address: Text, bucket: u64)
    ensures forall i: nat :: FirstUtxo(utxos, op, i) ==>
      StepUtxos(utxos, Detect(op, value, address, bucket)) ==
        (if utxos[i].state == Reorged then utxos[i := utxos[i].(state := Seen, detectedAtBucket := bucket)] else utxos, Ok(()))
    ensures NoUtxo(utxos, op) ==>
      StepUtxos(utxos, Detect(op, value, address, bucket)) ==
        (utxos + [UtxoEntry(op, value, address, Seen, None, bucket, None, None, None, None, None)], Ok(()))
  {
    FoundUtxo(utxos, op);
    forall i: nat | FirstUtxo(utxos, op, i) ensures utxos[i := utxos[i]] == utxos {
    }
  }

  /** Adding to the store appends an unknown output as it is and leaves a known one alone. */
  lemma AddLaw(utxos: seq<UtxoEntry>, u: UtxoEntry)
    ensures StepUtxos(utxos, AddUtxo(u)) == (if NoUtxo(utxos, u.outpoint) then utxos + [u] else utxos, Ok(()))
  {
    assert Present(utxos, u.outpoint) <==> !NoUtxo(utxos, u.outpoint);
  }

  // ---------------------------------------------------------------- reorganizations and replacements

  /** Position `k` of a list is the first with its outpoint, and the table does not have it. */
  predicate IsFresh(utxos: seq<UtxoEntry>, news: seq<UtxoEntry>, k: nat) {
    && k < |news|
    && NoUtxo(utxos, news[k].outpoint)
    && forall j :: 0 <= j < k ==> news[j].outpoint != news[k].outpoint
  }

  /** `ks` are exactly the fresh positions, in order. */
  ghost predicate FreshOnes(utxos: seq<UtxoEntry>, news: seq<UtxoEntry>, ks: seq<nat>) {
    && (forall p, q :: 0 <= p < q < |ks| ==> ks[p] < ks[q])
    && (forall k: nat :: k in ks <==> IsFresh(utxos, news, k))
  }

  predicate KeepsOutpoint(seen: UtxoEntry -> UtxoEntry, news: seq<UtxoEntry>) {
    forall k :: 0 <= k < |news| ==> seen(news[k]).outpoint == news[k].outpoint
  }

  /** Being fresh after the first of a list. */
  lemma FreshTail(utxos: seq<UtxoEntry>, news: seq<UtxoEntry>, grown: seq<UtxoEntry>, k: nat)
    requires |news| > 0
    requires forall op :: NoUtxo(grown, op) <==> NoUtxo(utxos, op) && op != news[0].outpoint
    ensures IsFresh(utxos, news, k + 1) <==> IsFresh(grown, news[1..], k)
  {
    if k + 1 < |news| {
      assert news[1..][k] == news[k + 1];
      assert NoUtxo(grown, news[k + 1].outpoint) <==> NoUtxo(utxos, news[k + 1].outpoint) && news[k + 1].outpoint != news[0].outpoint;
      if IsFresh(grown, news[1..], k) {
        forall j | 0 <= j < k + 1 ensures news[j].outpoint != news[k + 1].outpoint {
          assert j > 0 ==> news[1..][j - 1] == news[j];
        }
      }
      if IsFresh(utxos, news, k + 1) {
        forall j | 0 <= j < k ensures news[1..][j].outpoint != news[1..][k].outpoint {
          assert news[1..][j] == news[j + 1];
        }
      }
    }
  }

  function Shifted(ks: seq<nat>): (r: seq<nat>)
    ensures |r| == |ks| && forall p :: 0 <= p < |ks| ==> r[p] == ks[p] + 1
  {
    seq(|ks|, p requires 0 <= p < |ks| => ks[p] + 1)
  }

  lemma FreshFirst(utxos: seq<UtxoEntry>, news: seq<UtxoEntry>, grown: seq<UtxoEntry>, ks: seq<nat>)
    requires |news| > 0
    requires forall op :: NoUtxo(grown, op) <==> NoUtxo(utxos, op) && op != news[0].outpoint
    requires FreshOnes(grown, news[1..], ks)
    ensures FreshOnes(utxos, news, (if NoUtxo(utxos, news[0].outpoint) then [0] else []) + Shifted(ks))
  {
    var all := (if NoUtxo(utxos, news[0].outpoint) then [0] else []) + Shifted(ks);
    forall k: nat ensures k in all <==> IsFresh(utxos, news, k) {
      if k > 0 {
        FreshTail(utxos, news, grown, k - 1);
        assert k in Shifted(ks) <==> k - 1 in ks by {
          if k in Shifted(ks) {
            var p :| 0 <= p < |ks| && Shifted(ks)[p] == k;
            assert ks[p] == k - 1;
          }
          if k - 1 in ks {
            var p :| 0 <= p < |ks| && ks[p] == k - 1;
            assert Shifted(ks)[p] == k;
          }
        }
      }
    }
  }

  lemma GrownHas(utxos: seq<UtxoEntry>, u: UtxoEntry)
    ensures forall op :: NoUtxo(utxos + [u], op) <==> NoUtxo(utxos, op) && op != u.outpoint
  {
    forall op: OutPoint
      ensures NoUtxo(utxos + [u], op) <==> NoUtxo(utxos, op) && op != u.outpoint
    {
      var more := utxos + [u];
      assert more[|utxos|] == u;
      if NoUtxo(more, op) {
        assert forall k :: 0 <= k < |utxos| ==> utxos[k] == more[k];
      }
    }
  }

  /** `after` is the table with the listed positions appended, each seen. */
  predicate Appended(utxos: seq<UtxoEntry>, news: seq<UtxoEntry>, seen: UtxoEntry -> UtxoEntry, ks: seq<nat>, after: seq<UtxoEntry>) {
    && utxos <= after && |after| == |utxos| + |ks|
    && forall p :: 0 <= p < |ks| ==> ks[p] < |news| && after[|utxos| + p] == seen(news[ks[p]])
  }

  /** What is appended: the fresh ones of the list, each seen, in order. */
  lemma {:induction false} AddedLaw(utxos: seq<UtxoEntry>, news: seq<UtxoEntry>, seen: UtxoEntry -> UtxoEntry) returns (ks: seq<nat>)
    requires KeepsOutpoint(seen, news)
    ensures FreshOnes(utxos, news, ks)
    ensures Appended(utxos, news, seen, ks, AddMissing(utxos, news, seen))
    decreases |news|
  {
    if |news| == 0 {
      ks := [];
    } else {
      var there := Present(utxos, news[0].outpoint);
      assert there <==> !NoUtxo(utxos, news[0].outpoint);
      var grown := if there then utxos else utxos + [seen(news[0])];
      if !there {
        GrownHas(utxos, seen(news[0]));
      }
      var rest := AddedLaw(grown, news[1..], seen);
      FreshFirst(utxos, news, grown, rest);
      ks := (if there then [] else [0]) + Shifted(rest);
      AppendedFirst(utxos, news, seen, grown, rest, ks, AddMissing(utxos, news, seen));
    }
  }

  lemma AppendedFirst(utxos: seq<UtxoEntry>, news: seq<UtxoEntry>, seen: UtxoEntry -> UtxoEntry, grown: seq<UtxoEntry>,
                      rest: seq<nat>, ks: seq<nat>, after: seq<UtxoEntry>)
    requires |news| > 0
    requires (grown == utxos && ks == [] + Shifted(rest)) || (grown == utxos + [seen(news[0])] && ks == [0] + Shifted(rest))
    requires Appended(grown, news[1..], seen, rest, after)
    ensures Appended(utxos, news, seen, ks, after)
  {
    forall p | 0 <= p < |ks| ensures ks[p] < |news| && after[|utxos| + p] == seen(news[ks[p]]) {
      var q := p - (|ks| - |rest|);
      if q >= 0 {
        assert ks[p] == rest[q] + 1;
        assert after[|grown| + q] == seen(news[1..][rest[q]]);
        assert news[1..][rest[q]] == news[ks[p]];
      } else {
        assert after[|utxos|] == grown[|utxos|];
      }
    }
  }

  predicate WasConfirmed(s: OnchainState) {
    s == Confirming || s == Spendable || s == FinalizedByPolicy
  }

  /** A reorganization turns exactly the entries of listed transactions that were confirming, spendable or
      finalized into reorganized ones without height and confirmation, keeps every other entry, and
      appends the fresh outputs of the payload as seen now. */
  lemma ReorgLaw(utxos: seq<UtxoEntry>, payload: ReorgPayload, bucket: u64) returns (ks: seq<nat>)
    ensures FreshOnes(utxos, payload.newUtxos, ks)
    ensures var after := Reorganized(utxos, payload, bucket);
      && |after| == |utxos| + |ks|
      && (forall i :: 0 <= i < |utxos| && utxos[i].outpoint.txid in payload.disconnectedTxids && WasConfirmed(utxos[i].state) ==>
            after[i] == utxos[i].(state := Reorged, blockHeight := None, confirmedAtBucket := None))
      && (forall i :: 0 <= i < |utxos| && !(utxos[i].outpoint.txid in payload.disconnectedTxids && WasConfirmed(utxos[i].state)) ==>
            after[i] == utxos[i])
      && (forall p :: 0 <= p < |ks| ==>
            ks[p] < |payload.newUtxos| && after[|utxos| + p] == payload.newUtxos[ks[p]].(state := Seen, detectedAtBucket := bucket))
  {
    var middle := DisconnectAll(utxos, payload.disconnectedTxids);
    ks := AddedLaw(middle, payload.newUtxos, SeenAt(bucket));
    SameOutpoints(utxos, middle, payload.newUtxos, ks);
    var after := Reorganized(utxos, payload, bucket);
    forall i | 0 <= i < |utxos| ensures after[i] == Disconnect(utxos[i], payload.disconnectedTxids) {
      assert after[i] == middle[i];
    }
  }

  lemma SameOutpoints(utxos: seq<UtxoEntry>, middle: seq<UtxoEntry>, news: seq<UtxoEntry>, ks: seq<nat>)
    requires |middle| == |utxos| && forall i :: 0 <= i < |utxos| ==> middle[i].outpoint == utxos[i].outpoint
    requires FreshOnes(middle, news, ks)
    ensures FreshOnes(utxos, news, ks)
  {
    forall k: nat ensures IsFresh(utxos, news, k) <==> IsFresh(middle, news, k) {
    }
  }

  /** The keys a reorganization reports are those of the entries it turns, then of those it appends. */
  lemma {:induction false} DisconnectedLaw(utxos: seq<UtxoEntry>, txids: seq<Text>) returns (ks: seq<nat>)
    ensures forall p, q :: 0 <= p < q < |ks| ==> ks[p] < ks[q]
    ensures forall k: nat :: k in ks <==>
      k < |utxos| && utxos[k].outpoint.txid in txids && WasConfirmed(utxos[k].state)
    ensures |DisconnectedKeys(utxos, txids)| == |ks|
    ensures forall p :: 0 <= p < |ks| ==> ks[p] < |utxos| && DisconnectedKeys(utxos, txids)[p] == CanonicalKey(utxos[ks[p]].outpoint)
  {
    ks := [];
    var i := 0;
    while i < |utxos|
      invariant i <= |utxos|
      invariant forall p, q :: 0 <= p < q < |ks| ==> ks[p] < ks[q]
      invariant forall k: nat :: k in ks <==>
        k < i && utxos[k].outpoint.txid in txids && WasConfirmed(utxos[k].state)
      invariant |DisconnectedKeys(utxos[..i], txids)| == |ks|
      invariant forall p :: 0 <= p < |ks| ==> ks[p] < i && DisconnectedKeys(utxos[..i], txids)[p] == CanonicalKey(utxos[ks[p]].outpoint)
    {
      assert utxos[..i + 1][..i] == utxos[..i];
      if IsDisconnected(utxos[i], txids) {
        ks := ks + [i];
      }
      i := i + 1;
    }
    assert utxos[..i] == utxos;
  }

  /** A replacement turns exactly the entries of the replaced transaction that were not replaced yet,
      clears their reservations, keeps every other entry, and appends the fresh replacements as seen. */
  lemma RbfLaw(utxos: seq<UtxoEntry>, txid: Text, replacements: seq<UtxoEntry>) returns (ks: seq<nat>)
    ensures FreshOnes(utxos, replacements, ks)
    ensures var after := Rbf(utxos, txid, replacements);
      && |after| == |utxos| + |ks|
      && (forall i :: 0 <= i < |utxos| && (utxos[i].outpoint.txid != txid || utxos[i].state == Replaced) ==> after[i] == utxos[i])
      && (forall i :: 0 <= i < |utxos| && utxos[i].outpoint.txid == txid && utxos[i].state != Replaced && utxos[i].reservedBy.Some? ==>
            after[i] == utxos[i].(state := Replaced, reservedBy := None, reservedAtBucket := None))
      && (forall i :: 0 <= i < |utxos| && utxos[i].outpoint.txid == txid && utxos[i].state != Replaced && utxos[i].reservedBy.None? ==>
            after[i] == utxos[i].(state := Replaced))
      && (forall p :: 0 <= p < |ks| ==> ks[p] < |replacements| && after[|utxos| + p] == replacements[ks[p]].(state := Seen))
  {
    var middle := ReplaceAll(utxos, txid);
    ks := AddedLaw(middle, replacements, SeenAsIs());
    SameOutpoints(utxos, middle, replacements, ks);
    var after := Rbf(utxos, txid, replacements);
    forall i | 0 <= i < |utxos| ensures after[i] == Replace(utxos[i], txid) {
      assert after[i] == middle[i];
    }
  }

  /** The holders a replacement releases are those of the entries it turns, in table order. */
  lemma {:induction false} ReleasedLaw(utxos: seq<UtxoEntry>, txid: Text) returns (ks: seq<nat>)
    ensures forall p, q :: 0 <= p < q < |ks| ==> ks[p] < ks[q]
    ensures forall k: nat :: k in ks <==>
      k < |utxos| && utxos[k].outpoint.txid == txid && utxos[k].state != Replaced && utxos[k].reservedBy.Some?
    ensures |ReleasedHolders(utxos, txid)| == |ks|
    ensures forall p :: 0 <= p < |ks| ==> ks[p] < |utxos| && Some(ReleasedHolders(utxos, txid)[p]) == utxos[ks[p]].reservedBy
  {
    ks := [];
    var i := 0;
    while i < |utxos|
      invariant i <= |utxos|
      invariant forall p, q :: 0 <= p < q < |ks| ==> ks[p] < ks[q]
      invariant forall k: nat :: k in ks <==>
        k < i && utxos[k].outpoint.txid == txid && utxos[k].state != Replaced && utxos[k].reservedBy.Some?
      invariant |ReleasedHolders(utxos[..i], txid)| == |ks|
      invariant forall p :: 0 <= p < |ks| ==> ks[p] < i && Some(ReleasedHolders(utxos[..i], txid)[p]) == utxos[ks[p]].reservedBy
    {
      assert utxos[..i + 1][..i] == utxos[..i];
      if utxos[i].outpoint.txid == txid && utxos[i].state != Replaced && utxos[i].reservedBy.Some? {
        ks := ks + [i];
      }
      i := i + 1;
    }
    assert utxos[..i] == utxos;
  }

  // ---------------------------------------------------------------- the commands that take these steps

  /** The step a command asks for, by its type: the outpoint is the key, and the commitment holds the
      payload, the block height, the holder or the spending transaction. */
  predicate Asks(env: Env, cmd: LedgerCommand, op: OutPoint, step: UtxoStep) {
    var text, bucket := cmd.authorizationCommitment, cmd.createdAtBucket;
    if cmd.commandType == ApplyChainReorganization then
      env.decodeReorg(text).Some? && step == Reorganize(env.decodeReorg(text).value, bucket)
    else
      && ParseOutPoint(cmd.partitionKey) == Ok(op)
      && (cmd.commandType == DetectUtxo ==>
            env.decodeDetect(text).Some? &&
            step == Detect(op, env.decodeDetect(text).value.valueSats, env.decodeDetect(text).value.address, bucket))
      && (cmd.commandType == ConfirmUtxo ==> ParseU64(text).Some? && step == Confirm(op, ParseU64(text).value, bucket))
      && (cmd.commandType == MarkUtxoSpendable ==> step == MarkSpendable(op))
      && (cmd.commandType == ReserveUtxoFor ==> step == ReserveUtxo(op, text, bucket))
      && (cmd.commandType == ReleaseUtxoOf ==> step == ReleaseUtxo(op))
      && (cmd.commandType == MarkUtxoSpent ==> step == MarkSpent(op, if text == [] then None else Some(text), bucket))
  }

  lemma AskedStep(env: Env, cmd: LedgerCommand, op: OutPoint, step: UtxoStep)
    requires IsUtxoCommand(cmd.commandType) && Asks(env, cmd, op, step)
    ensures DecodeStep(env, cmd) == Ok(step)
  {
  }

  /** A detection must be worth something and have an address, and a reservation must have a holder. */
  predicate Sensible(step: UtxoStep) {
    && (step.Detect? ==> step.valueSats > 0 && step.address != [])
    && (step.ReserveUtxo? ==> step.holder != [])
  }

  /** A UTXO command takes the step it asks for, one version later, or fails and changes nothing. */
  lemma UtxoCommandLaw(env: Env, s: LedgerState, cmd: LedgerCommand, op: OutPoint, step: UtxoStep)
    requires IsUtxoCommand(cmd.commandType) && Asks(env, cmd, op, step)
    ensures var (utxos, r) := StepUtxos(s.utxos, step);
      Transition(env, s, cmd) ==
        if !Sensible(step) then (s, Err(InvalidUtxoData))
        else if r.Err? then (s, Err(r.error))
        else (Stepped(s, s.accounts).(utxos := utxos), Ok([Ascii("utxo")]))
  {
    AskedStep(env, cmd, op, step);
    BumpIsPlus1(s.version);
    assert Effect(env, s, cmd) == EffectUtxo(env, s, cmd);
  }

  predicate Unreadable(env: Env, cmd: LedgerCommand) {
    || (cmd.commandType == ApplyChainReorganization && env.decodeReorg(cmd.authorizationCommitment).None?)
    || (cmd.commandType != ApplyChainReorganization && ParseOutPoint(cmd.partitionKey).Err?)
    || (cmd.commandType == DetectUtxo && env.decodeDetect(cmd.authorizationCommitment).None?)
    || (cmd.commandType == ConfirmUtxo && ParseU64(cmd.authorizationCommitment).None?)
  }

  /** A command whose key or payload cannot be read is refused. */
  lemma UnreadableLaw(env: Env, s: LedgerState, cmd: LedgerCommand)
    requires IsUtxoCommand(cmd.commandType)
    requires Unreadable(env, cmd)
    ensures Transition(env, s, cmd) == (s, Err(InvalidUtxoData))
  {
    assert DecodeStep(env, cmd).Err?;
  }
}
