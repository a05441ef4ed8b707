/** Safety of the tracked outputs over whole runs that mix ledger commands, store operations,
    reorganizations and replacements. */
module UtxoRuns {
  import opened Binary
  import opened LedgerTypes
  import opened Chain
  import opened ChainLemmas
  import opened Ledger

  function RunUtxos(utxos: seq<UtxoEntry>, steps: seq<UtxoStep>): seq<UtxoEntry> {
    if |steps| == 0 then utxos else StepUtxos(RunUtxos(utxos, steps[..|steps| - 1]), steps[|steps| - 1]).0
  }

  /** The outputs just before step `i`. */
  function Before(utxos: seq<UtxoEntry>, steps: seq<UtxoStep>, i: nat): seq<UtxoEntry>
    requires i <= |steps|
  {
    RunUtxos(utxos, steps[..i])
  }

  lemma BeforeNext(utxos: seq<UtxoEntry>, steps: seq<UtxoStep>, i: nat)
    requires i < |steps|
    ensures Before(utxos, steps, i + 1) == StepUtxos(Before(utxos, steps, i), steps[i]).0
  {
    assert steps[..i + 1][..i] == steps[..i];
  }

  // ---------------------------------------------------------------- one step, one entry

  /** Reserved, or past the point where it can be reserved. */
  predicate Held(u: UtxoEntry) {
    u.reservedBy.Some? || IsTerminal(u.state)
  }

  /** What a step may do to an entry that is already there. */
  predicate Evolves(u: UtxoEntry, v: UtxoEntry, step: UtxoStep) {
    && v.outpoint == u.outpoint && v.valueSats == u.valueSats && v.address == u.address
    && (IsTerminal(u.state) ==> IsTerminal(v.state))
    && (Held(u) && !(step.ReleaseUtxo? && step.outpoint == u.outpoint) ==> Held(v))
  }

  /** Entries keep their position, and each evolves. */
  lemma StepEvolves(utxos: seq<UtxoEntry>, step: UtxoStep, k: nat)
    requires k < |utxos|
    ensures var r := StepUtxos(utxos, step).0; k < |r| && Evolves(utxos[k], r[k], step)
  {
    var r := StepUtxos(utxos, step).0;
    if step.Reorganize? {
      assert DisconnectAll(utxos, step.payload.disconnectedTxids)[k] == r[k];
    } else if step.ReplaceByFee? {
      assert ReplaceAll(utxos, step.txid)[k] == r[k];
    }
  }

  lemma {:induction false} UniquePosition(utxos: seq<UtxoEntry>, k: nat)
    requires UniqueOutpoints(utxos) && k < |utxos|
    ensures FindUtxo(utxos, utxos[k].outpoint) == Some(k)
  {
  }

  lemma {:induction false} RunUnique(utxos: seq<UtxoEntry>, steps: seq<UtxoStep>)
    requires UniqueOutpoints(utxos)
    ensures UniqueOutpoints(RunUtxos(utxos, steps))
  {
    if |steps| > 0 {
      RunUnique(utxos, steps[..|steps| - 1]);
      StepKeepsUnique(RunUtxos(utxos, steps[..|steps| - 1]), steps[|steps| - 1]);
    }
  }

  // ---------------------------------------------------------------- whole runs

  /** From step `i` on, an entry keeps its place, outpoint, value and address, and a terminal entry
      stays terminal. */
  lemma {:induction false} RunFreezes(utxos: seq<UtxoEntry>, steps: seq<UtxoStep>, i: nat, j: nat, k: nat)
    requires i <= j <= |steps|
    requires k < |Before(utxos, steps, i)|
    ensures k < |Before(utxos, steps, j)|
    ensures var u, v := Before(utxos, steps, i)[k], Before(utxos, steps, j)[k];
      && v.outpoint == u.outpoint && v.valueSats == u.valueSats && v.address == u.address
      && (IsTerminal(u.state) ==> IsTerminal(v.state))
    decreases j
  {
    if i < j {
      RunFreezes(utxos, steps, i, j - 1, k);
      BeforeNext(utxos, steps, j - 1);
      StepEvolves(Before(utxos, steps, j - 1), steps[j - 1], k);
    }
  }

  /** Step `i` turns the output `op` from anything else into `Spent`. */
  predicate SpendsAt(utxos: seq<UtxoEntry>, steps: seq<UtxoStep>, i: nat, op: OutPoint)
    requires i < |steps|
  {
    var before, after := Before(utxos, steps, i), Before(utxos, steps, i + 1);
    var at := FindUtxo(before, op);
    at.Some? && before[at.value].state != Spent && at.value < |after| && after[at.value].state == Spent
  }

  /** Only a live output becomes spent. */
  lemma SpendsFromLive(utxos: seq<UtxoEntry>, step: UtxoStep, k: nat)
    requires k < |utxos| && utxos[k].state != Spent
    ensures var r := StepUtxos(utxos, step).0; k < |r| && (r[k].state == Spent ==> !IsTerminal(utxos[k].state))
  {
    StepEvolves(utxos, step, k);
    var r := StepUtxos(utxos, step).0;
    if step.Reorganize? {
      assert DisconnectAll(utxos, step.payload.disconnectedTxids)[k] == r[k];
    } else if step.ReplaceByFee? {
      assert ReplaceAll(utxos, step.txid)[k] == r[k];
    }
  }

  lemma SpentAtMostOnce(utxos: seq<UtxoEntry>, steps: seq<UtxoStep>, op: OutPoint)
    requires UniqueOutpoints(utxos)
    ensures forall i, j :: 0 <= i < j < |steps| && SpendsAt(utxos, steps, i, op) ==> !SpendsAt(utxos, steps, j, op)
  {
    forall i, j | 0 <= i < j < |steps| && SpendsAt(utxos, steps, i, op)
      ensures !SpendsAt(utxos, steps, j, op)
    {
      var k := FindUtxo(Before(utxos, steps, i), op).value;
      RunFreezes(utxos, steps, i, j, k);
      RunFreezes(utxos, steps, i + 1, j, k);
      RunUnique(utxos, steps[..j]);
      UniquePosition(Before(utxos, steps, j), k);
      BeforeNext(utxos, steps, j);
      if Before(utxos, steps, j)[k].state != Spent {
        SpendsFromLive(Before(utxos, steps, j), steps[j], k);
      }
    }
  }

  predicate ReservesAt(utxos: seq<UtxoEntry>, steps: seq<UtxoStep>, i: nat, op: OutPoint)
    requires i < |steps|
  {
    steps[i].ReserveUtxo? && steps[i].outpoint == op && StepUtxos(Before(utxos, steps, i), steps[i]).1.Ok?
  }

  predicate ReleasesAt(utxos: seq<UtxoEntry>, steps: seq<UtxoStep>, i: nat, op: OutPoint)
    requires i < |steps|
  {
    steps[i].ReleaseUtxo? && steps[i].outpoint == op && StepUtxos(Before(utxos, steps, i), steps[i]).1.Ok?
  }

  /** Without a successful release in between, a held output stays held. */
  lemma {:induction false} HeldUntilReleased(utxos: seq<UtxoEntry>, steps: seq<UtxoStep>, i: nat, j: nat, k: nat, op: OutPoint)
    requires UniqueOutpoints(utxos)
    requires i <= j <= |steps|
    requires k < |Before(utxos, steps, i)|
    requires Before(utxos, steps, i)[k].outpoint == op && Held(Before(utxos, steps, i)[k])
    requires forall m :: i <= m < j ==> !ReleasesAt(utxos, steps, m, op)
    ensures k < |Before(utxos, steps, j)| && Before(utxos, steps, j)[k].outpoint == op
    ensures Held(Before(utxos, steps, j)[k])
    decreases j
  {
    if i < j {
      HeldUntilReleased(utxos, steps, i, j - 1, k, op);
      BeforeNext(utxos, steps, j - 1);
      var before := Before(utxos, steps, j - 1);
      StepEvolves(before, steps[j - 1], k);
      RunUnique(utxos, steps[..j - 1]);
      UniquePosition(before, k);
      assert !ReleasesAt(utxos, steps, j - 1, op);
    }
  }

  /** Between two successful reservations of one output there is a successful release of it. */
  lemma ReleaseBetweenReserves(utxos: seq<UtxoEntry>, steps: seq<UtxoStep>, i: nat, j: nat, op: OutPoint)
    requires UniqueOutpoints(utxos)
    requires i < j < |steps|
    requires ReservesAt(utxos, steps, i, op) && ReservesAt(utxos, steps, j, op)
    ensures exists m :: i < m < j && ReleasesAt(utxos, steps, m, op)
  {
    if forall m :: i < m < j ==> !ReleasesAt(utxos, steps, m, op) {
      var k := FindUtxo(Before(utxos, steps, i), op).value;
      BeforeNext(utxos, steps, i);
      HeldUntilReleased(utxos, steps, i + 1, j, k, op);
      RunUnique(utxos, steps[..j]);
      UniquePosition(Before(utxos, steps, j), k);
      assert false;
    }
  }

  // ---------------------------------------------------------------- the ledger as a source of steps

  /** The steps a log of ledger commands takes on the outputs. */
  function StepsOf(env: Env, s: LedgerState, cmds: seq<LedgerCommand>): seq<UtxoStep> {
    if |cmds| == 0 then []
    else
      var n := |cmds| - 1;
      var earlier := StepsOf(env, s, cmds[..n]);
      if IsUtxoCommand(cmds[n].commandType) && RunResult(env, s, cmds, n).Ok? then
        earlier + [DecodeStep(env, cmds[n]).value]
      else earlier
  }

  lemma UtxoEffect(env: Env, s: LedgerState, cmd: LedgerCommand)
    ensures var (t, r) := Transition(env, s, cmd);
      if IsUtxoCommand(cmd.commandType) && r.Ok? then
        DecodeStep(env, cmd).Ok? && t.utxos == StepUtxos(s.utxos, DecodeStep(env, cmd).value).0
      else t.utxos == s.utxos
  {
  }

  /** One more command takes its step, or none. */
  lemma StepsNext(env: Env, s: LedgerState, cmds: seq<LedgerCommand>)
    requires |cmds| > 0
    ensures var n := |cmds| - 1;
      var before, after := RunState(env, s, cmds[..n]).utxos, RunState(env, s, cmds).utxos;
      var earlier, all := StepsOf(env, s, cmds[..n]), StepsOf(env, s, cmds);
      (all == earlier && after == before) ||
      (exists step :: all == earlier + [step] && after == StepUtxos(before, step).0)
  {
    var n := |cmds| - 1;
    UtxoEffect(env, RunState(env, s, cmds[..n]), cmds[n]);
  }

  lemma {:induction false} RunUtxosSnoc(utxos: seq<UtxoEntry>, steps: seq<UtxoStep>, step: UtxoStep)
    ensures RunUtxos(utxos, steps + [step]) == StepUtxos(RunUtxos(utxos, steps), step).0
  {
    assert (steps + [step])[..|steps|] == steps;
  }

  /** Every run of the ledger is a run of steps, so all of the above holds of it. */
  lemma {:induction false} LedgerRunsAreUtxoRuns(env: Env, s: LedgerState, cmds: seq<LedgerCommand>)
    ensures RunState(env, s, cmds).utxos == RunUtxos(s.utxos, StepsOf(env, s, cmds))
  {
    if |cmds| > 0 {
      LedgerRunsAreUtxoRuns(env, s, cmds[..|cmds| - 1]);
      StepsNext(env, s, cmds);
      var earlier, all := StepsOf(env, s, cmds[..|cmds| - 1]), StepsOf(env, s, cmds);
      if all != earlier {
        RunUtxosSnoc(s.utxos, earlier, all[|earlier|]);
      }
    }
  }
}
