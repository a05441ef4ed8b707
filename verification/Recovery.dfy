/** Snapshots, divergence recovery and catch-up (snapshot.rs, replication.rs). */
module Recovery {
  import opened Binary
  import opened LedgerTypes
  import opened Sequences
  import opened Ledger
  import opened StateRoot
  import opened StateMachine

  const MAX_REPLAY_COMMANDS: nat := 10000

  /** The fields of a certified snapshot that recovery reads. */
  datatype Snapshot = Snapshot(epoch: u64, sequence: u64, stateBytes: Bytes, stateRoot: Bytes)

  /** The certificate check and the JSON decoder of a stored state are left open. */
  datatype SnapshotEnv = SnapshotEnv(
    machine: Env,
    verifyBasic: Snapshot -> bool,
    decodeState: Bytes -> Option<LedgerState>)

  // ---------------------------------------------------------------- the store

  datatype SnapshotTable = SnapshotTable(snapshots: map<u64, Snapshot>, latestSequence: u64)

  const EMPTY_TABLE := SnapshotTable(map[], 0)

  function Save(env: SnapshotEnv, t: SnapshotTable, s: Snapshot): SnapshotTable {
    if !env.verifyBasic(s) then t
    else SnapshotTable(t.snapshots[s.sequence := s], if s.sequence > t.latestSequence then s.sequence else t.latestSequence)
  }

  function Latest(t: SnapshotTable): Option<Snapshot> {
    if t.latestSequence in t.snapshots then Some(t.snapshots[t.latestSequence]) else None
  }

  function SaveAll(env: SnapshotEnv, saves: seq<Snapshot>): SnapshotTable {
    if |saves| == 0 then EMPTY_TABLE else Save(env, SaveAll(env, saves[..|saves| - 1]), saves[|saves| - 1])
  }

  /** `saves[i]` is the newest save with the highest sequence among those that verify. */
  predicate IsHighest(env: SnapshotEnv, saves: seq<Snapshot>, i: nat)
    requires i < |saves|
  {
    && env.verifyBasic(saves[i])
    && (forall j :: 0 <= j < |saves| && env.verifyBasic(saves[j]) ==> saves[j].sequence <= saves[i].sequence)
    && (forall j :: i < j < |saves| && env.verifyBasic(saves[j]) ==> saves[j].sequence < saves[i].sequence)
  }

  /** The latest snapshot is the newest of the highest sequence, and is missing exactly when nothing
      that verifies was saved. */
  ghost predicate LatestExact(env: SnapshotEnv, saves: seq<Snapshot>, t: SnapshotTable) {
    && (Latest(t).None? <==> forall i :: 0 <= i < |saves| ==> !env.verifyBasic(saves[i]))
    && (Latest(t).Some? ==> exists i :: 0 <= i < |saves| && IsHighest(env, saves, i) && Latest(t).value == saves[i])
  }

  predicate Filed(t: SnapshotTable) {
    && (forall k :: k in t.snapshots ==> t.snapshots[k].sequence == k <= t.latestSequence)
    && (Latest(t).None? ==> t == EMPTY_TABLE)
  }

  lemma RefusedSave(env: SnapshotEnv, saves: seq<Snapshot>, t: SnapshotTable, s: Snapshot)
    requires LatestExact(env, saves, t) && !env.verifyBasic(s)
    ensures LatestExact(env, saves + [s], t)
  {
    var more := saves + [s];
    assert forall j :: 0 <= j < |saves| ==> more[j] == saves[j];
    if Latest(t).Some? {
      var i :| 0 <= i < |saves| && IsHighest(env, saves, i) && Latest(t).value == saves[i];
      assert IsHighest(env, more, i);
    }
  }

  lemma AcceptedSave(env: SnapshotEnv, saves: seq<Snapshot>, t: SnapshotTable, s: Snapshot)
    requires LatestExact(env, saves, t) && Filed(t) && env.verifyBasic(s)
    ensures LatestExact(env, saves + [s], Save(env, t, s)) && Filed(Save(env, t, s))
  {
    var more := saves + [s];
    assert forall j :: 0 <= j < |saves| ==> more[j] == saves[j];
    assert more[|saves|] == s;
    if Latest(t).Some? {
      var i :| 0 <= i < |saves| && IsHighest(env, saves, i) && Latest(t).value == saves[i];
      if s.sequence >= saves[i].sequence {
        assert IsHighest(env, more, |saves|);
      } else {
        assert IsHighest(env, more, i);
      }
    } else {
      assert IsHighest(env, more, |saves|);
    }
  }

  lemma SaveStep(env: SnapshotEnv, saves: seq<Snapshot>, t: SnapshotTable, s: Snapshot, more: seq<Snapshot>)
    requires LatestExact(env, saves, t) && Filed(t) && more == saves + [s]
    ensures LatestExact(env, more, Save(env, t, s)) && Filed(Save(env, t, s))
  {
    if env.verifyBasic(s) {
      AcceptedSave(env, saves, t, s);
    } else {
      RefusedSave(env, saves, t, s);
    }
  }

  /** After any saves, `latest_snapshot` is exact and every snapshot is filed under its sequence. */
  lemma {:induction false} LatestIsHighest(env: SnapshotEnv, saves: seq<Snapshot>)
    ensures LatestExact(env, saves, SaveAll(env, saves)) && Filed(SaveAll(env, saves))
  {
    if |saves| > 0 {
      var n := |saves| - 1;
      LatestIsHighest(env, saves[..n]);
      SaveStep(env, saves[..n], SaveAll(env, saves[..n]), saves[n], saves);
    }
  }

  class InMemorySnapshotStore {
    var snapshots: map<u64, Snapshot>
    var latestSequence: u64

    function Table(): SnapshotTable
      reads this
    {
      SnapshotTable(snapshots, latestSequence)
    }

    constructor ()
      ensures Table() == EMPTY_TABLE
    {
      snapshots, latestSequence := map[], 0;
    }

    method SaveSnapshot(env: SnapshotEnv, s: Snapshot) returns (r: Result<()>)
      modifies this
      ensures Table() == Save(env, old(Table()), s)
      ensures r.Ok? <==> env.verifyBasic(s)
    {
      if !env.verifyBasic(s) {
        return Err(InvalidSignature);
      }
      snapshots := snapshots[s.sequence := s];
      if s.sequence > latestSequence {
        latestSequence := s.sequence;
      }
      return Ok(());
    }

    method LatestSnapshot() returns (r: Option<Snapshot>)
      ensures r == Latest(Table())
    {
      if latestSequence in snapshots {
        return Some(snapshots[latestSequence]);
      }
      return None;
    }
  }

  /** `install_snapshot`: verify, decode, and compare the recomputed root. */
  function InstallState(env: SnapshotEnv, s: Snapshot): Result<LedgerState> {
    if !env.verifyBasic(s) then Err(InvalidSignature)
    else
      match env.decodeState(s.stateBytes)
      case None => Err(InvalidSignature)
      case Some(state) => if Root(env.machine.sha, state) != s.stateRoot then Err(StateRootMismatch) else Ok(state)
  }

  /** A snapshot installs exactly when it verifies and its bytes decode to a state with the root it
      claims; then that state is installed. */
  lemma InstallLaw(env: SnapshotEnv, s: Snapshot)
    ensures var decoded := env.decodeState(s.stateBytes);
      && (InstallState(env, s).Ok? <==> env.verifyBasic(s) && decoded.Some? && Root(env.machine.sha, decoded.value) == s.stateRoot)
      && (InstallState(env, s).Ok? ==> Some(InstallState(env, s).value) == decoded)
      && (env.verifyBasic(s) && decoded.Some? && Root(env.machine.sha, decoded.value) != s.stateRoot ==> InstallState(env, s) == Err(StateRootMismatch))
      && (!env.verifyBasic(s) || decoded.None? ==> InstallState(env, s) == Err(InvalidSignature))
  {
  }

  // ---------------------------------------------------------------- replay

  /** Applies commands until one is rejected. */
  function Replay(env: Env, s: LedgerState, cmds: seq<LedgerCommand>): (LedgerState, Result<()>)
    decreases |cmds|
  {
    if |cmds| == 0 then (s, Ok(()))
    else
      var (t, r) := Transition(env, s, cmds[0]);
      if r.Err? then (t, Err(r.error)) else Replay(env, t, cmds[1..])
  }

  lemma {:induction false} ReplayAppend(env: Env, s: LedgerState, a: seq<LedgerCommand>, b: seq<LedgerCommand>)
    ensures Replay(env, s, a).1.Ok? ==> Replay(env, s, a + b) == Replay(env, Replay(env, s, a).0, b)
    decreases |a|
  {
    if |a| == 0 {
      assert a + b == b;
    } else {
      assert (a + b)[0] == a[0] && (a + b)[1..] == a[1..] + b;
      ReplayAppend(env, Transition(env, s, a[0]).0, a[1..], b);
    }
  }

  function Plus(v: u64, n: nat): u64 {
    (v + n) % U64_SIZE
  }

  lemma VersionStep(env: Env, s: LedgerState, cmd: LedgerCommand)
    ensures var (t, r) := Transition(env, s, cmd); r.Ok? ==> t.version == Plus(s.version, 1)
  {
    BumpIsPlus(s.version);
  }

  lemma BumpIsPlus(v: u64)
    ensures Bump(v) == Plus(v, 1)
  {
  }

  lemma PlusPlus(v: u64, n: nat)
    ensures Plus(Plus(v, 1), n) == Plus(v, n + 1)
  {
    if v == U64_MAX {
      assert (v + n + 1) % U64_SIZE == n % U64_SIZE;
    }
  }

  /** The version counts the commands of a successful replay. */
  lemma {:induction false} ReplayCounts(env: Env, s: LedgerState, cmds: seq<LedgerCommand>)
    requires Replay(env, s, cmds).1.Ok?
    ensures Replay(env, s, cmds).0.version == Plus(s.version, |cmds|)
    decreases |cmds|
  {
    if |cmds| > 0 {
      var t := ReplayNext(env, s, cmds);
      ReplayCounts(env, t, cmds[1..]);
      PlusPlus(s.version, |cmds| - 1);
    }
  }

  /** The first command of a successful replay takes the version one on. */
  lemma ReplayNext(env: Env, s: LedgerState, cmds: seq<LedgerCommand>) returns (t: LedgerState)
    requires |cmds| > 0 && Replay(env, s, cmds).1.Ok?
    ensures t.version == Plus(s.version, 1) && Replay(env, s, cmds) == Replay(env, t, cmds[1..])
  {
    t := Transition(env, s, cmds[0]).0;
    VersionStep(env, s, cmds[0]);
  }

  lemma PlusDiffers(v: u64, a: nat, b: nat)
    requires a < b < a + U64_SIZE
    ensures Plus(v, a) != Plus(v, b)
  {
  }

  // ---------------------------------------------------------------- divergence recovery

  predicate FromEpoch(epoch: u64, cmd: LedgerCommand) {
    cmd.epoch >= epoch
  }

  function Since(epoch: u64, cmds: seq<LedgerCommand>): seq<LedgerCommand> {
    Filter(c => FromEpoch(epoch, c), cmds)
  }

  /** `recover_divergence`: install the latest snapshot, then replay by EPOCH, not by sequence. */
  function Recover(env: SnapshotEnv, latest: Option<Snapshot>, local: LedgerState, cmds: seq<LedgerCommand>): (LedgerState, Result<()>) {
    match latest
    case None => (local, Err(SnapshotNotFound(0)))
    case Some(snapshot) =>
      match InstallState(env, snapshot)
      case Err(e) => (local, Err(e))
      case Ok(restored) => Replay(env.machine, restored, Since(snapshot.epoch, cmds))
  }

  /** Recovery without a snapshot, or with one that does not install, fails and leaves the local state;
      otherwise the local state no longer matters. */
  lemma RecoverLaw(env: SnapshotEnv, latest: Option<Snapshot>, local: LedgerState, other: LedgerState, cmds: seq<LedgerCommand>)
    ensures latest.None? ==> Recover(env, latest, local, cmds) == (local, Err(SnapshotNotFound(0)))
    ensures latest.Some? && InstallState(env, latest.value).Err? ==>
      Recover(env, latest, local, cmds) == (local, Err(InstallState(env, latest.value).error))
    ensures latest.Some? && InstallState(env, latest.value).Ok? ==>
      Recover(env, latest, local, cmds) == Recover(env, latest, other, cmds)
  {
  }

  lemma {:induction false} SinceAppend(epoch: u64, a: seq<LedgerCommand>, b: seq<LedgerCommand>)
    ensures Since(epoch, a + b) == Since(epoch, a) + Since(epoch, b)
  {
    if |a| == 0 {
      assert a + b == b;
    } else {
      assert (a + b)[1..] == a[1..] + b;
      SinceAppend(epoch, a[1..], b);
    }
  }

  lemma {:induction false} SinceAll(epoch: u64, cmds: seq<LedgerCommand>)
    requires forall i :: 0 <= i < |cmds| ==> cmds[i].epoch >= epoch
    ensures Since(epoch, cmds) == cmds
  {
    if |cmds| > 0 {
      SinceAll(epoch, cmds[1..]);
    }
  }

  lemma {:induction false} SinceNone(epoch: u64, cmds: seq<LedgerCommand>)
    ensures |Since(epoch, cmds)| <= |cmds|
    ensures Since(epoch, cmds) == [] <==> forall i :: 0 <= i < |cmds| ==> cmds[i].epoch < epoch
  {
    if |cmds| > 0 {
      SinceNone(epoch, cmds[1..]);
      assert forall i :: 0 < i < |cmds| ==> cmds[i] == cmds[1..][i - 1];
    }
  }

  /** The snapshot holds the state the log reaches after `past`. */
  predicate Captures(env: SnapshotEnv, snapshot: Snapshot, genesis: LedgerState, past: seq<LedgerCommand>) {
    Replay(env.machine, genesis, past).1.Ok? && InstallState(env, snapshot) == Ok(Replay(env.machine, genesis, past).0)
  }

  /** If every command before the snapshot has a smaller epoch and every later one does not, recovery
      ends exactly where uninterrupted replay of the whole log ends, with the same result, whatever
      the diverged local state was. */
  lemma RecoveryExact(env: SnapshotEnv, snapshot: Snapshot, genesis: LedgerState, local: LedgerState,
                      past: seq<LedgerCommand>, rest: seq<LedgerCommand>)
    requires Captures(env, snapshot, genesis, past)
    requires forall i :: 0 <= i < |past| ==> past[i].epoch < snapshot.epoch
    requires forall i :: 0 <= i < |rest| ==> rest[i].epoch >= snapshot.epoch
    ensures Recover(env, Some(snapshot), local, past + rest) == Replay(env.machine, genesis, past + rest)
  {
    SinceAppend(snapshot.epoch, past, rest);
    SinceNone(snapshot.epoch, past);
    SinceAll(snapshot.epoch, rest);
    assert [] + rest == rest;
    ReplayAppend(env.machine, genesis, past, rest);
  }

  /** On a log with non-decreasing epochs that the cluster replayed without error, recovery is exact if
      and only if no command before the snapshot carries the snapshot's own epoch: such a command
      would be applied twice. */
  lemma RecoveryExactIff(env: SnapshotEnv, snapshot: Snapshot, genesis: LedgerState, local: LedgerState,
                         past: seq<LedgerCommand>, rest: seq<LedgerCommand>)
    requires |past| < U64_SIZE
    requires Captures(env, snapshot, genesis, past)
    requires forall i :: 0 <= i < |past| ==> past[i].epoch <= snapshot.epoch
    requires forall i :: 0 <= i < |rest| ==> rest[i].epoch >= snapshot.epoch
    requires Replay(env.machine, genesis, past + rest).1.Ok?
    ensures Recover(env, Some(snapshot), local, past + rest) == Replay(env.machine, genesis, past + rest)
      <==> forall i :: 0 <= i < |past| ==> past[i].epoch != snapshot.epoch
  {
    var epoch := snapshot.epoch;
    if forall i :: 0 <= i < |past| ==> past[i].epoch != epoch {
      RecoveryExact(env, snapshot, genesis, local, past, rest);
    } else {
      var i :| 0 <= i < |past| && past[i].epoch == epoch;
      var restored := Replay(env.machine, genesis, past).0;
      var again := Since(epoch, past);
      SinceAppend(epoch, past, rest);
      SinceNone(epoch, past);
      assert !(past[i].epoch < epoch);
      SinceAll(epoch, rest);
      ReplayAppend(env.machine, genesis, past, rest);
      ReplayCounts(env.machine, restored, rest);
      if Replay(env.machine, restored, again + rest).1.Ok? {
        ReplayCounts(env.machine, restored, again + rest);
        PlusDiffers(restored.version, |rest|, |again + rest|);
      }
    }
  }

  /** The intent `a`, consumed in some epoch. */
  function ConsumeA(epoch: u64): LedgerCommand {
    LedgerCommand([], ConsumeIntent, [97], None, [], [], epoch, 0)
  }

  lemma {:induction false} IntentsReplay(env: Env, s: LedgerState, cmds: seq<LedgerCommand>)
    requires forall i :: 0 <= i < |cmds| ==> cmds[i].commandType == ConsumeIntent
    ensures Replay(env, s, cmds).1.Ok?
    decreases |cmds|
  {
    if |cmds| > 0 {
      IntentsReplay(env, Transition(env, s, cmds[0]).0, cmds[1..]);
    }
  }

  /** A snapshot of any state, in an environment that trusts and decodes it. */
  function Taken(epoch: u64, state: LedgerState, machine: Env): Snapshot {
    Snapshot(epoch, 0, [], Root(machine.sha, state))
  }

  function Trusting(machine: Env, state: LedgerState): SnapshotEnv {
    SnapshotEnv(machine, (s: Snapshot) => true, (b: Bytes) => Some(state))
  }

  lemma TakenInstalls(machine: Env, epoch: u64, state: LedgerState)
    ensures InstallState(Trusting(machine, state), Taken(epoch, state, machine)) == Ok(state)
  {
  }

  lemma PastTwice(env: SnapshotEnv, snapshot: Snapshot, genesis: LedgerState, local: LedgerState,
                  past: seq<LedgerCommand>, rest: seq<LedgerCommand>, log: seq<LedgerCommand>, i: nat)
    requires |past| < U64_SIZE && i < |past| && past[i].epoch == snapshot.epoch
    requires forall k :: 0 <= k < |past| ==> past[k].epoch <= snapshot.epoch
    requires rest == [] && log == past + rest && log == past
    requires Captures(env, snapshot, genesis, past)
    ensures Recover(env, Some(snapshot), local, log) != Replay(env.machine, genesis, log)
  {
    RecoveryExactIff(env, snapshot, genesis, local, past, rest);
  }

  lemma IntentsTwice(machine: Env, genesis: LedgerState, local: LedgerState, past: seq<LedgerCommand>, state: LedgerState)
    requires 0 < |past| < U64_SIZE
    requires forall k :: 0 <= k < |past| ==> past[k].commandType == ConsumeIntent && past[k].epoch == 1
    requires state == Replay(machine, genesis, past).0
    ensures var env, snapshot := Trusting(machine, state), Taken(1, state, machine);
      && Captures(env, snapshot, genesis, past)
      && Recover(env, Some(snapshot), local, past) != Replay(machine, genesis, past)
  {
    IntentsReplay(machine, genesis, past);
    TakenInstalls(machine, 1, state);
    assert past + [] == past;
    PastTwice(Trusting(machine, state), Taken(1, state, machine), genesis, local, past, [], past, 0);
  }

  /** One intent consumed in epoch 1 and a snapshot of epoch 1 taken after it: recovery consumes the
      intent again and ends elsewhere than replay. */
  lemma RecoveryAppliesTwice(machine: Env, genesis: LedgerState, local: LedgerState)
    ensures var past := [ConsumeA(1)];
      var state := Replay(machine, genesis, past).0;
      var env, snapshot := Trusting(machine, state), Taken(1, state, machine);
      && Captures(env, snapshot, genesis, past)
      && Recover(env, Some(snapshot), local, past) != Replay(machine, genesis, past)
  {
    IntentsTwice(machine, genesis, local, [ConsumeA(1)], Replay(machine, genesis, [ConsumeA(1)]).0);
  }

  /** A credit of nothing to `a` at version 0, in epoch 1. */
  const FIRST_CREDIT := LedgerCommand([], CreditInternalBalance, [97], Some(0), [], [48], 1, 0)

  lemma FirstCredit(machine: Env, s: LedgerState)
    requires s.accounts == []
    ensures var (t, r) := Transition(machine, s, FIRST_CREDIT);
      r.Ok? && Transition(machine, t, FIRST_CREDIT) == (t, Err(VersionConflict([97], 0, 1)))
  {
    var (t, r) := EffectBalance(s, FIRST_CREDIT);
    assert FindAccount(s.accounts, [97]).None?;
    assert t.accounts == [t.accounts[0]] && t.accounts[0].accountId == [97] && t.accounts[0].version == 1;
    assert FindAccount(t.accounts, [97]) == Some(0);
  }

  lemma OneCommand(machine: Env, s: LedgerState, past: seq<LedgerCommand>)
    requires |past| == 1
    ensures var (t, r) := Transition(machine, s, past[0]);
      Replay(machine, s, past) == (t, if r.Ok? then Ok(()) else Err(r.error))
  {
    assert past[1..] == [];
  }

  lemma RepeatFails(machine: Env, genesis: LedgerState, past: seq<LedgerCommand>, state: LedgerState, e: LedgerError)
    requires |past| == 1
    requires Transition(machine, genesis, past[0]).1.Ok? && Transition(machine, genesis, past[0]).0 == state
    requires Transition(machine, state, past[0]) == (state, Err(e))
    ensures Replay(machine, genesis, past) == (state, Ok(()))
    ensures Replay(machine, genesis, past + past) == (state, Err(e))
    ensures Replay(machine, state, past + past) == (state, Err(e))
  {
    OneCommand(machine, genesis, past);
    OneCommand(machine, state, past);
    ReplayAppend(machine, genesis, past, past);
    ReplayStops(machine, state, past, past);
  }

  /** A log that repeats a command which then fails on the spot: recovery fails at the first copy with
      the state and error replay has at the second. */
  lemma FailsAlike(machine: Env, genesis: LedgerState, local: LedgerState, past: seq<LedgerCommand>, state: LedgerState, e: LedgerError)
    requires |past| == 1 && past[0].epoch == 1
    requires Transition(machine, genesis, past[0]).1.Ok? && Transition(machine, genesis, past[0]).0 == state
    requires Transition(machine, state, past[0]) == (state, Err(e))
    ensures var env, snapshot := Trusting(machine, state), Taken(1, state, machine);
      && Captures(env, snapshot, genesis, past)
      && Replay(machine, genesis, past + past) == (state, Err(e))
      && Recover(env, Some(snapshot), local, past + past) == (state, Err(e))
  {
    TakenInstalls(machine, 1, state);
    RepeatFails(machine, genesis, past, state, e);
    SinceAll(1, past + past);
  }

  /** Why the replay has to succeed for the converse: here a command before the snapshot has its epoch,
      the replay fails, and recovery agrees with it all the same. */
  lemma FailedReplayMayAgree(machine: Env, genesis: LedgerState, local: LedgerState)
    requires genesis.accounts == []
    ensures var past := [FIRST_CREDIT];
      var state := Transition(machine, genesis, FIRST_CREDIT).0;
      var env, snapshot := Trusting(machine, state), Taken(1, state, machine);
      && Captures(env, snapshot, genesis, past) && past[0].epoch == snapshot.epoch
      && Replay(machine, genesis, past + past).1.Err?
      && Recover(env, Some(snapshot), local, past + past) == Replay(machine, genesis, past + past)
  {
    FirstCredit(machine, genesis);
    FailsAlike(machine, genesis, local, [FIRST_CREDIT], Transition(machine, genesis, FIRST_CREDIT).0, VersionConflict([97], 0, 1));
  }

  method RecoverDivergence(env: SnapshotEnv, store: InMemorySnapshotStore, machine: LedgerMachine,
                           quarantined: bool, commands: seq<LedgerCommand>) returns (r: Result<()>)
    requires machine.env == env.machine
    modifies machine
    ensures !quarantined ==> machine.State() == old(machine.State()) && r == Err(QuarantineFailed)
    ensures quarantined ==> (machine.State(), r) == Recover(env, Latest(store.Table()), old(machine.State()), commands)
  {
    if !quarantined {
      return Err(QuarantineFailed);
    }
    var latest := store.LatestSnapshot();
    if latest.None? {
      return Err(SnapshotNotFound(0));
    }
    var installed := InstallState(env, latest.value);
    if installed.Err? {
      return Err(installed.error);
    }
    machine.Install(installed.value);
    var later := Since(latest.value.epoch, commands);
    r := ReplayAll(machine, later);
  }

  method ReplayAll(machine: LedgerMachine, commands: seq<LedgerCommand>) returns (r: Result<()>)
    modifies machine
    ensures (machine.State(), r) == Replay(machine.env, old(machine.State()), commands)
  {
    var i := 0;
    while i < |commands|
      invariant i <= |commands|
      invariant Replay(machine.env, machine.State(), commands[i..]) == Replay(machine.env, old(machine.State()), commands)
    {
      assert commands[i..][0] == commands[i] && commands[i..][1..] == commands[i + 1..];
      var applied := machine.ApplyCommand(commands[i]);
      if applied.Err? {
        return Err(applied.error);
      }
      i := i + 1;
    }
    return Ok(());
  }

  // ---------------------------------------------------------------- catch-up

  /** `execute_catch_up`: a long gap installs the latest snapshot, and then replays ALL commands.  When
      the sync manager refuses to start, the snapshot is already installed. */
  function CatchUp(env: SnapshotEnv, latest: Option<Snapshot>, local: LedgerState, from: u64, startOk: bool, cmds: seq<LedgerCommand>): (LedgerState, Result<()>) {
    if |cmds| > MAX_REPLAY_COMMANDS then
      match latest
      case None => (local, Err(SnapshotNotFound(from)))
      case Some(snapshot) =>
        match InstallState(env, snapshot)
        case Err(e) => (local, Err(e))
        case Ok(restored) => if !startOk then (restored, Err(CatchUpRefused)) else Replay(env.machine, restored, cmds)
    else if !startOk then (local, Err(CatchUpRefused))
    else Replay(env.machine, local, cmds)
  }

  method ExecuteCatchUp(env: SnapshotEnv, store: InMemorySnapshotStore, machine: LedgerMachine,
                        from: u64, startOk: bool, commands: seq<LedgerCommand>) returns (r: Result<()>)
    requires machine.env == env.machine
    modifies machine
    ensures (machine.State(), r) == CatchUp(env, Latest(store.Table()), old(machine.State()), from, startOk, commands)
  {
    if |commands| > MAX_REPLAY_COMMANDS {
      var latest := store.LatestSnapshot();
      if latest.None? {
        return Err(SnapshotNotFound(from));
      }
      var installed := InstallState(env, latest.value);
      if installed.Err? {
        return Err(installed.error);
      }
      machine.Install(installed.value);
    }
    if !startOk {
      return Err(CatchUpRefused);
    }
    r := ReplayAll(machine, commands);
  }

  lemma {:induction false} ReplayStops(env: Env, s: LedgerState, a: seq<LedgerCommand>, b: seq<LedgerCommand>)
    requires Replay(env, s, a).1.Err?
    ensures Replay(env, s, a + b) == Replay(env, s, a)
    decreases |a|
  {
    assert (a + b)[0] == a[0] && (a + b)[1..] == a[1..] + b;
    var (t, r) := Transition(env, s, a[0]);
    if r.Ok? {
      ReplayStops(env, t, a[1..], b);
    }
  }

  lemma ReplayFirst(env: Env, s: LedgerState, a: seq<LedgerCommand>, b: seq<LedgerCommand>)
    requires Replay(env, s, a + b).1.Ok?
    ensures Replay(env, s, a).1.Ok?
  {
    if Replay(env, s, a).1.Err? {
      ReplayStops(env, s, a, b);
    }
  }

  lemma ReplayPrefix(env: Env, s: LedgerState, cmds: seq<LedgerCommand>, k: nat)
    requires k <= |cmds| && Replay(env, s, cmds).1.Ok?
    ensures Replay(env, s, cmds[..k]).1.Ok?
  {
    assert cmds[..k] + cmds[k..] == cmds;
    ReplayFirst(env, s, cmds[..k], cmds[k..]);
  }

  /** Up to 10000 commands are replayed on the local state; more need a snapshot that installs.  A sync
      manager that refuses stops either after that. */
  lemma CatchUpLaw(env: SnapshotEnv, latest: Option<Snapshot>, local: LedgerState, from: u64, cmds: seq<LedgerCommand>)
    ensures |cmds| <= 10000 ==>
      CatchUp(env, latest, local, from, true, cmds) == Replay(env.machine, local, cmds) &&
      CatchUp(env, latest, local, from, false, cmds) == (local, Err(CatchUpRefused))
    ensures |cmds| > 10000 && latest.None? ==>
      forall startOk :: CatchUp(env, latest, local, from, startOk, cmds) == (local, Err(SnapshotNotFound(from)))
    ensures |cmds| > 10000 && latest.Some? && InstallState(env, latest.value).Err? ==>
      forall startOk :: CatchUp(env, latest, local, from, startOk, cmds) == (local, Err(InstallState(env, latest.value).error))
    ensures |cmds| > 10000 && latest.Some? && InstallState(env, latest.value).Ok? ==>
      CatchUp(env, latest, local, from, false, cmds) == (InstallState(env, latest.value).value, Err(CatchUpRefused))
  {
  }

  /** Whatever state the snapshot holds, a catch-up through it can end where plain replay of the missing
      commands ends only if that state has the version of the local one. */
  lemma CatchUpNeedsVersion(env: SnapshotEnv, snapshot: Snapshot, local: LedgerState, from: u64, startOk: bool, cmds: seq<LedgerCommand>)
    requires |cmds| > MAX_REPLAY_COMMANDS
    requires Replay(env.machine, local, cmds).1.Ok?
    requires InstallState(env, snapshot).Ok?
    requires CatchUp(env, Some(snapshot), local, from, startOk, cmds) == Replay(env.machine, local, cmds)
    ensures startOk && InstallState(env, snapshot).value.version == local.version
  {
    var restored := InstallState(env, snapshot).value;
    ReplayCounts(env.machine, restored, cmds);
    ReplayCounts(env.machine, local, cmds);
    PlusInjective(restored.version, local.version, |cmds|);
  }

  lemma PlusInjective(a: u64, b: u64, n: nat)
    requires Plus(a, n) == Plus(b, n)
    ensures a == b
  {
  }

  /** A snapshot that already holds the first `k` missing commands: catch-up ends where plain replay of
      the missing commands ends if and only if it starts and `k` is zero.  Otherwise it applies the
      first `k` again. */
  lemma CatchUpExactIff(env: SnapshotEnv, snapshot: Snapshot, local: LedgerState, from: u64, startOk: bool, cmds: seq<LedgerCommand>, k: nat)
    requires MAX_REPLAY_COMMANDS < |cmds| < U64_SIZE && k <= |cmds|
    requires Replay(env.machine, local, cmds).1.Ok?
    requires InstallState(env, snapshot) == Ok(Replay(env.machine, local, cmds[..k]).0)
    ensures CatchUp(env, Some(snapshot), local, from, startOk, cmds) == Replay(env.machine, local, cmds) <==> startOk && k == 0
  {
    ReplayPrefix(env.machine, local, cmds, k);
    ReplayCounts(env.machine, local, cmds[..k]);
    PlusZero(local.version, k);
    assert k == 0 ==> Replay(env.machine, local, cmds[..k]).0 == local;
    if CatchUp(env, Some(snapshot), local, from, startOk, cmds) == Replay(env.machine, local, cmds) {
      CatchUpNeedsVersion(env, snapshot, local, from, startOk, cmds);
    }
  }

  /** A snapshot older than the local state by the commands `older`: catch-up ends where plain replay
      does if and only if it starts and there are none.  Otherwise it has lost them. */
  lemma OldSnapshotExactIff(env: SnapshotEnv, snapshot: Snapshot, restored: LedgerState, older: seq<LedgerCommand>,
                            local: LedgerState, from: u64, startOk: bool, cmds: seq<LedgerCommand>)
    requires MAX_REPLAY_COMMANDS < |cmds| && |older| < U64_SIZE
    requires InstallState(env, snapshot) == Ok(restored)
    requires Replay(env.machine, restored, older) == (local, Ok(()))
    requires Replay(env.machine, local, cmds).1.Ok?
    ensures CatchUp(env, Some(snapshot), local, from, startOk, cmds) == Replay(env.machine, local, cmds) <==> startOk && older == []
  {
    ReplayCounts(env.machine, restored, older);
    PlusZero(restored.version, |older|);
    if CatchUp(env, Some(snapshot), local, from, startOk, cmds) == Replay(env.machine, local, cmds) {
      CatchUpNeedsVersion(env, snapshot, local, from, startOk, cmds);
    }
  }

  lemma PlusZero(v: u64, k: nat)
    requires k < U64_SIZE
    ensures Plus(v, k) == v <==> k == 0
  {
  }

  /** Ten thousand and one intents to catch up with, and a snapshot taken after the first: catch-up ends
      elsewhere than replay. */
  lemma CatchUpAppliesTwice(machine: Env, local: LedgerState, from: u64)
    ensures var cmds := seq(10001, _ => ConsumeA(0));
      var state := Replay(machine, local, cmds[..1]).0;
      CatchUp(Trusting(machine, state), Some(Taken(0, state, machine)), local, from, true, cmds) != Replay(machine, local, cmds)
  {
    var cmds := seq(10001, _ => ConsumeA(0));
    var state := Replay(machine, local, cmds[..1]).0;
    IntentsReplay(machine, local, cmds);
    TakenInstalls(machine, 0, state);
    CatchUpExactIff(Trusting(machine, state), Taken(0, state, machine), local, from, true, cmds, 1);
  }
}
