/** What holds of a node in every run, restarts and lost saves included. */
module NodeRuns {
  import opened Binary
  import opened Membership
  import opened MembershipRuns
  import opened Discovery
  import opened DiscoveryLaws
  import opened Node

  /** One call, with what the clock, the random source and the disk did during it.  A crash inside a
      call is the call with its later saves lost, followed by a restart; a start that fails changes no
      file and so is no event. */
  datatype NodeEvent =
    | Challenge(challenge: Text, now: u64)
    | Meet(hello: PeerHello, now: u64, storeOk: bool, saveOk: bool, activeSaveOk: bool)
    | Submit(manifest: Manifest, appendOk: bool, now: u64, saveOk: bool)
    | Synchronize(snapshot: StateSnapshot, saveOk: bool, now: u64, activeSaveOk: bool)
    | AskReadiness(now: u64)
    | Restart

  function NodeStep(cfg: NodeConfig, s: NodeState, e: NodeEvent): NodeState {
    match e
    case Challenge(c, now) => s.(pending := Issued(TtlOf(cfg), s.pending, c, now))
    case Meet(hello, now, storeOk, saveOk, activeSaveOk) => MeetPeer(cfg, s, hello, now, storeOk, saveOk, activeSaveOk).0
    case Submit(m, appendOk, now, saveOk) => TakeManifest(cfg, s, m, appendOk, now, saveOk).0
    case Synchronize(snapshot, saveOk, now, activeSaveOk) => TakeSnapshot(cfg, s, snapshot, saveOk, now, activeSaveOk).0
    case AskReadiness(now) => Refresh(cfg, s, now)
    case Restart =>
      match Start(cfg, s.log, s.saved)
      case Some(t) => t
      case None => s
  }

  function RunNode(cfg: NodeConfig, start: NodeState, events: seq<NodeEvent>): NodeState {
    if |events| == 0 then start else NodeStep(cfg, RunNode(cfg, start, events[..|events| - 1]), events[|events| - 1])
  }

  /** The first start of a node, with nothing on disk. */
  predicate Boots(cfg: NodeConfig, start: NodeState) {
    Start(cfg, [], None) == Some(start)
  }

  // ---------------------------------------------------------------- restart agreement

  /** The manifest log restores to exactly the verifier in memory. */
  predicate LogAgrees(cfg: NodeConfig, s: NodeState) {
    Restore(cfg.env.membership, cfg.bundle, cfg.plane, s.log) == Accepted(s.membership)
  }

  lemma StepLog(cfg: NodeConfig, s: NodeState, e: NodeEvent)
    requires LogAgrees(cfg, s)
    ensures LogAgrees(cfg, NodeStep(cfg, s, e))
  {
    var t := NodeStep(cfg, s, e);
    if e.Submit? && t.log != s.log {
      assert (s.log + [e.manifest])[..|s.log|] == s.log;
    }
  }

  lemma {:induction false} RunLog(cfg: NodeConfig, start: NodeState, events: seq<NodeEvent>)
    requires Boots(cfg, start)
    ensures LogAgrees(cfg, RunNode(cfg, start, events))
  {
    if |events| > 0 {
      RunLog(cfg, start, events[..|events| - 1]);
      StepLog(cfg, RunNode(cfg, start, events[..|events| - 1]), events[|events| - 1]);
    }
  }

  /** After any calls, accepted, rejected, repeated or cut short, a restart succeeds and rebuilds the
      very verifier memory held, and so does every prefix of the log for its own verifier. */
  lemma RestartAgreement(cfg: NodeConfig, start: NodeState, events: seq<NodeEvent>)
    requires Boots(cfg, start)
    ensures var s := RunNode(cfg, start, events);
      && Restore(cfg.env.membership, cfg.bundle, cfg.plane, s.log) == Accepted(s.membership)
      && Start(cfg, s.log, s.saved).Some? && Start(cfg, s.log, s.saved).value.membership == s.membership
      && forall i :: 0 <= i <= |s.log| ==> Restore(cfg.env.membership, cfg.bundle, cfg.plane, s.log[..i]).Accepted?
  {
    var s := RunNode(cfg, start, events);
    RunLog(cfg, start, events);
    forall i | 0 <= i <= |s.log| ensures Restore(cfg.env.membership, cfg.bundle, cfg.plane, s.log[..i]).Accepted? {
      PrefixAccepted(cfg.env.membership, cfg.bundle, cfg.plane, s.log, i);
    }
  }

  // ---------------------------------------------------------------- honest quorum count

  /** This node is in the roster under its own key. */
  predicate IsLocalMember(cfg: NodeConfig, v: Verifier) {
    cfg.localId in AuthorizedKeys(v) && AuthorizedKeys(v)[cfg.localId] == cfg.localKey
  }

  /** Ids of the roster that are this node under its own key, or a peer heard from within the window. */
  function LiveIds(cfg: NodeConfig, keys: map<Text, Text>, peers: map<Text, u64>, now: u64): set<Text> {
    set id | id in keys && ((id == cfg.localId && keys[id] == cfg.localKey) || (id in peers && now <= peers[id] + cfg.liveWindowMs))
  }

  function LiveRoster(cfg: NodeConfig, s: NodeState, now: u64): set<Text> {
    LiveIds(cfg, AuthorizedKeys(s.membership), s.peers, now)
  }

  /** The hello of `e` is somebody else's, in scope, on time, from an onion endpoint, properly signed,
      answers a pending challenge, and comes from a member under its key; and it could be filed. */
  predicate LetIn(cfg: NodeConfig, s: NodeState, e: NodeEvent) {
    && e.Meet? && e.storeOk
    && e.hello.memberId != cfg.localId
    && InScope(cfg.env, AuthOf(cfg), e.hello) && OnTime(AuthOf(cfg), e.hello, e.now)
    && cfg.env.membership.isOnion(e.hello.endpoint) && cfg.env.checkHello(e.hello) == None
    && Answers(s.pending, e.hello, e.now)
    && e.hello.memberId in AuthorizedKeys(s.membership) && AuthorizedKeys(s.membership)[e.hello.memberId] == e.hello.rootPublicKey
  }

  lemma MeetExact(cfg: NodeConfig, s: NodeState, e: NodeEvent)
    requires e.Meet?
    ensures MeetPeer(cfg, s, e.hello, e.now, e.storeOk, e.saveOk, e.activeSaveOk).1.None? <==> LetIn(cfg, s, e)
  {
    AuthenticateExact(cfg.env, AuthOf(cfg), s.membership, s.pending, e.hello, e.now);
  }

  /** Event `k` let the peer `id` in at time `t`. */
  predicate AuthenticatedAt(cfg: NodeConfig, start: NodeState, events: seq<NodeEvent>, k: nat, id: Text, t: u64) {
    && AuthAt(cfg, start, events, k)
    && events[k].hello.memberId == id && events[k].now == t
  }

  /** Event `k` is a hello that was let in. */
  predicate AuthAt(cfg: NodeConfig, start: NodeState, events: seq<NodeEvent>, k: nat) {
    k < |events| && LetIn(cfg, RunNode(cfg, start, events[..k]), events[k])
  }

  lemma StepPeers(cfg: NodeConfig, s: NodeState, e: NodeEvent, id: Text)
    requires cfg.localId !in s.peers
    ensures var t := NodeStep(cfg, s, e);
      && cfg.localId !in t.peers
      && (id in t.peers ==>
            || (id in s.peers && t.peers[id] == s.peers[id])
            || (LetIn(cfg, s, e) && e.hello.memberId == id && t.peers[id] == e.now))
  {
    if e.Meet? {
      MeetExact(cfg, s, e);
    }
  }

  /** The node never counts itself as a peer, and every peer it counts was let in at the time it holds
      for it. */
  lemma {:induction false} PeersAuthentic(cfg: NodeConfig, start: NodeState, events: seq<NodeEvent>, n: nat)
    requires Boots(cfg, start) && n <= |events|
    ensures var peers := RunNode(cfg, start, events[..n]).peers;
      && cfg.localId !in peers
      && forall id :: id in peers ==> exists k :: 0 <= k < n && AuthenticatedAt(cfg, start, events, k, id, peers[id])
    decreases n
  {
    if n > 0 {
      var before := RunNode(cfg, start, events[..n - 1]);
      PeersAuthentic(cfg, start, events, n - 1);
      assert events[..n][..n - 1] == events[..n - 1];
      var peers := RunNode(cfg, start, events[..n]).peers;
      StepPeers(cfg, before, events[n - 1], cfg.localId);
      forall id | id in peers
        ensures exists k :: 0 <= k < n && AuthenticatedAt(cfg, start, events, k, id, peers[id])
      {
        StepPeers(cfg, before, events[n - 1], id);
        if id in before.peers && peers[id] == before.peers[id] {
          var k :| 0 <= k < n - 1 && AuthenticatedAt(cfg, start, events, k, id, before.peers[id]);
        } else {
          assert AuthenticatedAt(cfg, start, events, n - 1, id, peers[id]);
        }
      }
    }
  }

  lemma CountsKeys(cfg: NodeConfig, keys: map<Text, Text>, peers: map<Text, u64>, now: u64)
    requires cfg.localId !in peers
    ensures |LiveIds(cfg, keys, peers, now)| ==
      |RemoteIds(keys, Expired(cfg, peers, now))| + if cfg.localId in keys && keys[cfg.localId] == cfg.localKey then 1 else 0
  {
    var remote, live := RemoteIds(keys, Expired(cfg, peers, now)), LiveIds(cfg, keys, peers, now);
    if cfg.localId in keys && keys[cfg.localId] == cfg.localKey {
      assert live == remote + {cfg.localId};
    } else {
      assert live == remote;
    }
  }

  lemma CountsRoster(cfg: NodeConfig, s: NodeState, now: u64)
    requires cfg.localId !in s.peers
    ensures ReadinessOf(cfg, Refresh(cfg, s, now)).liveMembers == |LiveRoster(cfg, s, now)|
  {
    CountsKeys(cfg, AuthorizedKeys(s.membership), s.peers, now);
  }

  /** In every reachable state the reported live members are the distinct current-roster ids that are
      local or live, never more than the roster, and quorum is reported exactly when the node is a
      member and they reach the threshold. */
  lemma HonestQuorum(cfg: NodeConfig, start: NodeState, events: seq<NodeEvent>, now: u64)
    requires Boots(cfg, start)
    ensures var s := RunNode(cfg, start, events);
      var r := ReadinessOf(cfg, Refresh(cfg, s, now));
      && cfg.localId !in s.peers
      && r.liveMembers == |LiveRoster(cfg, s, now)| <= MemberCount(s.membership) == r.verifiedMembers
      && (r.memberReady <==> IsLocalMember(cfg, s.membership))
      && (r.quorumReady <==> IsLocalMember(cfg, s.membership) && |LiveRoster(cfg, s, now)| >= Threshold(s.membership))
      && (r.financialReady <==> r.quorumReady && s.lifecycle == Active)
      && (r.operationalState == OperatingInQuorum <==> r.financialReady)
      && (r.operationalState == EligibleWaitingForQuorum <==>
            !r.financialReady && (s.lifecycle == StateVerified || s.lifecycle == Eligible || s.lifecycle == Active))
      && forall id :: id in LiveRoster(cfg, s, now) && id != cfg.localId ==>
           exists k :: 0 <= k < |events| && AuthenticatedAt(cfg, start, events, k, id, s.peers[id])
  {
    var s := RunNode(cfg, start, events);
    assert events[..|events|] == events;
    PeersAuthentic(cfg, start, events, |events|);
    CountsRoster(cfg, s, now);
    RunLog(cfg, start, events);
    RestoredWellFormed(cfg.env.membership, cfg.bundle, cfg.plane, s.log);
    EffectiveRoster(cfg.env.membership, s.membership);
    SubsetSize(LiveRoster(cfg, s, now), AuthorizedKeys(s.membership).Keys);
  }

  // ---------------------------------------------------------------- lifecycle provenance

  /** The event found this node in the roster when it let a peer in. */
  predicate MemberAt(cfg: NodeConfig, start: NodeState, events: seq<NodeEvent>, k: nat) {
    AuthAt(cfg, start, events, k) && IsLocalMember(cfg, RunNode(cfg, start, events[..k]).membership)
  }

  /** The event delivered a snapshot that verifies to a node that was waiting for one. */
  predicate SnapshotAt(cfg: NodeConfig, start: NodeState, events: seq<NodeEvent>, k: nat) {
    && k < |events| && events[k].Synchronize?
    && Hex(cfg.sha(events[k].snapshot.bytes)) == events[k].snapshot.stateRoot
    && RunNode(cfg, start, events[..k]).lifecycle == Syncing
  }

  /** The event left the node a member of a live quorum. */
  predicate QuorumAt(cfg: NodeConfig, start: NodeState, events: seq<NodeEvent>, k: nat) {
    && k < |events| && !events[k].Restart?
    && var s := RunNode(cfg, start, events[..k + 1]);
       IsLocalMember(cfg, s.membership) && |LiveRoster(cfg, s, events[k].now)| >= Threshold(s.membership)
  }

  /** What history must hold before `n` for a node to be in lifecycle state `s`. */
  ghost predicate Earned(cfg: NodeConfig, start: NodeState, events: seq<NodeEvent>, n: nat, s: LifecycleState) {
    match s
    case Discovering => true
    case AuthenticatedPeer => exists a :: 0 <= a < n && AuthAt(cfg, start, events, a)
    case Syncing => exists a, b :: 0 <= a <= b < n && AuthAt(cfg, start, events, a) && MemberAt(cfg, start, events, b)
    case Eligible =>
      exists a, b, c :: 0 <= a <= b < c < n &&
        AuthAt(cfg, start, events, a) && MemberAt(cfg, start, events, b) && SnapshotAt(cfg, start, events, c)
    case Active =>
      exists a, b, c, d :: 0 <= a <= b < c <= d < n &&
        AuthAt(cfg, start, events, a) && MemberAt(cfg, start, events, b) && SnapshotAt(cfg, start, events, c) && QuorumAt(cfg, start, events, d)
    case Created => false
    case IdentityReady => false
    case TransportReady => false
    case MemberVerified => false
    case StateVerified => false
  }

  ghost predicate AllEarned(cfg: NodeConfig, start: NodeState, events: seq<NodeEvent>, n: nat, s: NodeState) {
    && Earned(cfg, start, events, n, s.lifecycle)
    && s.saved.Some? && Earned(cfg, start, events, n, s.saved.value)
  }

  lemma EarnedLater(cfg: NodeConfig, start: NodeState, events: seq<NodeEvent>, n: nat, s: LifecycleState)
    requires Earned(cfg, start, events, n, s)
    ensures Earned(cfg, start, events, n + 1, s)
  {
    match s
    case Syncing =>
      var a, b :| 0 <= a <= b < n && AuthAt(cfg, start, events, a) && MemberAt(cfg, start, events, b);
    case Eligible =>
      var a, b, c :| 0 <= a <= b < c < n &&
        AuthAt(cfg, start, events, a) && MemberAt(cfg, start, events, b) && SnapshotAt(cfg, start, events, c);
    case Active =>
      var a, b, c, d :| 0 <= a <= b < c <= d < n &&
        AuthAt(cfg, start, events, a) && MemberAt(cfg, start, events, b) && SnapshotAt(cfg, start, events, c) && QuorumAt(cfg, start, events, d);
    case Created =>
    case IdentityReady =>
    case TransportReady =>
    case Discovering =>
    case AuthenticatedPeer =>
    case MemberVerified =>
    case StateVerified =>
  }

  /** A lifecycle a step can move to, with the reason in the step. */
  ghost predicate Moves(cfg: NodeConfig, s: NodeState, e: NodeEvent, from: LifecycleState, to: LifecycleState) {
    || to == from
    || (LetIn(cfg, s, e) &&
        ((from == Discovering && to == AuthenticatedPeer) ||
         (to == Syncing && (from == Discovering || from == AuthenticatedPeer) && LocalMember(cfg, s.membership))))
    || (e.Synchronize? && SnapshotVerifies(cfg, e.snapshot) && s.lifecycle == Syncing && from == Syncing && to == Eligible)
  }

  predicate Quorum(cfg: NodeConfig, t: NodeState, now: u64) {
    LocalMember(cfg, t.membership) && |LiveRoster(cfg, t, now)| >= Threshold(t.membership)
  }

  lemma ActivateMoves(cfg: NodeConfig, s: NodeState, now: u64, saveOk: bool)
    requires cfg.localId !in s.peers
    ensures var t := Activate(cfg, s, now, saveOk);
      && t.membership == s.membership
      && ((t.lifecycle == s.lifecycle && t.saved == s.saved)
          || (s.lifecycle == Eligible && t.lifecycle == Active && Quorum(cfg, t, now) && (t.saved == s.saved || t.saved == Some(Active))))
  {
    var live := Refresh(cfg, s, now);
    var t := Activate(cfg, s, now, saveOk);
    CountsRoster(cfg, s, now);
    assert LiveRoster(cfg, t, now) == LiveRoster(cfg, s, now);
  }

  /** Every change of lifecycle within one event: at most one ordinary move, then at most activation,
      and the file holds the old state, the middle one or the new one. */
  ghost predicate StepMoves(cfg: NodeConfig, s: NodeState, e: NodeEvent, t: NodeState) {
    exists middle ::
      && Moves(cfg, s, e, s.lifecycle, middle)
      && (t.lifecycle == middle || (middle == Eligible && t.lifecycle == Active && !e.Restart? && Quorum(cfg, t, e.now)))
      && (t.saved == s.saved || t.saved == Some(middle) || t.saved == Some(t.lifecycle))
  }

  lemma MeetMoves(cfg: NodeConfig, s: NodeState, e: NodeEvent)
    requires cfg.localId !in s.peers && e.Meet?
    ensures StepMoves(cfg, s, e, NodeStep(cfg, s, e))
  {
    var (t, r) := MeetPeer(cfg, s, e.hello, e.now, e.storeOk, e.saveOk, e.activeSaveOk);
    MeetExact(cfg, s, e);
    if r.None? {
      var pending := Authenticated(cfg.env, AuthOf(cfg), s.membership, s.pending, e.hello, e.now).0;
      var met := AfterAuthentication(cfg, s.(pending := pending, peers := s.peers[e.hello.memberId := e.now]), e.saveOk);
      ActivateMoves(cfg, met, e.now, e.activeSaveOk);
      assert Moves(cfg, s, e, s.lifecycle, met.lifecycle);
    } else {
      assert Moves(cfg, s, e, s.lifecycle, s.lifecycle);
    }
  }

  lemma SubmitMoves(cfg: NodeConfig, s: NodeState, e: NodeEvent)
    requires cfg.localId !in s.peers && e.Submit?
    ensures StepMoves(cfg, s, e, NodeStep(cfg, s, e))
  {
    assert Moves(cfg, s, e, s.lifecycle, s.lifecycle);
    var accepted := Accept(cfg.env.membership, s.membership, e.manifest);
    if accepted.Accepted? {
      ActivateMoves(cfg, s.(log := s.log + [e.manifest], membership := accepted.value), e.now, e.saveOk);
    }
  }

  lemma SynchronizeMoves(cfg: NodeConfig, s: NodeState, e: NodeEvent)
    requires cfg.localId !in s.peers && e.Synchronize?
    ensures StepMoves(cfg, s, e, NodeStep(cfg, s, e))
  {
    if SnapshotVerifies(cfg, e.snapshot) && s.lifecycle == Syncing {
      assert Moves(cfg, s, e, s.lifecycle, Eligible);
      ActivateMoves(cfg, Enter(s, Eligible, e.saveOk), e.now, e.activeSaveOk);
    } else {
      assert Moves(cfg, s, e, s.lifecycle, s.lifecycle);
    }
  }

  lemma OtherMoves(cfg: NodeConfig, s: NodeState, e: NodeEvent)
    requires cfg.localId !in s.peers && !e.Restart?
    ensures StepMoves(cfg, s, e, NodeStep(cfg, s, e))
  {
    if e.Meet? {
      MeetMoves(cfg, s, e);
    } else if e.Submit? {
      SubmitMoves(cfg, s, e);
    } else if e.Synchronize? {
      SynchronizeMoves(cfg, s, e);
    } else {
      assert Moves(cfg, s, e, s.lifecycle, s.lifecycle);
    }
  }

  /** An ordinary move is earned by the event that makes it. */
  lemma MoveEarned(cfg: NodeConfig, start: NodeState, events: seq<NodeEvent>, n: nat, to: LifecycleState)
    requires n < |events|
    requires var s := RunNode(cfg, start, events[..n]);
      Earned(cfg, start, events, n, s.lifecycle) && Moves(cfg, s, events[n], s.lifecycle, to)
    ensures Earned(cfg, start, events, n + 1, to)
  {
    var s := RunNode(cfg, start, events[..n]);
    EarnedLater(cfg, start, events, n, s.lifecycle);
    if to == AuthenticatedPeer && s.lifecycle != to {
      assert AuthAt(cfg, start, events, n);
    } else if to == Syncing && s.lifecycle != to {
      assert AuthAt(cfg, start, events, n) && MemberAt(cfg, start, events, n);
    } else if to == Eligible && s.lifecycle != to {
      var a, b :| 0 <= a <= b < n && AuthAt(cfg, start, events, a) && MemberAt(cfg, start, events, b);
      assert SnapshotAt(cfg, start, events, n);
    }
  }

  lemma ActiveEarned(cfg: NodeConfig, start: NodeState, events: seq<NodeEvent>, n: nat)
    requires Earned(cfg, start, events, n + 1, Eligible)
    requires QuorumAt(cfg, start, events, n)
    ensures Earned(cfg, start, events, n + 1, Active)
  {
    var a, b, c :| 0 <= a <= b < c < n + 1 &&
      AuthAt(cfg, start, events, a) && MemberAt(cfg, start, events, b) && SnapshotAt(cfg, start, events, c);
  }

  lemma MovesEarned(cfg: NodeConfig, start: NodeState, events: seq<NodeEvent>, n: nat, s: NodeState, t: NodeState)
    requires n < |events| && !events[n].Restart?
    requires s == RunNode(cfg, start, events[..n]) && t == RunNode(cfg, start, events[..n + 1])
    requires StepMoves(cfg, s, events[n], t)
    requires AllEarned(cfg, start, events, n, s)
    ensures AllEarned(cfg, start, events, n + 1, t)
  {
    var e := events[n];
    var middle :|
      && Moves(cfg, s, e, s.lifecycle, middle)
      && (t.lifecycle == middle || (middle == Eligible && t.lifecycle == Active && !e.Restart? && Quorum(cfg, t, e.now)))
      && (t.saved == s.saved || t.saved == Some(middle) || t.saved == Some(t.lifecycle));
    EarnedLater(cfg, start, events, n, s.saved.value);
    MoveEarned(cfg, start, events, n, middle);
    if t.lifecycle != middle {
      ActiveEarned(cfg, start, events, n);
    }
  }

  /** A restart brings back the saved state, which was earned when it was saved. */
  lemma RestartEarned(cfg: NodeConfig, start: NodeState, events: seq<NodeEvent>, n: nat, s: NodeState)
    requires AllEarned(cfg, start, events, n, s)
    ensures AllEarned(cfg, start, events, n + 1, NodeStep(cfg, s, Restart))
  {
    EarnedLater(cfg, start, events, n, s.saved.value);
    EarnedLater(cfg, start, events, n, s.lifecycle);
    RestartState(cfg, s);
  }

  /** A restart resumes the saved state if it is past the local ones. */
  lemma RestartState(cfg: NodeConfig, s: NodeState)
    requires s.saved.Some? && !IsLocal(s.saved.value)
    ensures var t := NodeStep(cfg, s, Restart); t == s || (t.lifecycle == s.saved.value && t.saved == s.saved)
  {
  }

  lemma RunNodeStep(cfg: NodeConfig, start: NodeState, events: seq<NodeEvent>, n: nat)
    requires n < |events|
    ensures RunNode(cfg, start, events[..n + 1]) == NodeStep(cfg, RunNode(cfg, start, events[..n]), events[n])
  {
    assert events[..n + 1][..n] == events[..n];
  }

  lemma {:induction false} RunEarned(cfg: NodeConfig, start: NodeState, events: seq<NodeEvent>, n: nat)
    requires Boots(cfg, start) && n <= |events|
    ensures AllEarned(cfg, start, events, n, RunNode(cfg, start, events[..n]))
    decreases n
  {
    if n > 0 {
      RunEarned(cfg, start, events, n - 1);
      EventEarned(cfg, start, events, n - 1);
    }
  }

  lemma EventEarned(cfg: NodeConfig, start: NodeState, events: seq<NodeEvent>, n: nat)
    requires Boots(cfg, start) && n < |events|
    requires AllEarned(cfg, start, events, n, RunNode(cfg, start, events[..n]))
    ensures AllEarned(cfg, start, events, n + 1, RunNode(cfg, start, events[..n + 1]))
  {
    var s, t := RunNode(cfg, start, events[..n]), RunNode(cfg, start, events[..n + 1]);
    RunNodeStep(cfg, start, events, n);
    PeersAuthentic(cfg, start, events, n);
    if events[n].Restart? {
      RestartEarned(cfg, start, events, n, s);
    } else {
      OtherMoves(cfg, s, events[n]);
      MovesEarned(cfg, start, events, n, s, t);
    }
  }

  /** Between calls a node is in one of five states, and an active one has, in this order, let in a peer,
      found itself in the roster, verified a snapshot and stood in a live quorum, however often it was
      restarted and whichever saves were lost. */
  lemma LifecycleProvenance(cfg: NodeConfig, start: NodeState, events: seq<NodeEvent>)
    requires Boots(cfg, start)
    ensures var state := RunNode(cfg, start, events).lifecycle;
      && (state == Discovering || state == AuthenticatedPeer || state == Syncing || state == Eligible || state == Active)
      && (state == Active ==>
            exists a, b, c, d :: 0 <= a <= b < c <= d < |events| &&
              AuthAt(cfg, start, events, a) && MemberAt(cfg, start, events, b) &&
              SnapshotAt(cfg, start, events, c) && QuorumAt(cfg, start, events, d))
  {
    RunEarned(cfg, start, events, |events|);
    assert events[..|events|] == events;
  }
}
