/** What each call leaves a node with: its lifecycle, its files, its peers and its verifier. */
module NodeLaws {
  import opened Binary
  import opened Membership
  import opened MembershipRuns
  import opened MembershipLaws
  import opened Discovery
  import opened DiscoveryLaws
  import opened Node
  import opened NodeRuns

  /** This node is a member and enough of the roster is live. */
  predicate HasQuorum(cfg: NodeConfig, s: NodeState, now: u64) {
    IsLocalMember(cfg, s.membership) && |LiveRoster(cfg, s, now)| >= Threshold(s.membership)
  }

  /** Peers heard from within the window. */
  function Recent(cfg: NodeConfig, peers: map<Text, u64>, now: u64): map<Text, u64> {
    map id | id in peers && now <= peers[id] + cfg.liveWindowMs :: peers[id]
  }

  /** The end of most calls: peers that have gone quiet are dropped, and an eligible node in a quorum
      becomes active, on disk too if the save works. */
  function Settled(cfg: NodeConfig, s: NodeState, now: u64, saveOk: bool): NodeState {
    var recent := s.(peers := Recent(cfg, s.peers, now));
    if s.lifecycle == Eligible && HasQuorum(cfg, s, now)
    then recent.(lifecycle := Active, saved := if saveOk then Some(Active) else s.saved)
    else recent
  }

  lemma ActivateLaw(cfg: NodeConfig, s: NodeState, now: u64, saveOk: bool)
    requires cfg.localId !in s.peers
    ensures Activate(cfg, s, now, saveOk) == Settled(cfg, s, now, saveOk)
  {
    CountsRoster(cfg, s, now);
    assert Expired(cfg, s.peers, now) == Recent(cfg, s.peers, now);
  }

  /** The first authentication takes a discovering node to authenticated, and any authentication takes an
      authenticated node that finds itself in the roster on to syncing. */
  function AfterHello(state: LifecycleState, member: bool): LifecycleState {
    if state == Discovering || state == AuthenticatedPeer then (if member then Syncing else AuthenticatedPeer) else state
  }

  /** A hello that is let in uses up its challenge, makes its sender a live peer, moves the lifecycle, and
      settles. */
  lemma MeetLaw(cfg: NodeConfig, s: NodeState, e: NodeEvent)
    requires LetIn(cfg, s, e) && cfg.localId !in s.peers
    ensures var reached := AfterHello(s.lifecycle, IsLocalMember(cfg, s.membership));
      var met := NodeState(s.membership, s.log, Consumed(s.pending, e.hello.challenge, e.now).0,
        reached, if e.saveOk then Some(reached) else s.saved, s.peers[e.hello.memberId := e.now]);
      NodeStep(cfg, s, e) == Settled(cfg, met, e.now, e.activeSaveOk)
  {
    MeetExact(cfg, s, e);
    AuthenticateExact(cfg.env, AuthOf(cfg), s.membership, s.pending, e.hello, e.now);
    var reached := AfterHello(s.lifecycle, IsLocalMember(cfg, s.membership));
    var met := NodeState(s.membership, s.log, Consumed(s.pending, e.hello.challenge, e.now).0,
      reached, if e.saveOk then Some(reached) else s.saved, s.peers[e.hello.memberId := e.now]);
    ActivateLaw(cfg, met, e.now, e.activeSaveOk);
    assert met == AfterAuthentication(cfg, s.(pending := met.pending, peers := met.peers), e.saveOk);
  }

  /** A hello that is turned away moves nothing but challenges. */
  lemma TurnedAwayLaw(cfg: NodeConfig, s: NodeState, e: NodeEvent)
    requires e.Meet? && !LetIn(cfg, s, e)
    ensures NodeStep(cfg, s, e) == s.(pending := NodeStep(cfg, s, e).pending)
    ensures e.hello.memberId == cfg.localId ==>
      MeetPeer(cfg, s, e.hello, e.now, e.storeOk, e.saveOk, e.activeSaveOk) == (s, Some(SelfConnection))
  {
    MeetExact(cfg, s, e);
  }

  /** A manifest that is already current is a no-op; an acceptable one that reaches the disk is appended,
      becomes current and the node settles; any other changes nothing. */
  lemma SubmitLaw(cfg: NodeConfig, s: NodeState, e: NodeEvent)
    requires e.Submit? && cfg.localId !in s.peers && WellFormed(cfg.env.membership, s.membership)
    ensures var env := cfg.env.membership;
      var repeated := s.membership.current.Some? && env.canonicalHash(s.membership.current.value) == env.canonicalHash(e.manifest);
      var taken := !repeated && Acceptable(env, s.membership, e.manifest) && e.appendOk;
      && NodeStep(cfg, s, e) ==
           (if taken then Settled(cfg, s.(log := s.log + [e.manifest], membership := s.membership.(current := Some(e.manifest))), e.now, e.saveOk)
            else s)
      && (TakeManifest(cfg, s, e.manifest, e.appendOk, e.now, e.saveOk).1.None? <==> repeated || taken)
  {
    AcceptExact(cfg.env.membership, s.membership, e.manifest);
    ActivateLaw(cfg, s.(log := s.log + [e.manifest], membership := s.membership.(current := Some(e.manifest))), e.now, e.saveOk);
  }

  /** A snapshot with the right root makes a syncing node eligible in memory, and on disk if the save
      works; only then does it settle.  Any other snapshot, or any other state, changes nothing. */
  lemma SynchronizeLaw(cfg: NodeConfig, s: NodeState, e: NodeEvent)
    requires e.Synchronize? && cfg.localId !in s.peers
    ensures var verified := Hex(cfg.sha(e.snapshot.bytes)) == e.snapshot.stateRoot;
      var (t, r) := TakeSnapshot(cfg, s, e.snapshot, e.saveOk, e.now, e.activeSaveOk);
      && NodeStep(cfg, s, e) == t
      && (!verified ==> t == s && r == Some(StateRootMismatch))
      && (verified && s.lifecycle != Syncing ==> t == s && r == Some(InvalidTransition(s.lifecycle, StateVerified)))
      && (verified && s.lifecycle == Syncing && !e.saveOk ==> t == s.(lifecycle := Eligible) && r == Some(SaveFailed))
      && (verified && s.lifecycle == Syncing && e.saveOk ==>
            t == Settled(cfg, s.(lifecycle := Eligible, saved := Some(Eligible)), e.now, e.activeSaveOk) && r == None)
  {
    ActivateLaw(cfg, s.(lifecycle := Eligible, saved := Some(Eligible)), e.now, e.activeSaveOk);
  }

  /** A node starts exactly when its endpoint is an onion and its log restores: with that verifier, no
      peers, no challenges, and the saved state, or discovering if none past the local ones was saved. */
  lemma StartLaw(cfg: NodeConfig, log: seq<Manifest>, saved: Option<LifecycleState>)
    ensures var restored := Restore(cfg.env.membership, cfg.bundle, cfg.plane, log);
      var state := if saved in {None, Some(Created), Some(IdentityReady), Some(TransportReady)} then Discovering else saved.value;
      Start(cfg, log, saved) ==
        if cfg.env.membership.isOnion(cfg.endpoint) && restored.Accepted?
        then Some(NodeState(restored.value, log, map[], state, Some(state), map[])) else None
  {
  }

  /** The rest of a readiness report. */
  lemma ReadinessLaw(cfg: NodeConfig, s: NodeState, now: u64)
    ensures Refresh(cfg, s, now) == s.(peers := Recent(cfg, s.peers, now))
    ensures var r := ReadinessOf(cfg, s);
      && r.lifecycle == s.lifecycle && (r.localReady <==> s.lifecycle != Created)
      && r.requiredThreshold == Threshold(s.membership) && r.verifiedMembers == MemberCount(s.membership)
      && r.manifestHash == (if s.membership.current.Some? then Some(cfg.env.membership.canonicalHash(s.membership.current.value)) else None)
  {
    assert Expired(cfg, s.peers, now) == Recent(cfg, s.peers, now);
  }

  /** A node can get all the way: a hello let in, a good snapshot and a quorum take a discovering member to
      active. */
  lemma FullCourse(cfg: NodeConfig, s: NodeState, hello: NodeEvent, sync: NodeEvent)
    requires cfg.localId !in s.peers && s.lifecycle == Discovering && IsLocalMember(cfg, s.membership)
    requires LetIn(cfg, s, hello)
    requires sync.Synchronize? && sync.saveOk && Hex(cfg.sha(sync.snapshot.bytes)) == sync.snapshot.stateRoot
    requires HasQuorum(cfg, NodeStep(cfg, s, hello), sync.now)
    ensures NodeStep(cfg, s, hello).lifecycle == Syncing
    ensures NodeStep(cfg, NodeStep(cfg, s, hello), sync).lifecycle == Active
  {
    MeetLaw(cfg, s, hello);
    StepPeers(cfg, s, hello, cfg.localId);
    var t := NodeStep(cfg, s, hello);
    SynchronizeLaw(cfg, t, sync);
    assert LiveRoster(cfg, t.(lifecycle := Eligible, saved := Some(Eligible)), sync.now) == LiveRoster(cfg, t, sync.now);
  }
}
