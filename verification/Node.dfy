/** A node's readiness, membership log and forward-only lifecycle (kerosene-node, kerosene-sync). */
module Node {
  import opened Binary
  import opened Membership
  import opened Discovery

  // ---------------------------------------------------------------- lifecycle

  datatype LifecycleState =
    | Created | IdentityReady | TransportReady | Discovering | AuthenticatedPeer | MemberVerified
    | Syncing | StateVerified | Eligible | Active

  function Next(s: LifecycleState): Option<LifecycleState> {
    match s
    case Created => Some(IdentityReady)
    case IdentityReady => Some(TransportReady)
    case TransportReady => Some(Discovering)
    case Discovering => Some(AuthenticatedPeer)
    case AuthenticatedPeer => Some(MemberVerified)
    case MemberVerified => Some(Syncing)
    case Syncing => Some(StateVerified)
    case StateVerified => Some(Eligible)
    case Eligible => Some(Active)
    case Active => None
  }

  datatype SyncError = InvalidTransition(from: LifecycleState, to: LifecycleState) | StateRootMismatch | SaveFailed

  class Lifecycle {
    var state: LifecycleState

    constructor (s: LifecycleState)
      ensures state == s
    {
      state := s;
    }

    method Advance(target: LifecycleState) returns (r: Option<SyncError>)
      modifies this
      ensures r.None? <==> Next(old(state)) == Some(target)
      ensures state == if r.None? then target else old(state)
      ensures r.Some? ==> r.value == InvalidTransition(old(state), target)
    {
      if Next(state) != Some(target) {
        return Some(InvalidTransition(state, target));
      }
      state := target;
      return None;
    }

    /** `bootstrap_local_lifecycle`. */
    method Bootstrap()
      modifies this
      ensures state == Bootstrapped(old(state))
    {
      while IsLocal(state)
        invariant Bootstrapped(state) == Bootstrapped(old(state))
        decreases StepsToDiscovering(state)
      {
        var r := Advance(Next(state).value);
      }
    }
  }

  predicate IsLocal(s: LifecycleState) {
    s == Created || s == IdentityReady || s == TransportReady
  }

  function StepsToDiscovering(s: LifecycleState): nat {
    if s == Created then 3 else if s == IdentityReady then 2 else if s == TransportReady then 1 else 0
  }

  function Bootstrapped(s: LifecycleState): LifecycleState {
    if IsLocal(s) then Discovering else s
  }

  // ---------------------------------------------------------------- the node as a value

  datatype NodeConfig = NodeConfig(
    env: DiscoveryEnv,
    sha: Bytes -> Digest,
    bundle: GenesisTrustBundle,
    plane: DiscoveryPlane,
    networkId: Text,
    localId: Text,
    localKey: Text,
    endpoint: Text,
    challengeTtlMs: u64,
    liveWindowMs: u64)

  /** Memory, and the two files that outlive it: the manifest log and the saved lifecycle. */
  datatype NodeState = NodeState(
    membership: Verifier,
    log: seq<Manifest>,
    pending: Pending,
    lifecycle: LifecycleState,
    saved: Option<LifecycleState>,
    peers: map<Text, u64>)

  function AuthOf(cfg: NodeConfig): AuthConfig {
    AuthConfig(cfg.networkId, cfg.plane, cfg.challengeTtlMs)
  }

  function TtlOf(cfg: NodeConfig): u64 {
    if cfg.challengeTtlMs < 1 then 1 else cfg.challengeTtlMs
  }

  predicate IsLive(cfg: NodeConfig, peers: map<Text, u64>, now: u64, id: Text) {
    id in peers && SaturatingSub(now, peers[id]) <= cfg.liveWindowMs
  }

  function Expired(cfg: NodeConfig, peers: map<Text, u64>, now: u64): map<Text, u64> {
    map id | id in peers && IsLive(cfg, peers, now, id) :: peers[id]
  }

  predicate LocalMember(cfg: NodeConfig, v: Verifier) {
    IsMember(v, cfg.localId, cfg.localKey)
  }

  datatype OperationalState = OperatingInQuorum | EligibleWaitingForQuorum | LocalWaitingForPeers

  function Operating(state: LifecycleState, quorum: bool): OperationalState {
    if state == Active && quorum then OperatingInQuorum
    else if state == StateVerified || state == Eligible || state == Active then EligibleWaitingForQuorum
    else LocalWaitingForPeers
  }

  datatype Readiness = Readiness(
    localReady: bool,
    memberReady: bool,
    quorumReady: bool,
    financialReady: bool,
    lifecycle: LifecycleState,
    operationalState: OperationalState,
    verifiedMembers: nat,
    liveMembers: nat,
    requiredThreshold: nat,
    manifestHash: Option<Text>)

  /** Peers that are in the roster. */
  function RemoteIds(keys: map<Text, Text>, peers: map<Text, u64>): set<Text> {
    set id | id in peers && id in keys
  }

  /** What `readiness` reports once expired peers are gone. */
  function ReadinessOf(cfg: NodeConfig, s: NodeState): Readiness {
    var local := LocalMember(cfg, s.membership);
    var remote := |RemoteIds(AuthorizedKeys(s.membership), s.peers)|;
    var live := remote + if local then 1 else 0;
    var quorum := local && live >= Threshold(s.membership);
    Readiness(s.lifecycle != Created, local, quorum, quorum && s.lifecycle == Active, s.lifecycle,
      Operating(s.lifecycle, quorum), MemberCount(s.membership), live, Threshold(s.membership), CurrentHash(cfg.env.membership, s.membership))
  }

  function Refresh(cfg: NodeConfig, s: NodeState, now: u64): NodeState {
    s.(peers := Expired(cfg, s.peers, now))
  }

  /** A lifecycle reached in memory, and on disk if the save goes through. */
  function Enter(s: NodeState, state: LifecycleState, saveOk: bool): NodeState {
    s.(lifecycle := state, saved := if saveOk then Some(state) else s.saved)
  }

  function Activate(cfg: NodeConfig, s: NodeState, now: u64, saveOk: bool): (t: NodeState)
    ensures t == s.(peers := Expired(cfg, s.peers, now), lifecycle := t.lifecycle, saved := t.saved)
  {
    var live := Refresh(cfg, s, now);
    if ReadinessOf(cfg, live).quorumReady && s.lifecycle == Eligible then Enter(live, Active, saveOk) else live
  }

  function AfterAuthentication(cfg: NodeConfig, s: NodeState, saveOk: bool): NodeState {
    var met := if s.lifecycle == Discovering then AuthenticatedPeer else s.lifecycle;
    var checked := if LocalMember(cfg, s.membership) && met == AuthenticatedPeer then Syncing else met;
    Enter(s, checked, saveOk)
  }

  /** `observe_peer`, and `exchange_hello` but for the signed reply. */
  function MeetPeer(cfg: NodeConfig, s: NodeState, hello: PeerHello, now: u64, storeOk: bool, saveOk: bool, activeSaveOk: bool): (NodeState, Option<DiscoveryError>) {
    if hello.memberId == cfg.localId then (s, Some(SelfConnection))
    else
      var (pending, e) := Authenticated(cfg.env, AuthOf(cfg), s.membership, s.pending, hello, now);
      var touched := s.(pending := pending);
      if e.Some? then (touched, e)
      else if !storeOk then (touched, Some(StoreFailed))
      else
        var met := AfterAuthentication(cfg, touched.(peers := s.peers[hello.memberId := now]), saveOk);
        (Activate(cfg, met, now, activeSaveOk), None)
  }

  /** `accept_membership`: the manifest is on disk before it is in memory, and one that is already
      current is a no-op. */
  function TakeManifest(cfg: NodeConfig, s: NodeState, m: Manifest, appendOk: bool, now: u64, saveOk: bool): (NodeState, Option<MembershipError>) {
    var env := cfg.env.membership;
    if CurrentHash(env, s.membership) == Some(env.canonicalHash(m)) then (s, None)
    else
      match Accept(env, s.membership, m)
      case Rejected(e) => (s, Some(e))
      case Accepted(v) =>
        if !appendOk then (s, Some(HashChain))
        else (Activate(cfg, s.(log := s.log + [m], membership := v), now, saveOk), None)
  }

  datatype StateSnapshot = StateSnapshot(epoch: u64, bytes: Bytes, stateRoot: Text)

  predicate SnapshotVerifies(cfg: NodeConfig, snapshot: StateSnapshot) {
    Hex(cfg.sha(snapshot.bytes)) == snapshot.stateRoot
  }

  /** `verify_state_snapshot`: memory moves before the save is known to have worked. */
  function TakeSnapshot(cfg: NodeConfig, s: NodeState, snapshot: StateSnapshot, saveOk: bool, now: u64, activeSaveOk: bool): (NodeState, Option<SyncError>) {
    if !SnapshotVerifies(cfg, snapshot) then (s, Some(StateRootMismatch))
    else if s.lifecycle != Syncing then (s, Some(InvalidTransition(s.lifecycle, StateVerified)))
    else
      var ready := Enter(s, Eligible, saveOk);
      if !saveOk then (ready, Some(SaveFailed)) else (Activate(cfg, ready, now, activeSaveOk), None)
  }

  /** Process start: the verifier comes from the manifest log, the lifecycle from its file. */
  function Start(cfg: NodeConfig, log: seq<Manifest>, saved: Option<LifecycleState>): Option<NodeState> {
    if !cfg.env.membership.isOnion(cfg.endpoint) then None
    else
      match Restore(cfg.env.membership, cfg.bundle, cfg.plane, log)
      case Rejected(_) => None
      case Accepted(v) =>
        var state := Bootstrapped(if saved.Some? then saved.value else Created);
        Some(NodeState(v, log, map[], state, Some(state), map[]))
  }

  // ---------------------------------------------------------------- the service as the code keeps it

  class NodeService {
    const cfg: NodeConfig
    const challenges: ChallengeStore
    const authenticator: PeerAuthenticator
    const lifecycle: Lifecycle
    var membership: Verifier
    var log: seq<Manifest>
    var saved: Option<LifecycleState>
    var peers: map<Text, u64>

    ghost predicate Valid()
      reads this
    {
      && authenticator.challenges == challenges
      && authenticator.env == cfg.env && authenticator.cfg == AuthOf(cfg)
      && challenges.ttlMs == TtlOf(cfg)
    }

    ghost function State(): NodeState
      reads this, challenges, lifecycle
    {
      NodeState(membership, log, challenges.pending, lifecycle.state, saved, peers)
    }

    constructor Of(cfg: NodeConfig, v: Verifier, log: seq<Manifest>, state: LifecycleState)
      ensures Valid() && this.cfg == cfg && fresh(challenges) && fresh(lifecycle)
      ensures State() == NodeState(v, log, map[], state, Some(state), map[])
    {
      this.cfg := cfg;
      var store := new ChallengeStore(cfg.challengeTtlMs);
      var auth := new PeerAuthenticator(cfg.env, AuthOf(cfg), store);
      var l := new Lifecycle(state);
      challenges, authenticator, lifecycle := store, auth, l;
      membership, this.log, saved, peers := v, log, Some(state), map[];
    }

    /** `new`, after the verifier has been restored from the log; a failed first save is a failed start,
        which leaves the file as it was. */
    static method Boot(cfg: NodeConfig, log: seq<Manifest>, saved: Option<LifecycleState>, saveOk: bool) returns (r: Option<NodeService>)
      ensures r.None? <==> !saveOk || Start(cfg, log, saved).None?
      ensures r.Some? ==> fresh(r.value) && r.value.Valid() && r.value.cfg == cfg && Start(cfg, log, saved) == Some(r.value.State())
    {
      if !cfg.env.membership.isOnion(cfg.endpoint) {
        return None;
      }
      var restored := MembershipVerifier.RestoreLog(cfg.env.membership, cfg.bundle, cfg.plane, log);
      if restored.Rejected? {
        return None;
      }
      var l := new Lifecycle(if saved.Some? then saved.value else Created);
      l.Bootstrap();
      if !saveOk {
        return None;
      }
      var node := new NodeService.Of(cfg, restored.value.State(), log, l.state);
      return Some(node);
    }

    method ExpirePeers(now: u64)
      modifies this`peers
      ensures peers == Expired(cfg, old(peers), now)
    {
      peers := map id | id in peers && SaturatingSub(now, peers[id]) <= cfg.liveWindowMs :: peers[id];
    }

    method GetReadiness(now: u64) returns (r: Readiness)
      requires Valid()
      modifies this`peers
      ensures State() == Refresh(cfg, old(State()), now)
      ensures r == ReadinessOf(cfg, State())
    {
      ExpirePeers(now);
      var local := LocalMember(cfg, membership);
      var authorized := AuthorizedKeys(membership);
      var remote := set id | id in peers && id in authorized;
      var live := |remote| + if local then 1 else 0;
      var quorum := local && live >= Threshold(membership);
      r := Readiness(lifecycle.state != Created, local, quorum, quorum && lifecycle.state == Active, lifecycle.state,
        Operating(lifecycle.state, quorum), MemberCount(membership), live, Threshold(membership), CurrentHash(cfg.env.membership, membership));
    }

    method SaveLifecycle(saveOk: bool)
      modifies this`saved
      ensures saved == if saveOk then Some(lifecycle.state) else old(saved)
    {
      if saveOk {
        saved := Some(lifecycle.state);
      }
    }

    method ActivateIfQuorum(now: u64, saveOk: bool)
      requires Valid()
      modifies this`peers, this`saved, lifecycle
      ensures State() == Activate(cfg, old(State()), now, saveOk)
    {
      var r := GetReadiness(now);
      if r.quorumReady && lifecycle.state == Eligible {
        var _ := lifecycle.Advance(Active);
        SaveLifecycle(saveOk);
      }
    }

    method AdvanceAfterAuthentication(saveOk: bool)
      requires Valid()
      modifies this`saved, lifecycle
      ensures State() == AfterAuthentication(cfg, old(State()), saveOk)
    {
      if lifecycle.state == Discovering {
        var _ := lifecycle.Advance(AuthenticatedPeer);
      }
      if LocalMember(cfg, membership) && lifecycle.state == AuthenticatedPeer {
        var _ := lifecycle.Advance(MemberVerified);
        var _ := lifecycle.Advance(Syncing);
      }
      SaveLifecycle(saveOk);
    }

    method IssueChallenge(challenge: Text, now: u64)
      requires Valid()
      modifies challenges
      ensures State() == old(State()).(pending := Issued(TtlOf(cfg), old(challenges.pending), challenge, now))
    {
      challenges.Issue(challenge, now);
    }

    method ObservePeer(hello: PeerHello, now: u64, storeOk: bool, saveOk: bool, activeSaveOk: bool) returns (r: Option<DiscoveryError>)
      requires Valid()
      modifies this`peers, this`saved, challenges, lifecycle
      ensures (State(), r) == MeetPeer(cfg, old(State()), hello, now, storeOk, saveOk, activeSaveOk)
    {
      if hello.memberId == cfg.localId {
        return Some(SelfConnection);
      }
      r := authenticator.Authenticate(membership, hello, now);
      if r.Some? {
        return;
      }
      if !storeOk {
        return Some(StoreFailed);
      }
      peers := peers[hello.memberId := now];
      AdvanceAfterAuthentication(saveOk);
      ActivateIfQuorum(now, activeSaveOk);
      return None;
    }

    method AcceptMembership(m: Manifest, appendOk: bool, now: u64, saveOk: bool) returns (r: Option<MembershipError>)
      requires Valid()
      modifies this`membership, this`log, this`peers, this`saved, lifecycle
      ensures (State(), r) == TakeManifest(cfg, old(State()), m, appendOk, now, saveOk)
    {
      if CurrentHash(cfg.env.membership, membership) == Some(cfg.env.membership.canonicalHash(m)) {
        return None;
      }
      var candidate := new MembershipVerifier.Of(cfg.env.membership, membership);
      r := candidate.AcceptManifest(m);
      if r.Some? {
        return;
      }
      if !appendOk {
        return Some(HashChain);
      }
      log := log + [m];
      membership := candidate.State();
      ActivateIfQuorum(now, saveOk);
      return None;
    }

    method VerifyStateSnapshot(snapshot: StateSnapshot, saveOk: bool, now: u64, activeSaveOk: bool) returns (r: Option<SyncError>)
      requires Valid()
      modifies this`peers, this`saved, lifecycle
      ensures (State(), r) == TakeSnapshot(cfg, old(State()), snapshot, saveOk, now, activeSaveOk)
    {
      if Hex(cfg.sha(snapshot.bytes)) != snapshot.stateRoot {
        return Some(StateRootMismatch);
      }
      if lifecycle.state != Syncing {
        return Some(InvalidTransition(lifecycle.state, StateVerified));
      }
      r := lifecycle.Advance(StateVerified);
      r := lifecycle.Advance(Eligible);
      SaveLifecycle(saveOk);
      if !saveOk {
        return Some(SaveFailed);
      }
      ActivateIfQuorum(now, activeSaveOk);
      return None;
    }
  }
}
