/** Single-use challenges and peer authentication (kerosene-discovery). */
module Discovery {
  import opened Binary
  import opened Membership

  datatype IdentityError = InvalidPublicKey | IdMismatch | InvalidSignature

  datatype DiscoveryError =
    | BadEndpoint | WrongScope | ClockSkew | ChallengeRejected | NotMember | SelfConnection
    | Identity(error: IdentityError) | StoreFailed

  datatype PeerHello = PeerHello(
    contractVersion: Text,
    networkId: Text,
    plane: DiscoveryPlane,
    memberId: Text,
    rootPublicKey: Text,
    challenge: Text,
    issuedAtEpochMs: u64,
    endpoint: Text,
    signature: Text)

  /** Membership's open functions, and `verify_hello_signature`. */
  datatype DiscoveryEnv = DiscoveryEnv(membership: MembershipEnv, checkHello: PeerHello -> Option<IdentityError>)

  function AbsDiff(a: u64, b: u64): u64 {
    if a >= b then a - b else b - a
  }

  // ---------------------------------------------------------------- challenges

  /** Challenges waiting to be answered, with the last moment each is good for. */
  type Pending = map<Text, u64>

  function Issued(ttl: u64, pending: Pending, challenge: Text, now: u64): Pending {
    pending[challenge := SaturatingAdd(now, ttl)]
  }

  /** `retain`: what has not expired. */
  function Unexpired(pending: Pending, now: u64): Pending {
    map c | c in pending && pending[c] >= now :: pending[c]
  }

  /** `consume`: everything expired is dropped, and the challenge with it if it is still good. */
  function Consumed(pending: Pending, challenge: Text, now: u64): (Pending, bool) {
    var kept := Unexpired(pending, now);
    (kept - {challenge}, challenge in kept)
  }

  class ChallengeStore {
    const ttlMs: u64
    var pending: Pending

    constructor (ttl: u64)
      ensures pending == map[] && ttlMs == (if ttl < 1 then 1 else ttl)
    {
      ttlMs := if ttl < 1 then 1 else ttl;
      pending := map[];
    }

    /** The challenge itself is random and comes from outside. */
    method Issue(challenge: Text, now: u64)
      modifies this`pending
      ensures pending == Issued(ttlMs, old(pending), challenge, now)
    {
      pending := pending[challenge := SaturatingAdd(now, ttlMs)];
    }

    method Consume(challenge: Text, now: u64) returns (r: Option<DiscoveryError>)
      modifies this`pending
      ensures (pending, r.None?) == Consumed(old(pending), challenge, now)
      ensures r.Some? ==> r.value == ChallengeRejected
    {
      pending := map c | c in pending && pending[c] >= now :: pending[c];
      var found := challenge in pending;
      pending := pending - {challenge};
      return if found then None else Some(ChallengeRejected);
    }
  }

  // ---------------------------------------------------------------- authentication

  datatype AuthConfig = AuthConfig(networkId: Text, plane: DiscoveryPlane, maxClockSkewMs: u64)

  /** The checks made before any challenge is touched. */
  function Precheck(env: DiscoveryEnv, cfg: AuthConfig, hello: PeerHello, now: u64): Option<DiscoveryError> {
    if hello.contractVersion != env.membership.contractVersion || hello.networkId != cfg.networkId || hello.plane != cfg.plane
    then Some(WrongScope)
    else if AbsDiff(hello.issuedAtEpochMs, now) > cfg.maxClockSkewMs then Some(ClockSkew)
    else if !env.membership.isOnion(hello.endpoint) then Some(BadEndpoint)
    else
      match env.checkHello(hello)
      case Some(e) => Some(Identity(e))
      case None => None
  }

  /** `authenticate`: the pending challenges afterwards, and the error if there is one. */
  function Authenticated(env: DiscoveryEnv, cfg: AuthConfig, v: Verifier, pending: Pending, hello: PeerHello, now: u64): (Pending, Option<DiscoveryError>) {
    var e := Precheck(env, cfg, hello, now);
    if e.Some? then (pending, e)
    else
      var (after, good) := Consumed(pending, hello.challenge, now);
      if !good then (after, Some(ChallengeRejected))
      else if !IsMember(v, hello.memberId, hello.rootPublicKey) then (after, Some(NotMember))
      else (after, None)
  }

  class PeerAuthenticator {
    const env: DiscoveryEnv
    const cfg: AuthConfig
    const challenges: ChallengeStore

    constructor (env: DiscoveryEnv, cfg: AuthConfig, challenges: ChallengeStore)
      ensures this.env == env && this.cfg == cfg && this.challenges == challenges
    {
      this.env, this.cfg, this.challenges := env, cfg, challenges;
    }

    method Authenticate(v: Verifier, hello: PeerHello, now: u64) returns (r: Option<DiscoveryError>)
      modifies challenges`pending
      ensures (challenges.pending, r) == Authenticated(env, cfg, v, old(challenges.pending), hello, now)
    {
      if hello.contractVersion != env.membership.contractVersion || hello.networkId != cfg.networkId || hello.plane != cfg.plane {
        return Some(WrongScope);
      }
      if AbsDiff(hello.issuedAtEpochMs, now) > cfg.maxClockSkewMs {
        return Some(ClockSkew);
      }
      if !env.membership.isOnion(hello.endpoint) {
        return Some(BadEndpoint);
      }
      var identity := env.checkHello(hello);
      if identity.Some? {
        return Some(Identity(identity.value));
      }
      r := challenges.Consume(hello.challenge, now);
      if r.Some? {
        return;
      }
      if !IsMember(v, hello.memberId, hello.rootPublicKey) {
        return Some(NotMember);
      }
      return None;
    }
  }

  /** A hello that fails its scope, clock, endpoint or signature check leaves every challenge pending;
      any other one drops its own challenge and what has expired, whether it is let in or not. */
  lemma ChallengesTouched(env: DiscoveryEnv, cfg: AuthConfig, v: Verifier, pending: Pending, hello: PeerHello, now: u64)
    ensures var (after, e) := Authenticated(env, cfg, v, pending, hello, now);
      if e.Some? && (e.value.WrongScope? || e.value.ClockSkew? || e.value.BadEndpoint? || e.value.Identity?) then
        after == pending
      else
        && hello.challenge !in after
        && (forall c :: c in after <==> c in pending && c != hello.challenge && pending[c] >= now)
        && (forall c :: c in after ==> after[c] == pending[c])
        && (e == Some(ChallengeRejected) <==> !(hello.challenge in pending && pending[hello.challenge] >= now))
  {
  }

  // ---------------------------------------------------------------- runs

  datatype ChallengeEvent =
    | IssueEvent(challenge: Text, now: u64)
    | ConsumeEvent(challenge: Text, now: u64)
    | HelloEvent(hello: PeerHello, now: u64, verifier: Verifier)

  datatype ChallengeConfig = ChallengeConfig(env: DiscoveryEnv, auth: AuthConfig, ttl: u64)

  function PendingStep(cfg: ChallengeConfig, pending: Pending, e: ChallengeEvent): Pending {
    match e
    case IssueEvent(c, now) => Issued(cfg.ttl, pending, c, now)
    case ConsumeEvent(c, now) => Consumed(pending, c, now).0
    case HelloEvent(hello, now, v) => Authenticated(cfg.env, cfg.auth, v, pending, hello, now).0
  }

  function PendingRun(cfg: ChallengeConfig, events: seq<ChallengeEvent>): Pending {
    if |events| == 0 then map[]
    else PendingStep(cfg, PendingRun(cfg, events[..|events| - 1]), events[|events| - 1])
  }

  predicate Issues(e: ChallengeEvent, c: Text) {
    e.IssueEvent? && e.challenge == c
  }

  /** The event uses up `c` successfully: consumes it, or is a hello whose answer to it is taken. */
  predicate Takes(cfg: ChallengeConfig, pending: Pending, e: ChallengeEvent, c: Text) {
    match e
    case IssueEvent(_, _) => false
    case ConsumeEvent(d, now) => d == c && Consumed(pending, d, now).1
    case HelloEvent(hello, now, v) =>
      && hello.challenge == c
      && Authenticated(cfg.env, cfg.auth, v, pending, hello, now).1 in {None, Some(NotMember)}
  }

  predicate TakesAt(cfg: ChallengeConfig, events: seq<ChallengeEvent>, k: nat, c: Text)
    requires k < |events|
  {
    Takes(cfg, PendingRun(cfg, events[..k]), events[k], c)
  }

  function Count(cfg: ChallengeConfig, events: seq<ChallengeEvent>, c: Text): (r: (nat, nat)) {
    if |events| == 0 then (0, 0)
    else
      var n := |events| - 1;
      var (issued, taken) := Count(cfg, events[..n], c);
      (issued + (if Issues(events[n], c) then 1 else 0), taken + (if TakesAt(cfg, events, n, c) then 1 else 0))
  }

  lemma TakingStep(cfg: ChallengeConfig, pending: Pending, e: ChallengeEvent, c: Text)
    ensures var after := PendingStep(cfg, pending, e);
      && (Takes(cfg, pending, e, c) ==> c in pending && c !in after && pending[c] >= e.now)
      && (c in after && !Issues(e, c) ==> c in pending && after[c] == pending[c])
      && (Issues(e, c) ==> c in after && after[c] == SaturatingAdd(e.now, cfg.ttl) && !Takes(cfg, pending, e, c))
  {
  }

  /** Over any interleaving a challenge is taken at most as often as it was issued; one still pending
      has an issue to spare. */
  lemma {:induction false} TakenAtMostIssued(cfg: ChallengeConfig, events: seq<ChallengeEvent>, c: Text)
    ensures var (issued, taken) := Count(cfg, events, c);
      taken + (if c in PendingRun(cfg, events) then 1 else 0) <= issued
  {
    if |events| > 0 {
      var n := |events| - 1;
      TakenAtMostIssued(cfg, events[..n], c);
      TakingStep(cfg, PendingRun(cfg, events[..n]), events[n], c);
    }
  }

  /** Event `j` is the latest issue of `c` before `n`, and nothing has taken `c` since. */
  predicate OpenSince(cfg: ChallengeConfig, events: seq<ChallengeEvent>, c: Text, j: nat, n: nat) {
    && j < n <= |events| && Issues(events[j], c)
    && forall k :: j < k < n ==> !Issues(events[k], c) && !TakesAt(cfg, events, k, c)
  }

  lemma {:induction false} PendingIsOpen(cfg: ChallengeConfig, events: seq<ChallengeEvent>, c: Text, n: nat) returns (j: nat)
    requires n <= |events| && c in PendingRun(cfg, events[..n])
    ensures OpenSince(cfg, events, c, j, n)
    ensures PendingRun(cfg, events[..n])[c] == SaturatingAdd(events[j].now, cfg.ttl)
    decreases n
  {
    assert events[..n][..n - 1] == events[..n - 1];
    TakingStep(cfg, PendingRun(cfg, events[..n - 1]), events[n - 1], c);
    if Issues(events[n - 1], c) {
      j := n - 1;
    } else {
      j := PendingIsOpen(cfg, events, c, n - 1);
    }
  }

  /** Whatever takes a challenge answers its latest issue, before anyone else did, and no later than
      that issue's time plus the time to live. */
  lemma TakenInTime(cfg: ChallengeConfig, events: seq<ChallengeEvent>, n: nat, c: Text) returns (j: nat)
    requires n < |events| && TakesAt(cfg, events, n, c)
    ensures OpenSince(cfg, events, c, j, n)
    ensures events[n].now <= SaturatingAdd(events[j].now, cfg.ttl)
  {
    TakingStep(cfg, PendingRun(cfg, events[..n]), events[n], c);
    j := PendingIsOpen(cfg, events, c, n);
  }
}
