/** Who is let in, and which challenges are still good. */
module DiscoveryLaws {
  import opened Binary
  import opened Membership
  import opened Discovery

  predicate InScope(env: DiscoveryEnv, cfg: AuthConfig, hello: PeerHello) {
    hello.contractVersion == env.membership.contractVersion && hello.networkId == cfg.networkId && hello.plane == cfg.plane
  }

  /** The hello was issued no further from now than the skew, either way. */
  predicate OnTime(cfg: AuthConfig, hello: PeerHello, now: u64) {
    hello.issuedAtEpochMs <= now + cfg.maxClockSkewMs && now <= hello.issuedAtEpochMs + cfg.maxClockSkewMs
  }

  predicate Answers(pending: Pending, hello: PeerHello, now: u64) {
    hello.challenge in pending && now <= pending[hello.challenge]
  }

  /** A hello is let in exactly when it is in scope, on time, from an onion endpoint, properly signed,
      answers a challenge that is pending and not expired, and comes from a member under its key. */
  lemma AuthenticateExact(env: DiscoveryEnv, cfg: AuthConfig, v: Verifier, pending: Pending, hello: PeerHello, now: u64)
    ensures Authenticated(env, cfg, v, pending, hello, now).1 == None <==>
      && InScope(env, cfg, hello) && OnTime(cfg, hello, now)
      && env.membership.isOnion(hello.endpoint) && env.checkHello(hello) == None
      && Answers(pending, hello, now)
      && hello.memberId in AuthorizedKeys(v) && AuthorizedKeys(v)[hello.memberId] == hello.rootPublicKey
  {
  }

  /** The checks are made in this order, and the first that fails gives the error. */
  lemma AuthenticateErrors(env: DiscoveryEnv, cfg: AuthConfig, v: Verifier, pending: Pending, hello: PeerHello, now: u64)
    ensures var e := Authenticated(env, cfg, v, pending, hello, now).1;
      var scope, time, onion := InScope(env, cfg, hello), OnTime(cfg, hello, now), env.membership.isOnion(hello.endpoint);
      var identity, good := env.checkHello(hello), Answers(pending, hello, now);
      var member := hello.memberId in AuthorizedKeys(v) && AuthorizedKeys(v)[hello.memberId] == hello.rootPublicKey;
      && (e == Some(WrongScope) <==> !scope)
      && (e == Some(ClockSkew) <==> scope && !time)
      && (e == Some(BadEndpoint) <==> scope && time && !onion)
      && (forall i :: e == Some(Identity(i)) <==> scope && time && onion && identity == Some(i))
      && (e == Some(ChallengeRejected) <==> scope && time && onion && identity == None && !good)
      && (e == Some(NotMember) <==> scope && time && onion && identity == None && good && !member)
  {
  }

  /** A challenge is used up exactly by a consume that finds it, or by a hello that passes every check
      before it and finds it. */
  lemma TakesExact(cfg: ChallengeConfig, pending: Pending, e: ChallengeEvent, c: Text)
    ensures Takes(cfg, pending, e, c) <==> Presents(cfg, e, c) && c in pending && e.now <= pending[c]
  {
  }

  /** The event looks a challenge up, and so drops what has expired. */
  predicate Sweeps(cfg: ChallengeConfig, e: ChallengeEvent) {
    match e
    case IssueEvent(_, _) => false
    case ConsumeEvent(_, _) => true
    case HelloEvent(hello, now, _) =>
      InScope(cfg.env, cfg.auth, hello) && OnTime(cfg.auth, hello, now) && cfg.env.membership.isOnion(hello.endpoint) && cfg.env.checkHello(hello) == None
  }

  predicate Presents(cfg: ChallengeConfig, e: ChallengeEvent, c: Text) {
    Sweeps(cfg, e) && c == match e
      case IssueEvent(d, _) => d
      case ConsumeEvent(d, _) => d
      case HelloEvent(hello, _, _) => hello.challenge
  }

  /** When a challenge issued at some time stops being good. */
  function Expiry(cfg: ChallengeConfig, issued: u64): nat {
    if issued + cfg.ttl < U64_SIZE then issued + cfg.ttl else U64_SIZE - 1
  }

  /** One event, seen from one challenge. */
  lemma PendingStepExact(cfg: ChallengeConfig, pending: Pending, e: ChallengeEvent, c: Text)
    ensures var after := PendingStep(cfg, pending, e);
      && (Issues(e, c) ==> c in after && after[c] == Expiry(cfg, e.now))
      && (!Issues(e, c) ==>
            && (c in after <==> c in pending && !Presents(cfg, e, c) && (Sweeps(cfg, e) ==> e.now <= pending[c]))
            && (c in after ==> after[c] == pending[c]))
  {
  }

  /** Event `j` issued `c`, and nothing since has issued it again, presented it, or swept it away. */
  predicate StillGood(cfg: ChallengeConfig, events: seq<ChallengeEvent>, c: Text, j: nat, n: nat) {
    && j < n <= |events| && Issues(events[j], c)
    && forall k :: j < k < n ==>
         !Issues(events[k], c) && !Presents(cfg, events[k], c) && (Sweeps(cfg, events[k]) ==> events[k].now <= Expiry(cfg, events[j].now))
  }

  ghost predicate GoodFor(cfg: ChallengeConfig, events: seq<ChallengeEvent>, c: Text, n: nat, t: u64) {
    exists j :: 0 <= j < n && StillGood(cfg, events, c, j, n) && t == Expiry(cfg, events[j].now)
  }

  lemma GoodForNext(cfg: ChallengeConfig, events: seq<ChallengeEvent>, c: Text, n: nat, t: u64)
    requires n < |events|
    ensures GoodFor(cfg, events, c, n + 1, t) <==>
      if Issues(events[n], c) then t == Expiry(cfg, events[n].now)
      else GoodFor(cfg, events, c, n, t) && !Presents(cfg, events[n], c) && (Sweeps(cfg, events[n]) ==> events[n].now <= t)
  {
    if Issues(events[n], c) {
      if t == Expiry(cfg, events[n].now) {
        assert StillGood(cfg, events, c, n, n + 1);
      }
      if j :| 0 <= j < n + 1 && StillGood(cfg, events, c, j, n + 1) && t == Expiry(cfg, events[j].now) {
        assert j == n;
      }
    } else {
      if j :| 0 <= j < n + 1 && StillGood(cfg, events, c, j, n + 1) && t == Expiry(cfg, events[j].now) {
        assert StillGood(cfg, events, c, j, n);
      }
      if j :| 0 <= j < n && StillGood(cfg, events, c, j, n) && t == Expiry(cfg, events[j].now) {
        if !Presents(cfg, events[n], c) && (Sweeps(cfg, events[n]) ==> events[n].now <= t) {
          assert StillGood(cfg, events, c, j, n + 1);
        }
      }
    }
  }

  /** After any interleaving a challenge is pending exactly when its latest issue is still good, and it
      expires when that issue says. */
  lemma {:induction false} PendingExact(cfg: ChallengeConfig, events: seq<ChallengeEvent>, c: Text, n: nat, t: u64)
    requires n <= |events|
    ensures var pending := PendingRun(cfg, events[..n]);
      (c in pending && pending[c] == t) <==> GoodFor(cfg, events, c, n, t)
    decreases n
  {
    if n > 0 {
      var m := n - 1;
      var before := PendingRun(cfg, events[..m]);
      assert events[..n][..m] == events[..m];
      PendingExact(cfg, events, c, m, t);
      if c in before {
        PendingExact(cfg, events, c, m, before[c]);
      }
      PendingStepExact(cfg, before, events[m], c);
      GoodForNext(cfg, events, c, m, t);
    }
  }

  /** A challenge is good from the moment it is issued. */
  lemma FreshChallenge(cfg: ChallengeConfig, pending: Pending, c: Text, now: u64)
    ensures c in Issued(cfg.ttl, pending, c, now) && Issued(cfg.ttl, pending, c, now)[c] == Expiry(cfg, now)
    ensures Consumed(Issued(cfg.ttl, pending, c, now), c, now).1
  {
  }
}
