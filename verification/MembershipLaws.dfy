/** Which manifests a verifier accepts, field by field. */
module MembershipLaws {
  import opened Binary
  import opened Sequences
  import opened Membership
  import opened MembershipRuns

  /** The key text decodes, and the id is the network's name for it. */
  predicate Named(env: MembershipEnv, network: Text, id: Text, key: Text) {
    env.decodeKey(key).Some? && env.memberId(network, env.decodeKey(key).value) == id
  }

  /** A threshold the roster can reach, members under their own names at onion endpoints, no id twice. */
  predicate GoodRoster(env: MembershipEnv, network: Text, members: seq<ManifestMember>, threshold: nat) {
    && 1 <= threshold <= |members|
    && (forall i :: 0 <= i < |members| ==>
          Named(env, network, members[i].memberId, members[i].rootPublicKey) && env.isOnion(members[i].endpoint))
    && (forall i, j :: 0 <= i < j < |members| ==> members[i].memberId != members[j].memberId)
  }

  predicate GoodPlane(env: MembershipEnv, network: Text, plane: TrustPlane) {
    && 1 <= plane.threshold <= |plane.members|
    && (forall i :: 0 <= i < |plane.members| ==> Named(env, network, plane.members[i].memberId, plane.members[i].rootPublicKey))
    && (forall i, j :: 0 <= i < j < |plane.members| ==> plane.members[i].memberId != plane.members[j].memberId)
  }

  predicate OneSignatureEach(m: Manifest) {
    forall i, j :: 0 <= i < j < |m.signatures| ==> m.signatures[i].signerId != m.signatures[j].signerId
  }

  /** A stable manifest announces no epoch; a joint one announces a later one. */
  predicate AnnouncesEpoch(m: Manifest) {
    match m.phase
    case Stable => m.nextEpoch == None
    case Joint => m.nextEpoch.Some? && m.nextEpoch.value > m.epoch
  }

  /** A member of the list has signed the manifest without its signature list. */
  predicate HasSigned(env: MembershipEnv, m: Manifest, id: Text, key: Text) {
    exists i :: 0 <= i < |m.signatures| && m.signatures[i].signerId == id && env.verify(key, m.signatures[i].signature, m.(signatures := []))
  }

  function MemberSigners(env: MembershipEnv, m: Manifest, members: seq<ManifestMember>): set<Text> {
    set i | 0 <= i < |members| && HasSigned(env, m, members[i].memberId, members[i].rootPublicKey) :: members[i].memberId
  }

  function TrustSigners(env: MembershipEnv, m: Manifest, members: seq<TrustMember>): set<Text> {
    set i | 0 <= i < |members| && HasSigned(env, m, members[i].memberId, members[i].rootPublicKey) :: members[i].memberId
  }

  predicate Follows(env: MembershipEnv, current: Manifest, m: Manifest) {
    && m.previousManifestHash == env.canonicalHash(current)
    && |MemberSigners(env, m, current.members)| >= current.threshold
    && match current.phase
       case Stable =>
         && m.epoch == (if current.epoch + 1 < U64_SIZE then current.epoch + 1 else current.epoch)
         && (m.phase == Stable ==> m.threshold == current.threshold && m.members == current.members)
         && (m.phase == Joint ==> |MemberSigners(env, m, m.members)| >= m.threshold)
       case Joint =>
         && m.phase == Stable && current.nextEpoch == Some(m.epoch)
         && m.threshold == current.threshold && m.members == current.members
  }

  predicate Opens(env: MembershipEnv, genesis: TrustPlane, m: Manifest) {
    && m.phase == Stable && m.epoch > 0
    && |m.previousManifestHash| == 64 && (forall i :: 0 <= i < 64 ==> m.previousManifestHash[i] == 48)
    && |TrustSigners(env, m, genesis.members)| >= genesis.threshold
  }

  /** Contract version, scope, roster, signer ids and announced epoch, and then what the current
      manifest, or the genesis plane, asks of the next one. */
  predicate Acceptable(env: MembershipEnv, v: Verifier, m: Manifest) {
    && m.contractVersion == env.contractVersion && m.networkId == v.networkId && m.plane == v.plane
    && GoodRoster(env, v.networkId, m.members, m.threshold)
    && OneSignatureEach(m)
    && AnnouncesEpoch(m)
    && match v.current
       case None => Opens(env, v.genesis, m)
       case Some(current) => Follows(env, current, m)
  }

  // ---------------------------------------------------------------- the parts

  lemma MemberChecked(env: MembershipEnv, network: Text, member: ManifestMember)
    ensures CheckManifestMember(env, network)(member).None? <==>
      Named(env, network, member.memberId, member.rootPublicKey) && env.isOnion(member.endpoint)
    ensures CheckManifestMember(env, network)(member) in {None, Some(MemberIdMismatch), Some(InvalidEndpoint)}
  {
  }

  predicate RosterError(e: Option<MembershipError>) {
    e in {None, Some(InvalidThreshold), Some(MemberIdMismatch), Some(InvalidEndpoint), Some(DuplicateIdentity)}
  }

  lemma {:induction false} MemberErrors(env: MembershipEnv, network: Text, members: seq<ManifestMember>, seen: set<Text>)
    ensures RosterError(CheckMembers(CheckManifestMember(env, network), MemberId, members, seen))
    decreases |members|
  {
    if |members| > 0 {
      MemberChecked(env, network, members[0]);
      MemberErrors(env, network, members[1..], seen + {members[0].memberId});
    }
  }

  lemma RosterIsGood(env: MembershipEnv, network: Text, m: Manifest)
    ensures CheckManifestRoster(env, network, m).None? <==> GoodRoster(env, network, m.members, m.threshold)
  {
    var check := CheckManifestMember(env, network);
    RosterExact(check, MemberId, m.members, m.threshold);
    forall i | 0 <= i < |m.members|
      ensures check(m.members[i]).None? <==>
        Named(env, network, m.members[i].memberId, m.members[i].rootPublicKey) && env.isOnion(m.members[i].endpoint)
    {
      MemberChecked(env, network, m.members[i]);
    }
    assert Distinct(MemberId, m.members) <==>
      forall i, j :: 0 <= i < j < |m.members| ==> m.members[i].memberId != m.members[j].memberId;
  }

  lemma PlaneIsGood(env: MembershipEnv, network: Text, plane: TrustPlane)
    ensures CheckTrustPlane(env, network, plane).None? <==> GoodPlane(env, network, plane)
  {
    var check := CheckTrustMember(env, network);
    RosterExact(check, TrustId, plane.members, plane.threshold);
    assert forall i :: 0 <= i < |plane.members| ==>
      (check(plane.members[i]).None? <==> Named(env, network, plane.members[i].memberId, plane.members[i].rootPublicKey));
    assert Distinct(TrustId, plane.members) <==>
      forall i, j :: 0 <= i < j < |plane.members| ==> plane.members[i].memberId != plane.members[j].memberId;
  }

  lemma KeyOfMember<M>(id: M -> Text, key: M -> Text, members: seq<M>, i: nat)
    requires Distinct(id, members) && i < |members|
    ensures id(members[i]) in KeysOf(id, key, members) && KeysOf(id, key, members)[id(members[i])] == key(members[i])
  {
    KeysOfRoster(id, key, members);
    assert id(members[i]) in Ids(id, members);
    var k :| 0 <= k < |members| && id(members[k]) == id(members[i]) && key(members[k]) == KeysOf(id, key, members)[id(members[i])];
    assert k == i;
  }

  lemma MemberSignersAre(env: MembershipEnv, m: Manifest, members: seq<ManifestMember>)
    requires Distinct(MemberId, members)
    ensures Signers(env, m, KeysOf(MemberId, MemberKey, members)) == MemberSigners(env, m, members)
  {
    var keys := KeysOf(MemberId, MemberKey, members);
    KeysOfRoster(MemberId, MemberKey, members);
    forall id ensures id in Signers(env, m, keys) <==> id in MemberSigners(env, m, members) {
      if id in Signers(env, m, keys) {
        assert id in Ids(MemberId, members);
        var i :| 0 <= i < |members| && MemberId(members[i]) == id;
        KeyOfMember(MemberId, MemberKey, members, i);
        assert HasSigned(env, m, members[i].memberId, members[i].rootPublicKey);
      }
      if id in MemberSigners(env, m, members) {
        var i :| 0 <= i < |members| && HasSigned(env, m, members[i].memberId, members[i].rootPublicKey) && members[i].memberId == id;
        KeyOfMember(MemberId, MemberKey, members, i);
        assert Signed(env, m, keys, id);
      }
    }
  }

  lemma TrustSignersAre(env: MembershipEnv, m: Manifest, members: seq<TrustMember>)
    requires Distinct(TrustId, members)
    ensures Signers(env, m, KeysOf(TrustId, TrustKey, members)) == TrustSigners(env, m, members)
  {
    var keys := KeysOf(TrustId, TrustKey, members);
    KeysOfRoster(TrustId, TrustKey, members);
    forall id ensures id in Signers(env, m, keys) <==> id in TrustSigners(env, m, members) {
      if id in Signers(env, m, keys) {
        assert id in Ids(TrustId, members);
        var i :| 0 <= i < |members| && TrustId(members[i]) == id;
        KeyOfMember(TrustId, TrustKey, members, i);
        assert HasSigned(env, m, members[i].memberId, members[i].rootPublicKey);
      }
      if id in TrustSigners(env, m, members) {
        var i :| 0 <= i < |members| && HasSigned(env, m, members[i].memberId, members[i].rootPublicKey) && members[i].memberId == id;
        KeyOfMember(TrustId, TrustKey, members, i);
        assert Signed(env, m, keys, id);
      }
    }
  }

  /** Enough signatures are enough different members. */
  lemma EnoughMembers(env: MembershipEnv, m: Manifest, members: seq<ManifestMember>, threshold: nat)
    requires Distinct(MemberId, members) && Distinct(SignerOf, m.signatures)
    ensures RequireSignatures(env, m, KeysOf(MemberId, MemberKey, members), threshold) ==
      if |MemberSigners(env, m, members)| >= threshold then None else Some(InsufficientSignatures)
  {
    CountIsSigners(env, m, KeysOf(MemberId, MemberKey, members));
    MemberSignersAre(env, m, members);
  }

  lemma EnoughTrusted(env: MembershipEnv, m: Manifest, members: seq<TrustMember>, threshold: nat)
    requires Distinct(TrustId, members) && Distinct(SignerOf, m.signatures)
    ensures RequireSignatures(env, m, KeysOf(TrustId, TrustKey, members), threshold) ==
      if |TrustSigners(env, m, members)| >= threshold then None else Some(InsufficientSignatures)
  {
    CountIsSigners(env, m, KeysOf(TrustId, TrustKey, members));
    TrustSignersAre(env, m, members);
  }

  /** The structural half of acceptance. */
  predicate WellShaped(env: MembershipEnv, v: Verifier, m: Manifest) {
    && m.contractVersion == env.contractVersion && m.networkId == v.networkId && m.plane == v.plane
    && GoodRoster(env, v.networkId, m.members, m.threshold)
    && OneSignatureEach(m)
    && AnnouncesEpoch(m)
  }

  lemma ShapeExact(env: MembershipEnv, v: Verifier, m: Manifest)
    ensures ValidateStructure(env, v, m).None? <==> WellShaped(env, v, m)
  {
    RosterIsGood(env, v.networkId, m);
    assert Distinct(SignerOf, m.signatures) <==> OneSignatureEach(m);
  }

  lemma ZeroHash(h: Text)
    ensures h == GENESIS_HASH <==> |h| == 64 && forall i :: 0 <= i < 64 ==> h[i] == 48
  {
  }

  lemma OpensExact(env: MembershipEnv, v: Verifier, m: Manifest)
    requires Distinct(TrustId, v.genesis.members) && Distinct(SignerOf, m.signatures)
    ensures VerifyInitial(env, v, m).None? <==> Opens(env, v.genesis, m)
  {
    ZeroHash(m.previousManifestHash);
    EnoughTrusted(env, m, v.genesis.members, v.genesis.threshold);
  }

  lemma FollowsExact(env: MembershipEnv, current: Manifest, m: Manifest)
    requires Distinct(MemberId, current.members) && Distinct(MemberId, m.members) && Distinct(SignerOf, m.signatures)
    ensures current.phase == Stable ==> (VerifyAfterStable(env, current, m).None? <==> Follows(env, current, m))
    ensures current.phase == Joint ==> (VerifyAfterJoint(env, current, m).None? <==> Follows(env, current, m))
  {
    EnoughMembers(env, m, current.members, current.threshold);
    EnoughMembers(env, m, m.members, m.threshold);
  }

  lemma GoodIsDistinct(env: MembershipEnv, network: Text, members: seq<ManifestMember>, threshold: nat)
    requires GoodRoster(env, network, members, threshold)
    ensures Distinct(MemberId, members)
  {
  }

  // ---------------------------------------------------------------- acceptance

  /** From any reachable verifier, exactly the acceptable manifests are accepted and become current. */
  lemma AcceptExact(env: MembershipEnv, v: Verifier, m: Manifest)
    requires WellFormed(env, v)
    ensures Accept(env, v, m).Accepted? <==> Acceptable(env, v, m)
    ensures Acceptable(env, v, m) ==> Accept(env, v, m) == Accepted(Verifier(v.networkId, v.plane, v.genesis, Some(m)))
  {
    ShapeExact(env, v, m);
    PlaneIsGood(env, v.networkId, v.genesis);
    if WellShaped(env, v, m) {
      GoodIsDistinct(env, v.networkId, m.members, m.threshold);
      assert Distinct(SignerOf, m.signatures);
      if v.current.None? {
        assert Distinct(TrustId, v.genesis.members);
        OpensExact(env, v, m);
      } else {
        var current := v.current.value;
        ShapeExact(env, v, current);
        GoodIsDistinct(env, v.networkId, current.members, current.threshold);
        FollowsExact(env, current, m);
      }
    }
  }

  /** The first thing wrong with a manifest decides the error: contract version, then scope, then
      threshold; a chain error comes before an epoch error, and a roster change before or after a joint
      step has errors of its own. */
  lemma ErrorsExact(env: MembershipEnv, v: Verifier, m: Manifest)
    requires WellFormed(env, v)
    ensures var scoped := m.contractVersion == env.contractVersion && m.networkId == v.networkId && m.plane == v.plane;
      && (Accept(env, v, m) == Rejected(ContractVersion) <==> m.contractVersion != env.contractVersion)
      && (Accept(env, v, m) == Rejected(ScopeMismatch) <==>
            m.contractVersion == env.contractVersion && (m.networkId != v.networkId || m.plane != v.plane))
      && (scoped && !(1 <= m.threshold <= |m.members|) ==> Accept(env, v, m) == Rejected(InvalidThreshold))
    ensures WellShaped(env, v, m) && v.current.Some? ==>
      var current := v.current.value;
      && (current.phase == Joint && m.phase == Joint ==> Accept(env, v, m) == Rejected(EpochTransition))
      && ((current.phase == Stable || m.phase == Stable) && m.previousManifestHash != env.canonicalHash(current) ==>
            Accept(env, v, m) == Rejected(HashChain))
  {
    ShapeExact(env, v, m);
    MemberErrors(env, v.networkId, m.members, {});
    RosterIsGood(env, v.networkId, m);
  }

  /** A verifier is created exactly for a bundle of this contract version whose two planes are good. */
  lemma CreateExact(env: MembershipEnv, bundle: GenesisTrustBundle, plane: DiscoveryPlane)
    ensures NewVerifier(env, bundle, plane).Accepted? <==>
      && bundle.contractVersion == env.contractVersion
      && GoodPlane(env, bundle.networkId, bundle.bank) && GoodPlane(env, bundle.networkId, bundle.vault)
    ensures NewVerifier(env, bundle, plane).Accepted? ==>
      NewVerifier(env, bundle, plane).value == Verifier(bundle.networkId, plane, match plane case Bank => bundle.bank case Vault => bundle.vault, None)
  {
    PlaneIsGood(env, bundle.networkId, bundle.bank);
    PlaneIsGood(env, bundle.networkId, bundle.vault);
  }

  /** Every manifest of an accepted log is of this contract version and of the bundle's network and the
      node's plane, has a good roster under that network, and is acceptable to the verifier before it. */
  lemma LogScoped(env: MembershipEnv, bundle: GenesisTrustBundle, plane: DiscoveryPlane, log: seq<Manifest>, i: nat)
    requires Restore(env, bundle, plane, log).Accepted? && i < |log|
    ensures log[i].contractVersion == env.contractVersion && log[i].networkId == bundle.networkId && log[i].plane == plane
    ensures GoodRoster(env, bundle.networkId, log[i].members, log[i].threshold)
    ensures Acceptable(env, JudgeOf(env, bundle, plane, log, i), log[i])
  {
    JudgeAccepts(env, bundle, plane, log, i);
    PrefixAccepted(env, bundle, plane, log, i);
    RestoredWellFormed(env, bundle, plane, log[..i]);
    AcceptExact(env, JudgeOf(env, bundle, plane, log, i), log[i]);
  }

  /** A log restores exactly when the bundle is good and each manifest is acceptable in its turn. */
  lemma RestoreNext(env: MembershipEnv, bundle: GenesisTrustBundle, plane: DiscoveryPlane, log: seq<Manifest>, m: Manifest)
    requires Restore(env, bundle, plane, log).Accepted?
    ensures Restore(env, bundle, plane, log + [m]).Accepted? <==> Acceptable(env, Restore(env, bundle, plane, log).value, m)
  {
    assert (log + [m])[..|log|] == log;
    RestoredWellFormed(env, bundle, plane, log);
    AcceptExact(env, Restore(env, bundle, plane, log).value, m);
  }

  lemma CurrentMembers(env: MembershipEnv, v: Verifier, id: Text, key: Text)
    requires WellFormed(env, v) && v.current.Some?
    ensures IsMember(v, id, key) <==> exists e :: ManifestMember(id, key, e) in v.current.value.members
  {
    var members := v.current.value.members;
    ShapeExact(env, v, v.current.value);
    GoodIsDistinct(env, v.networkId, members, v.current.value.threshold);
    KeysOfRoster(MemberId, MemberKey, members);
    if IsMember(v, id, key) {
      var i :| 0 <= i < |members| && MemberId(members[i]) == id && MemberKey(members[i]) == AuthorizedKeys(v)[id];
      assert ManifestMember(id, key, members[i].endpoint) == members[i];
    }
    if e :| ManifestMember(id, key, e) in members {
      var i :| 0 <= i < |members| && members[i] == ManifestMember(id, key, e);
      KeyOfMember(MemberId, MemberKey, members, i);
    }
  }

  lemma GenesisMembers(env: MembershipEnv, v: Verifier, id: Text, key: Text)
    requires WellFormed(env, v) && v.current.None?
    ensures IsMember(v, id, key) <==> TrustMember(id, key) in v.genesis.members
  {
    var members := v.genesis.members;
    PlaneIsGood(env, v.networkId, v.genesis);
    assert Distinct(TrustId, members);
    KeysOfRoster(TrustId, TrustKey, members);
    if IsMember(v, id, key) {
      var i :| 0 <= i < |members| && TrustId(members[i]) == id && TrustKey(members[i]) == AuthorizedKeys(v)[id];
      assert TrustMember(id, key) == members[i];
    }
    if TrustMember(id, key) in members {
      var i :| 0 <= i < |members| && members[i] == TrustMember(id, key);
      KeyOfMember(TrustId, TrustKey, members, i);
    }
  }

  /** Who is a member, by what key, and how many must sign: the current manifest's roster, or the genesis
      plane's before there is one. */
  lemma EffectiveExact(env: MembershipEnv, v: Verifier, id: Text, key: Text)
    requires WellFormed(env, v)
    ensures v.current.Some? ==>
      && (IsMember(v, id, key) <==> exists e :: ManifestMember(id, key, e) in v.current.value.members)
      && Threshold(v) == v.current.value.threshold && MemberCount(v) == |v.current.value.members|
    ensures v.current.None? ==>
      && (IsMember(v, id, key) <==> TrustMember(id, key) in v.genesis.members)
      && Threshold(v) == v.genesis.threshold && MemberCount(v) == |v.genesis.members|
  {
    if v.current.Some? {
      CurrentMembers(env, v, id, key);
    } else {
      GenesisMembers(env, v, id, key);
    }
  }
}
