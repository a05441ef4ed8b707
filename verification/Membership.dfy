/** The OLD -> JOINT -> NEW roster protocol (kerosene-membership). */
module Membership {
  import opened Binary
  import opened Sequences

  type u16 = n: int | 0 <= n < 0x1_0000

  datatype DiscoveryPlane = Bank | Vault

  datatype MembershipPhase = Stable | Joint

  datatype TrustMember = TrustMember(memberId: Text, rootPublicKey: Text)

  datatype ManifestMember = ManifestMember(memberId: Text, rootPublicKey: Text, endpoint: Text)

  datatype TrustPlane = TrustPlane(threshold: u16, members: seq<TrustMember>)

  datatype GenesisTrustBundle = GenesisTrustBundle(contractVersion: Text, networkId: Text, bank: TrustPlane, vault: TrustPlane)

  datatype ManifestSignature = ManifestSignature(signerId: Text, signature: Text)

  datatype Manifest = Manifest(
    contractVersion: Text,
    networkId: Text,
    plane: DiscoveryPlane,
    epoch: u64,
    phase: MembershipPhase,
    previousManifestHash: Text,
    threshold: u16,
    members: seq<ManifestMember>,
    nextEpoch: Option<u64>,
    signatures: seq<ManifestSignature>)

  datatype MembershipError =
    | ContractVersion | ScopeMismatch | InvalidThreshold | MemberIdMismatch | InvalidEndpoint
    | DuplicateIdentity | HashChain | EpochTransition | JointConsensusRequired | JointRosterMismatch
    | InsufficientSignatures

  datatype Outcome<+T> = Accepted(value: T) | Rejected(error: MembershipError)

  /** What the protocol calls and this model leaves open: the contract version, the canonical hash of a
      manifest, the decoder of a 32-byte key, the network-bound member id of a key, the check of an
      endpoint, and signature verification (key text, signature text, signed content). */
  datatype MembershipEnv = MembershipEnv(
    contractVersion: Text,
    canonicalHash: Manifest -> Text,
    decodeKey: Text -> Option<Bytes>,
    memberId: (Text, Bytes) -> Text,
    isOnion: Text -> bool,
    verify: (Text, Text, Manifest) -> bool)

  /** The fields of a `MembershipVerifier`. */
  datatype Verifier = Verifier(networkId: Text, plane: DiscoveryPlane, genesis: TrustPlane, current: Option<Manifest>)

  // ---------------------------------------------------------------- rosters

  function TrustId(m: TrustMember): Text { m.memberId }

  function TrustKey(m: TrustMember): Text { m.rootPublicKey }

  function MemberId(m: ManifestMember): Text { m.memberId }

  function MemberKey(m: ManifestMember): Text { m.rootPublicKey }

  /** `validate_member`: the id is the network's name for the key. */
  function CheckIdentity(env: MembershipEnv, network: Text, id: Text, key: Text): Option<MembershipError> {
    match env.decodeKey(key)
    case None => Some(MemberIdMismatch)
    case Some(bytes) => if env.memberId(network, bytes) != id then Some(MemberIdMismatch) else None
  }

  function CheckTrustMember(env: MembershipEnv, network: Text): TrustMember -> Option<MembershipError> {
    (m: TrustMember) => CheckIdentity(env, network, m.memberId, m.rootPublicKey)
  }

  function CheckManifestMember(env: MembershipEnv, network: Text): ManifestMember -> Option<MembershipError> {
    (m: ManifestMember) =>
      var e := CheckIdentity(env, network, m.memberId, m.rootPublicKey);
      if e.Some? then e else if !env.isOnion(m.endpoint) then Some(InvalidEndpoint) else None
  }

  /** Members checked in order, each for itself and then against the ids seen before it. */
  function CheckMembers<M>(check: M -> Option<MembershipError>, id: M -> Text, members: seq<M>, seen: set<Text>): Option<MembershipError>
    decreases |members|
  {
    if |members| == 0 then None
    else if check(members[0]).Some? then check(members[0])
    else if id(members[0]) in seen then Some(DuplicateIdentity)
    else CheckMembers(check, id, members[1..], seen + {id(members[0])})
  }

  function CheckRoster<M>(check: M -> Option<MembershipError>, id: M -> Text, members: seq<M>, threshold: u16): Option<MembershipError> {
    if threshold == 0 || threshold > |members| then Some(InvalidThreshold) else CheckMembers(check, id, members, {})
  }

  /** The loop over a `HashSet` behind both roster validations. */
  method ValidateRoster<M>(check: M -> Option<MembershipError>, id: M -> Text, members: seq<M>, threshold: u16)
      returns (r: Option<MembershipError>)
    ensures r == CheckRoster(check, id, members, threshold)
  {
    if threshold == 0 || threshold > |members| {
      return Some(InvalidThreshold);
    }
    var ids: set<Text> := {};
    var i := 0;
    while i < |members|
      invariant i <= |members|
      invariant CheckMembers(check, id, members, {}) == CheckMembers(check, id, members[i..], ids)
    {
      assert members[i..][0] == members[i] && members[i..][1..] == members[i + 1..];
      var e := check(members[i]);
      if e.Some? {
        return e;
      }
      if id(members[i]) in ids {
        return Some(DuplicateIdentity);
      }
      ids := ids + {id(members[i])};
      i := i + 1;
    }
    return None;
  }

  predicate Distinct<M>(id: M -> Text, members: seq<M>) {
    forall i, j :: 0 <= i < j < |members| ==> id(members[i]) != id(members[j])
  }

  lemma {:induction false} CheckMembersExact<M>(check: M -> Option<MembershipError>, id: M -> Text, members: seq<M>, seen: set<Text>)
    ensures CheckMembers(check, id, members, seen).None? <==>
      Distinct(id, members) && forall i :: 0 <= i < |members| ==> check(members[i]).None? && id(members[i]) !in seen
    decreases |members|
  {
    if |members| > 0 {
      var rest := members[1..];
      CheckMembersExact(check, id, rest, seen + {id(members[0])});
      assert forall i :: 0 < i < |members| ==> members[i] == rest[i - 1];
      if Distinct(id, members) {
        assert Distinct(id, rest);
        assert forall i :: 0 <= i < |rest| ==> id(rest[i]) == id(members[i + 1]) != id(members[0]);
      }
    }
  }

  /** A roster passes exactly when its threshold is between one and its size, every member checks out,
      and no id occurs twice. */
  lemma RosterExact<M>(check: M -> Option<MembershipError>, id: M -> Text, members: seq<M>, threshold: u16)
    ensures CheckRoster(check, id, members, threshold).None? <==>
      && 0 < threshold <= |members|
      && Distinct(id, members)
      && forall i :: 0 <= i < |members| ==> check(members[i]).None?
  {
    CheckMembersExact(check, id, members, {});
  }

  /** The `HashMap` from ids to keys. */
  function KeysOf<M>(id: M -> Text, key: M -> Text, members: seq<M>): map<Text, Text> {
    if |members| == 0 then map[]
    else KeysOf(id, key, members[..|members| - 1])[id(members[|members| - 1]) := key(members[|members| - 1])]
  }

  function ManifestKeys(m: Manifest): map<Text, Text> {
    KeysOf(MemberId, MemberKey, m.members)
  }

  // ---------------------------------------------------------------- effective roster

  function AuthorizedKeys(v: Verifier): map<Text, Text> {
    match v.current
    case Some(m) => ManifestKeys(m)
    case None => KeysOf(TrustId, TrustKey, v.genesis.members)
  }

  function Threshold(v: Verifier): nat {
    match v.current
    case Some(m) => m.threshold
    case None => v.genesis.threshold
  }

  function MemberCount(v: Verifier): nat {
    match v.current
    case Some(m) => |m.members|
    case None => |v.genesis.members|
  }

  predicate IsMember(v: Verifier, id: Text, key: Text) {
    id in AuthorizedKeys(v) && AuthorizedKeys(v)[id] == key
  }

  function CurrentHash(env: MembershipEnv, v: Verifier): Option<Text> {
    match v.current
    case Some(m) => Some(env.canonicalHash(m))
    case None => None
  }

  // ---------------------------------------------------------------- acceptance

  function SignerOf(s: ManifestSignature): Text { s.signerId }

  predicate SameRoster(a: Manifest, b: Manifest) {
    a.threshold == b.threshold && a.members == b.members
  }

  function CheckManifestRoster(env: MembershipEnv, network: Text, m: Manifest): Option<MembershipError> {
    CheckRoster(CheckManifestMember(env, network), MemberId, m.members, m.threshold)
  }

  /** `validate_structure`. */
  function ValidateStructure(env: MembershipEnv, v: Verifier, m: Manifest): Option<MembershipError> {
    if m.contractVersion != env.contractVersion then Some(ContractVersion)
    else if m.networkId != v.networkId || m.plane != v.plane then Some(ScopeMismatch)
    else if CheckManifestRoster(env, v.networkId, m).Some? then CheckManifestRoster(env, v.networkId, m)
    else if !Distinct(SignerOf, m.signatures) then Some(DuplicateIdentity)
    else if m.phase == Stable && m.nextEpoch.Some? then Some(EpochTransition)
    else if m.phase == Joint && (m.nextEpoch.None? || m.nextEpoch.value <= m.epoch) then Some(EpochTransition)
    else None
  }

  /** What a signature covers: the signing bytes of a manifest leave its signature list out. */
  function Content(m: Manifest): Manifest {
    m.(signatures := [])
  }

  /** A signature by an allowed signer that verifies under the allowed key. */
  function Verifies(env: MembershipEnv, m: Manifest, allowed: map<Text, Text>): ManifestSignature -> bool {
    (s: ManifestSignature) => s.signerId in allowed && env.verify(allowed[s.signerId], s.signature, Content(m))
  }

  function RequireSignatures(env: MembershipEnv, m: Manifest, allowed: map<Text, Text>, threshold: nat): Option<MembershipError> {
    if |Filter(Verifies(env, m, allowed), m.signatures)| < threshold then Some(InsufficientSignatures) else None
  }

  function RequireChain(env: MembershipEnv, current: Manifest, next: Manifest, epoch: u64): Option<MembershipError> {
    if next.previousManifestHash != env.canonicalHash(current) then Some(HashChain)
    else if next.epoch != epoch then Some(EpochTransition)
    else None
  }

  /** Sixty-four zeros. */
  const GENESIS_HASH: Text := seq(64, _ => 48)

  function VerifyInitial(env: MembershipEnv, v: Verifier, m: Manifest): Option<MembershipError> {
    if m.phase != Stable || m.epoch == 0 || m.previousManifestHash != GENESIS_HASH then Some(EpochTransition)
    else RequireSignatures(env, m, KeysOf(TrustId, TrustKey, v.genesis.members), v.genesis.threshold)
  }

  function VerifyAfterStable(env: MembershipEnv, current: Manifest, next: Manifest): Option<MembershipError> {
    var chain := RequireChain(env, current, next, SaturatingAdd(current.epoch, 1));
    if chain.Some? then chain
    else
      var signed := RequireSignatures(env, next, ManifestKeys(current), current.threshold);
      if signed.Some? then signed
      else if next.phase == Stable then
        if !SameRoster(current, next) then Some(JointConsensusRequired) else None
      else RequireSignatures(env, next, ManifestKeys(next), next.threshold)
  }

  function VerifyAfterJoint(env: MembershipEnv, joint: Manifest, next: Manifest): Option<MembershipError> {
    if next.phase != Stable then Some(EpochTransition)
    else if joint.nextEpoch.None? then Some(EpochTransition)
    else
      var chain := RequireChain(env, joint, next, joint.nextEpoch.value);
      if chain.Some? then chain
      else if !SameRoster(joint, next) then Some(JointRosterMismatch)
      else RequireSignatures(env, next, ManifestKeys(joint), joint.threshold)
  }

  /** Why a manifest is turned away, if it is. */
  function Objection(env: MembershipEnv, v: Verifier, m: Manifest): Option<MembershipError> {
    var structure := ValidateStructure(env, v, m);
    if structure.Some? then structure
    else
      match v.current
      case None => VerifyInitial(env, v, m)
      case Some(current) =>
        if current.phase == Stable then VerifyAfterStable(env, current, m) else VerifyAfterJoint(env, current, m)
  }

  function Accept(env: MembershipEnv, v: Verifier, m: Manifest): Outcome<Verifier> {
    match Objection(env, v, m)
    case Some(e) => Rejected(e)
    case None => Accepted(v.(current := Some(m)))
  }

  function CheckTrustPlane(env: MembershipEnv, network: Text, plane: TrustPlane): Option<MembershipError> {
    CheckRoster(CheckTrustMember(env, network), TrustId, plane.members, plane.threshold)
  }

  /** `MembershipVerifier::new`. */
  function NewVerifier(env: MembershipEnv, bundle: GenesisTrustBundle, plane: DiscoveryPlane): Outcome<Verifier> {
    if bundle.contractVersion != env.contractVersion then Rejected(ContractVersion)
    else if CheckTrustPlane(env, bundle.networkId, bundle.bank).Some? then
      Rejected(CheckTrustPlane(env, bundle.networkId, bundle.bank).value)
    else if CheckTrustPlane(env, bundle.networkId, bundle.vault).Some? then
      Rejected(CheckTrustPlane(env, bundle.networkId, bundle.vault).value)
    else Accepted(Verifier(bundle.networkId, plane, if plane == Bank then bundle.bank else bundle.vault, None))
  }

  /** Manifests accepted in order, up to the first one turned away. */
  function AcceptAll(env: MembershipEnv, start: Outcome<Verifier>, log: seq<Manifest>): Outcome<Verifier> {
    if |log| == 0 then start
    else
      match AcceptAll(env, start, log[..|log| - 1])
      case Rejected(e) => Rejected(e)
      case Accepted(v) => Accept(env, v, log[|log| - 1])
  }

  /** `MembershipVerifier::restore`. */
  function Restore(env: MembershipEnv, bundle: GenesisTrustBundle, plane: DiscoveryPlane, log: seq<Manifest>): Outcome<Verifier> {
    AcceptAll(env, NewVerifier(env, bundle, plane), log)
  }

  /** A rejection anywhere is the result of the whole. */
  lemma {:induction false} RejectionStays(env: MembershipEnv, start: Outcome<Verifier>, log: seq<Manifest>, i: nat)
    requires i <= |log| && AcceptAll(env, start, log[..i]).Rejected?
    ensures AcceptAll(env, start, log) == AcceptAll(env, start, log[..i])
    decreases |log|
  {
    if i < |log| {
      assert log[..|log| - 1][..i] == log[..i];
      RejectionStays(env, start, log[..|log| - 1], i);
    } else {
      assert log[..i] == log;
    }
  }

  class MembershipVerifier {
    const env: MembershipEnv
    const networkId: Text
    const plane: DiscoveryPlane
    const genesis: TrustPlane
    var current: Option<Manifest>

    function State(): Verifier
      reads this
    {
      Verifier(networkId, plane, genesis, current)
    }

    /** A verifier with given contents; also `clone`. */
    constructor Of(env: MembershipEnv, v: Verifier)
      ensures State() == v && this.env == env
    {
      this.env := env;
      networkId, plane, genesis, current := v.networkId, v.plane, v.genesis, v.current;
    }

    /** `new`: both planes are validated, whichever is used. */
    static method Create(env: MembershipEnv, bundle: GenesisTrustBundle, plane: DiscoveryPlane)
        returns (r: Outcome<MembershipVerifier>)
      ensures r.Rejected? ==> NewVerifier(env, bundle, plane) == Rejected(r.error)
      ensures r.Accepted? ==> fresh(r.value) && r.value.env == env && NewVerifier(env, bundle, plane) == Accepted(r.value.State())
    {
      if bundle.contractVersion != env.contractVersion {
        return Rejected(ContractVersion);
      }
      var e := ValidateRoster(CheckTrustMember(env, bundle.networkId), TrustId, bundle.bank.members, bundle.bank.threshold);
      if e.Some? {
        return Rejected(e.value);
      }
      e := ValidateRoster(CheckTrustMember(env, bundle.networkId), TrustId, bundle.vault.members, bundle.vault.threshold);
      if e.Some? {
        return Rejected(e.value);
      }
      var v := new MembershipVerifier.Of(env,
        Verifier(bundle.networkId, plane, if plane == Bank then bundle.bank else bundle.vault, None));
      return Accepted(v);
    }

    method CheckSigners(m: Manifest) returns (distinct: bool)
      ensures distinct == Distinct(SignerOf, m.signatures)
    {
      var signers: set<Text> := {};
      var i := 0;
      while i < |m.signatures|
        invariant i <= |m.signatures|
        invariant forall x :: x in signers <==> exists k :: 0 <= k < i && SignerOf(m.signatures[k]) == x
        invariant forall j, k :: 0 <= j < k < i ==> SignerOf(m.signatures[j]) != SignerOf(m.signatures[k])
      {
        var signer := m.signatures[i].signerId;
        if signer in signers {
          return false;
        }
        signers := signers + {signer};
        assert SignerOf(m.signatures[i]) == signer;
        i := i + 1;
      }
      return true;
    }

    method CheckStructure(m: Manifest) returns (r: Option<MembershipError>)
      ensures r == ValidateStructure(env, State(), m)
    {
      if m.contractVersion != env.contractVersion {
        return Some(ContractVersion);
      }
      if m.networkId != networkId || m.plane != plane {
        return Some(ScopeMismatch);
      }
      var e := ValidateRoster(CheckManifestMember(env, networkId), MemberId, m.members, m.threshold);
      if e.Some? {
        return e;
      }
      var distinct := CheckSigners(m);
      if !distinct {
        return Some(DuplicateIdentity);
      }
      match m.phase {
        case Stable => return if m.nextEpoch.Some? then Some(EpochTransition) else None;
        case Joint => return if m.nextEpoch.None? || m.nextEpoch.value <= m.epoch then Some(EpochTransition) else None;
      }
    }

    /** `accept`: nothing changes unless every check passes. */
    method AcceptManifest(m: Manifest) returns (r: Option<MembershipError>)
      modifies this`current
      ensures r == Objection(env, old(State()), m)
      ensures State() == if r.None? then old(State()).(current := Some(m)) else old(State())
    {
      r := CheckStructure(m);
      if r.Some? {
        return;
      }
      match current {
        case None => r := VerifyInitial(env, State(), m);
        case Some(c) => r := if c.phase == Stable then VerifyAfterStable(env, c, m) else VerifyAfterJoint(env, c, m);
      }
      if r.None? {
        current := Some(m);
      }
    }

    static method RestoreLog(env: MembershipEnv, bundle: GenesisTrustBundle, plane: DiscoveryPlane, log: seq<Manifest>)
        returns (r: Outcome<MembershipVerifier>)
      ensures r.Rejected? ==> Restore(env, bundle, plane, log) == Rejected(r.error)
      ensures r.Accepted? ==> fresh(r.value) && r.value.env == env && Restore(env, bundle, plane, log) == Accepted(r.value.State())
    {
      r := Create(env, bundle, plane);
      ghost var start := NewVerifier(env, bundle, plane);
      if r.Rejected? {
        assert log[..0] == [];
        RejectionStays(env, start, log, 0);
        return;
      }
      var verifier := r.value;
      var i := 0;
      while i < |log|
        invariant i <= |log|
        invariant fresh(verifier) && verifier.env == env
        invariant AcceptAll(env, start, log[..i]) == Accepted(verifier.State())
      {
        var e := verifier.AcceptManifest(log[i]);
        assert log[..i + 1][..i] == log[..i];
        if e.Some? {
          RejectionStays(env, start, log, i + 1);
          return Rejected(e.value);
        }
        i := i + 1;
      }
      assert log[..i] == log;
      return Accepted(verifier);
    }
  }
}
