/** Quorum intersection and the chain of trust over every log a verifier accepts. */
module MembershipRuns {
  import opened Binary
  import opened Sequences
  import opened Membership

  // ---------------------------------------------------------------- key maps

  function Ids<M>(id: M -> Text, members: seq<M>): set<Text> {
    set i | 0 <= i < |members| :: id(members[i])
  }

  /** The map's keys are the roster's ids, and each id maps to the key of some member that has it. */
  lemma {:induction false} KeysOfRoster<M>(id: M -> Text, key: M -> Text, members: seq<M>)
    ensures KeysOf(id, key, members).Keys == Ids(id, members)
    ensures forall a :: a in KeysOf(id, key, members) ==>
      exists i :: 0 <= i < |members| && id(members[i]) == a && key(members[i]) == KeysOf(id, key, members)[a]
  {
    if |members| > 0 {
      var n := |members| - 1;
      var fewer := members[..n];
      KeysOfRoster(id, key, fewer);
      assert forall i :: 0 <= i < n ==> fewer[i] == members[i];
      assert Ids(id, members) == Ids(id, fewer) + {id(members[n])};
      forall a | a in KeysOf(id, key, members)
        ensures exists i :: 0 <= i < |members| && id(members[i]) == a && key(members[i]) == KeysOf(id, key, members)[a]
      {
        if a == id(members[n]) {
          assert id(members[n]) == a && key(members[n]) == KeysOf(id, key, members)[a];
        } else {
          var i :| 0 <= i < n && id(fewer[i]) == a && key(fewer[i]) == KeysOf(id, key, fewer)[a];
          assert id(members[i]) == a && key(members[i]) == KeysOf(id, key, members)[a];
        }
      }
    }
  }

  lemma {:induction false} DistinctIds<M>(id: M -> Text, members: seq<M>)
    requires Distinct(id, members)
    ensures |Ids(id, members)| == |members|
  {
    if |members| > 0 {
      var n := |members| - 1;
      DistinctIds(id, members[..n]);
      assert Ids(id, members) == Ids(id, members[..n]) + {id(members[n])};
      assert id(members[n]) !in Ids(id, members[..n]);
    }
  }

  /** Every id is the network's name for its key, so different ids have different keys. */
  predicate NamesKeys(env: MembershipEnv, network: Text, keys: map<Text, Text>) {
    forall a :: a in keys ==> CheckIdentity(env, network, a, keys[a]).None?
  }

  predicate DistinctKeys(env: MembershipEnv, keys: map<Text, Text>) {
    forall a, b :: a in keys && b in keys && a != b ==>
      env.decodeKey(keys[a]).Some? && env.decodeKey(keys[b]).Some? && env.decodeKey(keys[a]) != env.decodeKey(keys[b])
  }

  lemma DifferentKeys(env: MembershipEnv, network: Text, keys: map<Text, Text>)
    requires NamesKeys(env, network, keys)
    ensures DistinctKeys(env, keys)
  {
    forall a, b | a in keys && b in keys && a != b
      ensures env.decodeKey(keys[a]).Some? && env.decodeKey(keys[b]).Some? && env.decodeKey(keys[a]) != env.decodeKey(keys[b])
    {
      assert CheckIdentity(env, network, a, keys[a]).None? && CheckIdentity(env, network, b, keys[b]).None?;
    }
  }

  lemma RosterNames<M>(env: MembershipEnv, network: Text, check: M -> Option<MembershipError>, id: M -> Text, key: M -> Text, members: seq<M>)
    requires forall m :: check(m).None? ==> CheckIdentity(env, network, id(m), key(m)).None?
    requires forall i :: 0 <= i < |members| ==> check(members[i]).None?
    ensures NamesKeys(env, network, KeysOf(id, key, members))
  {
    var keys := KeysOf(id, key, members);
    KeysOfRoster(id, key, members);
    forall a | a in keys ensures CheckIdentity(env, network, a, keys[a]).None? {
      var i :| 0 <= i < |members| && id(members[i]) == a && key(members[i]) == keys[a];
      assert check(members[i]).None?;
    }
  }

  // ---------------------------------------------------------------- reachable verifiers

  /** What every verifier built by `new` and `accept` satisfies. */
  predicate WellFormed(env: MembershipEnv, v: Verifier) {
    && CheckTrustPlane(env, v.networkId, v.genesis).None?
    && (v.current.Some? ==> ValidateStructure(env, v, v.current.value).None?)
  }

  lemma {:induction false} RestoredWellFormed(env: MembershipEnv, bundle: GenesisTrustBundle, plane: DiscoveryPlane, log: seq<Manifest>)
    requires Restore(env, bundle, plane, log).Accepted?
    ensures var v := Restore(env, bundle, plane, log).value;
      && WellFormed(env, v)
      && v.networkId == bundle.networkId && v.plane == plane
      && v.genesis == (if plane == Bank then bundle.bank else bundle.vault)
      && v.current == (if |log| == 0 then None else Some(log[|log| - 1]))
  {
    if |log| > 0 {
      RestoredWellFormed(env, bundle, plane, log[..|log| - 1]);
    }
  }

  /** In a well-formed verifier the effective roster has as many distinct ids as members, a threshold
      it can reach, and a different key for each id. */
  lemma EffectiveRoster(env: MembershipEnv, v: Verifier)
    requires WellFormed(env, v)
    ensures |AuthorizedKeys(v).Keys| == MemberCount(v)
    ensures 0 < Threshold(v) <= MemberCount(v)
    ensures NamesKeys(env, v.networkId, AuthorizedKeys(v)) && DistinctKeys(env, AuthorizedKeys(v))
  {
    match v.current
    case None => TrustRoster(env, v);
    case Some(m) => ManifestRoster(env, v.networkId, m);
  }

  lemma TrustRoster(env: MembershipEnv, v: Verifier)
    requires CheckTrustPlane(env, v.networkId, v.genesis).None?
    ensures |KeysOf(TrustId, TrustKey, v.genesis.members).Keys| == |v.genesis.members|
    ensures 0 < v.genesis.threshold <= |v.genesis.members|
    ensures var keys := KeysOf(TrustId, TrustKey, v.genesis.members);
      NamesKeys(env, v.networkId, keys) && DistinctKeys(env, keys)
  {
    var check := CheckTrustMember(env, v.networkId);
    RosterExact(check, TrustId, v.genesis.members, v.genesis.threshold);
    DistinctIds(TrustId, v.genesis.members);
    KeysOfRoster(TrustId, TrustKey, v.genesis.members);
    RosterNames(env, v.networkId, check, TrustId, TrustKey, v.genesis.members);
    DifferentKeys(env, v.networkId, KeysOf(TrustId, TrustKey, v.genesis.members));
  }

  lemma ManifestRoster(env: MembershipEnv, network: Text, m: Manifest)
    requires CheckManifestRoster(env, network, m).None?
    ensures |ManifestKeys(m).Keys| == |m.members|
    ensures 0 < m.threshold <= |m.members|
    ensures NamesKeys(env, network, ManifestKeys(m)) && DistinctKeys(env, ManifestKeys(m))
  {
    var check := CheckManifestMember(env, network);
    RosterExact(check, MemberId, m.members, m.threshold);
    DistinctIds(MemberId, m.members);
    KeysOfRoster(MemberId, MemberKey, m.members);
    RosterNames(env, network, check, MemberId, MemberKey, m.members);
    DifferentKeys(env, network, ManifestKeys(m));
  }

  // ---------------------------------------------------------------- valid signers

  /** `id` has put a signature on the content of `m` that verifies under its key in `keys`. */
  predicate Signed(env: MembershipEnv, m: Manifest, keys: map<Text, Text>, id: Text) {
    id in keys && exists i :: 0 <= i < |m.signatures| && m.signatures[i].signerId == id && env.verify(keys[id], m.signatures[i].signature, Content(m))
  }

  /** The roster members whose signature on `m` verifies. */
  function Signers(env: MembershipEnv, m: Manifest, keys: map<Text, Text>): (r: set<Text>)
    ensures forall id :: id in r <==> Signed(env, m, keys, id)
  {
    set id | id in keys && Signed(env, m, keys, id)
  }

  function FilteredIds(p: ManifestSignature -> bool, sigs: seq<ManifestSignature>): set<Text> {
    set s | s in sigs && p(s) :: s.signerId
  }

  lemma DistinctTail(sigs: seq<ManifestSignature>)
    requires Distinct(SignerOf, sigs) && |sigs| > 0
    ensures Distinct(SignerOf, sigs[1..])
    ensures forall s :: s in sigs[1..] ==> s.signerId != sigs[0].signerId
  {
    var rest := sigs[1..];
    forall i, j | 0 <= i < j < |rest| ensures SignerOf(rest[i]) != SignerOf(rest[j]) {
      assert SignerOf(sigs[i + 1]) != SignerOf(sigs[j + 1]);
    }
    forall i | 0 <= i < |rest| ensures SignerOf(rest[i]) != SignerOf(sigs[0]) {
      assert SignerOf(sigs[0]) != SignerOf(sigs[i + 1]);
    }
  }

  lemma {:induction false} FilterCounts(p: ManifestSignature -> bool, sigs: seq<ManifestSignature>)
    requires Distinct(SignerOf, sigs)
    ensures |Filter(p, sigs)| == |FilteredIds(p, sigs)|
  {
    if |sigs| > 0 {
      var first, rest := sigs[0], sigs[1..];
      assert sigs == [first] + rest;
      DistinctTail(sigs);
      FilterCounts(p, rest);
      assert first.signerId !in FilteredIds(p, rest);
      assert FilteredIds(p, sigs) == (if p(first) then {first.signerId} else {}) + FilteredIds(p, rest);
    }
  }

  /** With distinct signer ids, counting signatures counts people. */
  lemma CountIsSigners(env: MembershipEnv, m: Manifest, keys: map<Text, Text>)
    requires Distinct(SignerOf, m.signatures)
    ensures |Filter(Verifies(env, m, keys), m.signatures)| == |Signers(env, m, keys)|
  {
    var p := Verifies(env, m, keys);
    FilterCounts(p, m.signatures);
    forall id ensures id in FilteredIds(p, m.signatures) <==> id in Signers(env, m, keys) {
      if id in FilteredIds(p, m.signatures) {
        var s :| s in m.signatures && p(s) && s.signerId == id;
        var i :| 0 <= i < |m.signatures| && m.signatures[i] == s;
        assert Signed(env, m, keys, id);
      }
    }
    assert FilteredIds(p, m.signatures) == Signers(env, m, keys);
  }

  /** An acceptable manifest is signed by the effective threshold of the effective roster. */
  lemma AcceptedIsSigned(env: MembershipEnv, v: Verifier, m: Manifest)
    requires Objection(env, v, m).None?
    ensures |Signers(env, m, AuthorizedKeys(v))| >= Threshold(v)
  {
    CountIsSigners(env, m, AuthorizedKeys(v));
  }

  // ---------------------------------------------------------------- fork accountability

  lemma {:induction false} SubsetSize<T>(a: set<T>, b: set<T>)
    requires a <= b
    ensures |a| <= |b|
  {
    if a != {} {
      var x :| x in a;
      SubsetSize(a - {x}, b - {x});
    }
  }

  lemma Intersection<T>(a: set<T>, b: set<T>, u: set<T>)
    requires a <= u && b <= u
    ensures |a * b| >= |a| + |b| - |u|
  {
    assert |a + b| == |a| + |b| - |a * b|;
    SubsetSize(a + b, u);
  }

  /** Quorums of one roster share at least 2t - n members. */
  lemma SharedSigners(env: MembershipEnv, keys: map<Text, Text>, t: nat, m1: Manifest, m2: Manifest)
    requires |Signers(env, m1, keys)| >= t && |Signers(env, m2, keys)| >= t
    ensures |Signers(env, m1, keys) * Signers(env, m2, keys)| >= 2 * t - |keys.Keys|
  {
    Intersection(Signers(env, m1, keys), Signers(env, m2, keys), keys.Keys);
  }

  /** Any two manifests acceptable from one reachable state share at least 2t - n roster members whose
      signatures verify on the contents of both, each with a key of its own.  The state may be the
      genesis one. */
  lemma ForkAccountability(env: MembershipEnv, v: Verifier, m1: Manifest, m2: Manifest)
    requires WellFormed(env, v)
    requires Accept(env, v, m1).Accepted? && Accept(env, v, m2).Accepted?
    ensures var keys := AuthorizedKeys(v);
      var both := Signers(env, m1, keys) * Signers(env, m2, keys);
      && |both| >= 2 * Threshold(v) - MemberCount(v)
      && (forall id :: id in both ==> Signed(env, m1, keys, id) && Signed(env, m2, keys, id))
      && NamesKeys(env, v.networkId, keys) && DistinctKeys(env, keys)
  {
    EffectiveRoster(env, v);
    AcceptedIsSigned(env, v, m1);
    AcceptedIsSigned(env, v, m2);
    SharedSigners(env, AuthorizedKeys(v), Threshold(v), m1, m2);
  }

  /** Every prefix of an accepted log is accepted. */
  lemma PrefixAccepted(env: MembershipEnv, bundle: GenesisTrustBundle, plane: DiscoveryPlane, log: seq<Manifest>, i: nat)
    requires Restore(env, bundle, plane, log).Accepted? && i <= |log|
    ensures Restore(env, bundle, plane, log[..i]).Accepted?
  {
    if Restore(env, bundle, plane, log[..i]).Rejected? {
      RejectionStays(env, NewVerifier(env, bundle, plane), log, i);
    }
  }

  /** The verifier that judged entry `i` of an accepted log. */
  function JudgeOf(env: MembershipEnv, bundle: GenesisTrustBundle, plane: DiscoveryPlane, log: seq<Manifest>, i: nat): Verifier
    requires Restore(env, bundle, plane, log).Accepted? && i <= |log|
  {
    PrefixAccepted(env, bundle, plane, log, i);
    Restore(env, bundle, plane, log[..i]).value
  }

  lemma JudgeAccepts(env: MembershipEnv, bundle: GenesisTrustBundle, plane: DiscoveryPlane, log: seq<Manifest>, i: nat)
    requires Restore(env, bundle, plane, log).Accepted? && i < |log|
    ensures var v := JudgeOf(env, bundle, plane, log, i);
      && WellFormed(env, v)
      && v.current == (if i == 0 then None else Some(log[i - 1]))
      && v.genesis == (if plane == Bank then bundle.bank else bundle.vault)
      && Objection(env, v, log[i]).None?
  {
    PrefixAccepted(env, bundle, plane, log, i);
    PrefixAccepted(env, bundle, plane, log, i + 1);
    RestoredWellFormed(env, bundle, plane, log[..i]);
    assert log[..i + 1][..i] == log[..i];
  }

  function Contents(log: seq<Manifest>): (r: seq<Manifest>)
    ensures |r| == |log| && forall i :: 0 <= i < |log| ==> r[i] == Content(log[i])
  {
    Map(Content, log)
  }

  /** The contents of two logs agree before `i` and differ at `i`; signature lists do not matter. */
  predicate ForkAt(a: seq<Manifest>, b: seq<Manifest>, i: nat) {
    i < |a| && i < |b| && Contents(a)[..i] == Contents(b)[..i] && Content(a[i]) != Content(b[i])
  }

  lemma FirstDifference(a: seq<Manifest>, b: seq<Manifest>) returns (i: nat)
    requires !(Contents(a) <= Contents(b)) && !(Contents(b) <= Contents(a))
    ensures ForkAt(a, b, i)
  {
    var ca, cb := Contents(a), Contents(b);
    i := 0;
    while i < |a| && i < |b| && ca[i] == cb[i]
      invariant i <= |a| && i <= |b| && ca[..i] == cb[..i]
    {
      i := i + 1;
    }
    assert i == |a| ==> ca <= cb;
    assert i == |b| ==> cb <= ca;
  }

  /** Verifiers whose current manifests have one content have one roster in force. */
  lemma SameContentSameRoster(v: Verifier, w: Verifier)
    requires v.genesis == w.genesis
    requires v.current.Some? == w.current.Some?
    requires v.current.Some? ==> Content(v.current.value) == Content(w.current.value)
    ensures AuthorizedKeys(v) == AuthorizedKeys(w) && Threshold(v) == Threshold(w) && MemberCount(v) == MemberCount(w)
  {
    if v.current.Some? {
      var m, n := v.current.value, w.current.value;
      assert m.members == Content(m).members == Content(n).members == n.members;
      assert m.threshold == Content(m).threshold == Content(n).threshold == n.threshold;
    }
  }

  lemma JudgesAgree(env: MembershipEnv, bundle: GenesisTrustBundle, plane: DiscoveryPlane, a: seq<Manifest>, b: seq<Manifest>, i: nat)
    requires Restore(env, bundle, plane, a).Accepted? && Restore(env, bundle, plane, b).Accepted?
    requires ForkAt(a, b, i)
    ensures var v, w := JudgeOf(env, bundle, plane, a, i), JudgeOf(env, bundle, plane, b, i);
      AuthorizedKeys(v) == AuthorizedKeys(w) && Threshold(v) == Threshold(w) && MemberCount(v) == MemberCount(w)
  {
    JudgeAccepts(env, bundle, plane, a, i);
    JudgeAccepts(env, bundle, plane, b, i);
    if i > 0 {
      assert Contents(a)[..i][i - 1] == Contents(b)[..i][i - 1];
    }
    SameContentSameRoster(JudgeOf(env, bundle, plane, a, i), JudgeOf(env, bundle, plane, b, i));
  }

  /** Two logs accepted from one trust bundle whose contents diverge convict: where they part, both
      branches are judged by one roster and threshold, and at least 2t - n of its members, each with
      a key of its own, have signatures that verify on two different contents. */
  lemma LogForkAccountability(env: MembershipEnv, bundle: GenesisTrustBundle, plane: DiscoveryPlane, a: seq<Manifest>, b: seq<Manifest>)
      returns (i: nat)
    requires Restore(env, bundle, plane, a).Accepted? && Restore(env, bundle, plane, b).Accepted?
    requires !(Contents(a) <= Contents(b)) && !(Contents(b) <= Contents(a))
    ensures ForkAt(a, b, i)
    ensures var v, w := JudgeOf(env, bundle, plane, a, i), JudgeOf(env, bundle, plane, b, i);
      var keys := AuthorizedKeys(v);
      var both := Signers(env, a[i], keys) * Signers(env, b[i], keys);
      && AuthorizedKeys(w) == keys && Threshold(w) == Threshold(v) && MemberCount(w) == MemberCount(v)
      && |both| >= 2 * Threshold(v) - MemberCount(v)
      && (forall id :: id in both ==> Signed(env, a[i], keys, id) && Signed(env, b[i], keys, id))
      && DistinctKeys(env, keys)
  {
    i := FirstDifference(a, b);
    JudgeAccepts(env, bundle, plane, a, i);
    JudgeAccepts(env, bundle, plane, b, i);
    JudgesAgree(env, bundle, plane, a, b, i);
    var v, w := JudgeOf(env, bundle, plane, a, i), JudgeOf(env, bundle, plane, b, i);
    EffectiveRoster(env, v);
    AcceptedIsSigned(env, v, a[i]);
    AcceptedIsSigned(env, w, b[i]);
    SharedSigners(env, AuthorizedKeys(v), Threshold(v), a[i], b[i]);
  }

  // ---------------------------------------------------------------- the chain of trust

  /** What ties an accepted manifest to the one before it. */
  predicate TrustedStep(env: MembershipEnv, previous: Manifest, next: Manifest) {
    && next.previousManifestHash == env.canonicalHash(previous)
    && |Signers(env, next, ManifestKeys(previous))| >= previous.threshold
    && (!SameRoster(previous, next) ==>
          && previous.phase == Stable && next.phase == Joint
          && |Signers(env, next, ManifestKeys(next))| >= next.threshold)
    && (previous.phase == Joint ==>
          next.phase == Stable && SameRoster(previous, next) && previous.nextEpoch == Some(next.epoch))
    && previous.epoch <= next.epoch
    && (previous.epoch < U64_MAX ==> previous.epoch < next.epoch)
  }

  /** The chain of trust in every accepted log: the first manifest is signed by the genesis threshold,
      and every later one by the threshold of the one before it; the roster changes only at a Joint
      step that its own roster has signed too, and a Joint is followed only by a Stable with the same
      roster.  Keys are distinct wherever signatures are counted. */
  lemma TrustChain(env: MembershipEnv, bundle: GenesisTrustBundle, plane: DiscoveryPlane, log: seq<Manifest>)
    requires Restore(env, bundle, plane, log).Accepted?
    ensures var genesis := if plane == Bank then bundle.bank else bundle.vault;
      |log| > 0 ==>
        && log[0].phase == Stable && log[0].epoch > 0 && log[0].previousManifestHash == GENESIS_HASH
        && |Signers(env, log[0], KeysOf(TrustId, TrustKey, genesis.members))| >= genesis.threshold
        && DistinctKeys(env, KeysOf(TrustId, TrustKey, genesis.members))
    ensures forall i :: 0 < i < |log| ==> TrustedStep(env, log[i - 1], log[i])
    ensures forall i :: 0 <= i < |log| ==> DistinctKeys(env, ManifestKeys(log[i])) && |ManifestKeys(log[i]).Keys| == |log[i].members|
  {
    if |log| > 0 {
      FirstTrusted(env, bundle, plane, log);
    }
    forall i | 0 < i < |log| ensures TrustedStep(env, log[i - 1], log[i]) {
      StepTrusted(env, bundle, plane, log, i);
    }
    forall i | 0 <= i < |log|
      ensures DistinctKeys(env, ManifestKeys(log[i])) && |ManifestKeys(log[i]).Keys| == |log[i].members|
    {
      JudgeAccepts(env, bundle, plane, log, i);
      PrefixAccepted(env, bundle, plane, log, i);
      RestoredWellFormed(env, bundle, plane, log[..i]);
      ManifestRoster(env, bundle.networkId, log[i]);
    }
  }

  lemma FirstTrusted(env: MembershipEnv, bundle: GenesisTrustBundle, plane: DiscoveryPlane, log: seq<Manifest>)
    requires Restore(env, bundle, plane, log).Accepted? && |log| > 0
    ensures var genesis := if plane == Bank then bundle.bank else bundle.vault;
      && log[0].phase == Stable && log[0].epoch > 0 && log[0].previousManifestHash == GENESIS_HASH
      && |Signers(env, log[0], KeysOf(TrustId, TrustKey, genesis.members))| >= genesis.threshold
      && DistinctKeys(env, KeysOf(TrustId, TrustKey, genesis.members))
  {
    JudgeAccepts(env, bundle, plane, log, 0);
    var v := JudgeOf(env, bundle, plane, log, 0);
    PrefixAccepted(env, bundle, plane, log, 0);
    RestoredWellFormed(env, bundle, plane, log[..0]);
    AcceptedIsSigned(env, v, log[0]);
    TrustRoster(env, v);
  }

  lemma StepTrusted(env: MembershipEnv, bundle: GenesisTrustBundle, plane: DiscoveryPlane, log: seq<Manifest>, i: nat)
    requires Restore(env, bundle, plane, log).Accepted? && 0 < i < |log|
    ensures TrustedStep(env, log[i - 1], log[i])
  {
    JudgeAccepts(env, bundle, plane, log, i);
    var v := JudgeOf(env, bundle, plane, log, i);
    AcceptedIsSigned(env, v, log[i]);
    CountIsSigners(env, log[i], ManifestKeys(log[i]));
  }

  /** Epochs never decrease along an accepted log, and strictly increase below the largest u64. */
  lemma {:induction false} EpochsGrow(env: MembershipEnv, bundle: GenesisTrustBundle, plane: DiscoveryPlane, log: seq<Manifest>, i: nat, j: nat)
    requires Restore(env, bundle, plane, log).Accepted? && i < j < |log|
    ensures log[i].epoch <= log[j].epoch
    ensures log[i].epoch < U64_MAX ==> log[i].epoch < log[j].epoch
    decreases j
  {
    StepTrusted(env, bundle, plane, log, j);
    if i < j - 1 {
      EpochsGrow(env, bundle, plane, log, i, j - 1);
    }
  }

  // ---------------------------------------------------------------- the log behind a head hash

  /** No two manifests of the logs have one hash and different contents. */
  predicate HashesApart(env: MembershipEnv, a: seq<Manifest>, b: seq<Manifest>) {
    forall i, j :: 0 <= i < |a| && 0 <= j < |b| && env.canonicalHash(a[i]) == env.canonicalHash(b[j]) ==> Content(a[i]) == Content(b[j])
  }

  lemma HashesApartBefore(env: MembershipEnv, a: seq<Manifest>, b: seq<Manifest>, n: nat)
    requires HashesApart(env, a, b) && n <= |a| && n <= |b|
    ensures HashesApart(env, a[..n], b[..n])
  {
  }

  /** The hashes before the last manifests are pinned by their contents. */
  lemma PreviousHashes(env: MembershipEnv, bundle: GenesisTrustBundle, plane: DiscoveryPlane, a: seq<Manifest>, b: seq<Manifest>)
    requires Restore(env, bundle, plane, a).Accepted? && Restore(env, bundle, plane, b).Accepted?
    requires |a| == |b| > 0 && Content(a[|a| - 1]) == Content(b[|a| - 1])
    ensures var n := |a| - 1;
      && Restore(env, bundle, plane, a[..n]).Accepted? && Restore(env, bundle, plane, b[..n]).Accepted?
      && CurrentHash(env, Restore(env, bundle, plane, a[..n]).value) == CurrentHash(env, Restore(env, bundle, plane, b[..n]).value)
  {
    var n := |a| - 1;
    PrefixAccepted(env, bundle, plane, a, n);
    PrefixAccepted(env, bundle, plane, b, n);
    RestoredWellFormed(env, bundle, plane, a[..n]);
    RestoredWellFormed(env, bundle, plane, b[..n]);
    if n > 0 {
      StepTrusted(env, bundle, plane, a, n);
      StepTrusted(env, bundle, plane, b, n);
      assert a[n].previousManifestHash == Content(a[n]).previousManifestHash == Content(b[n]).previousManifestHash;
    }
  }

  lemma ContentsSnoc(a: seq<Manifest>, b: seq<Manifest>)
    requires |a| == |b| > 0
    requires Contents(a[..|a| - 1]) == Contents(b[..|a| - 1]) && Content(a[|a| - 1]) == Content(b[|a| - 1])
    ensures Contents(a) == Contents(b)
  {
    var n := |a| - 1;
    forall i | 0 <= i < |a| ensures Content(a[i]) == Content(b[i]) {
      if i < n {
        assert Contents(a[..n])[i] == Contents(b[..n])[i];
      }
    }
  }

  /** Equally long accepted logs with one current hash have the same contents throughout, or two of
      their manifests with different contents share a hash. */
  lemma {:induction false} LogBinding(env: MembershipEnv, bundle: GenesisTrustBundle, plane: DiscoveryPlane, a: seq<Manifest>, b: seq<Manifest>)
    requires Restore(env, bundle, plane, a).Accepted? && Restore(env, bundle, plane, b).Accepted?
    requires |a| == |b|
    requires CurrentHash(env, Restore(env, bundle, plane, a).value) == CurrentHash(env, Restore(env, bundle, plane, b).value)
    ensures Contents(a) == Contents(b) || !HashesApart(env, a, b)
    decreases |a|
  {
    if |a| > 0 && HashesApart(env, a, b) {
      var n := |a| - 1;
      RestoredWellFormed(env, bundle, plane, a);
      RestoredWellFormed(env, bundle, plane, b);
      assert Content(a[n]) == Content(b[n]);
      PreviousHashes(env, bundle, plane, a, b);
      HashesApartBefore(env, a, b, n);
      LogBinding(env, bundle, plane, a[..n], b[..n]);
      ContentsSnoc(a, b);
    }
  }
}
