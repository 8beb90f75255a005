/** Refreshing the online roles over an unchanged, offline-signed release, and
    what a client that holds the same root makes of the result. */
module TufRefresh {
  import opened Results
  import opened CodeUnits
  import opened TufMetadata
  import opened TufPublication

  const UNVERIFIED := "VES_TUF_PUBLICATION_REFRESH_UNVERIFIED"

  predicate RolePublished(r: Role) {
    && r.keyids != [] && (forall id :: id in r.keyids ==> IsKeyId(id))
    && |KeySet(r.keyids, Whole)| == |r.keyids| && 1 <= r.threshold <= |r.keyids|
  }

  predicate KeysPublished(keys: map<string, string>) { forall id :: id in keys ==> IsKeyId(id) }

  predicate RootVerified(crypto: Crypto, root: Envelope, now: int) {
    && root.signed.RootSigned? && KeysPublished(root.signed.keys)
    && RolePublished(root.signed.roles.root) && RolePublished(root.signed.roles.timestamp)
    && RolePublished(root.signed.roles.snapshot) && RolePublished(root.signed.roles.targets)
    && MeetsThreshold(crypto, root, root.signed.keys, root.signed.roles.root)
    && root.signed.version > 0 && root.signed.expires > now
  }

  predicate DelegatesComponents(targets: Signed) {
    && targets.TargetsSigned? && targets.delegations.Some?
    && |targets.delegations.value.roles| == 1 && targets.delegations.value.roles[0].name == "components"
    && KeysPublished(targets.delegations.value.keys) && RolePublished(targets.delegations.value.roles[0].role)
  }

  /** `verifyOfflineMetadata`: root, targets and components all verify, and nothing has expired. */
  predicate OfflineVerified(crypto: Crypto, root: Envelope, targets: Envelope, components: Envelope, now: int) {
    && RootVerified(crypto, root, now)
    && targets.signed.TargetsSigned?
    && MeetsThreshold(crypto, targets, root.signed.keys, root.signed.roles.targets)
    && DelegatesComponents(targets.signed)
    && components.signed.TargetsSigned?
    && MeetsThreshold(crypto, components, targets.signed.delegations.value.keys, targets.signed.delegations.value.roles[0].role)
    && targets.signed.version > 0 && components.signed.version == targets.signed.version
    && targets.signed.expires > now && components.signed.expires > now
  }

  function Sooner(a: int, b: int): int { if a < b then a else b }

  function AuthorityKeys(root: Signed, ids: seq<string>): map<string, string>
    requires root.RootSigned?
  {
    map id | id in root.keys && id in ids :: root.keys[id]
  }

  function DelegatedKeys(keys: map<string, string>, role: Role): map<string, string> {
    map id | id in keys && id in role.keyids :: keys[id]
  }

  /** The table of keys the online signers are held against: the root's keys for its root and targets
      roles, and over them the keys of the components delegation. An id that both declare stands for the
      delegation's key alone. */
  function OfflineKeys(root: Signed, targets: Signed): map<string, string>
    requires root.RootSigned? && DelegatesComponents(targets)
  {
    AuthorityKeys(root, root.roles.root.keyids + root.roles.targets.keyids) +
    DelegatedKeys(targets.delegations.value.keys, targets.delegations.value.roles[0].role)
  }

  method OfflineKeyTable(root: Signed, targets: Signed) returns (keys: map<string, string>)
    requires root.RootSigned? && DelegatesComponents(targets)
    ensures keys == OfflineKeys(root, targets)
  {
    hide RolePublished, KeysPublished;
    keys := map[];
    var ids := root.roles.root.keyids + root.roles.targets.keyids;
    for i := 0 to |ids|
      invariant keys == AuthorityKeys(root, ids[..i])
    {
      assert ids[..i + 1] == ids[..i] + [ids[i]];
      if ids[i] in root.keys {
        keys := keys[ids[i] := root.keys[ids[i]]];
      }
    }
    assert ids[..|ids|] == ids;
    var delegated := DelegatedKeyTable(targets.delegations.value.keys, targets.delegations.value.roles[0].role);
    keys := keys + delegated;
  }

  method DelegatedKeyTable(declared: map<string, string>, role: Role) returns (keys: map<string, string>)
    ensures keys == DelegatedKeys(declared, role)
  {
    keys := map[];
    var todo := declared.Keys;
    while todo != {}
      invariant todo <= declared.Keys
      invariant forall id :: id in keys <==> id in declared && id in role.keyids && id !in todo
      invariant forall id :: id in keys ==> keys[id] == declared[id]
      decreases |todo|
    {
      var id :| id in todo;
      if id in role.keyids {
        keys := keys[id := declared[id]];
      }
      todo := todo - {id};
    }
  }

  // ---- Online signers ----

  function SignerError(
    crypto: Crypto, s: Signer, declared: Role, rootKeys: map<string, string>, offline: map<string, string>): Option<string>
  {
    var material := crypto.spki(s.publicKeyPem);
    if material.None? then Some("VES_TUF_PUBLICATION_SIGNER_INVALID")
    else if s.keyId in offline || exists id :: id in offline && crypto.spki(offline[id]) == material then
      Some("VES_TUF_PUBLICATION_ROLE_SEPARATION")
    else if s.keyId !in declared.keyids || s.keyId !in rootKeys || crypto.spki(rootKeys[s.keyId]) != material then
      Some("VES_TUF_PUBLICATION_SIGNER_INVALID")
    else None
  }

  function SignersError(
    crypto: Crypto, signers: seq<Signer>, declared: Role, rootKeys: map<string, string>, offline: map<string, string>)
    : Option<string>
  {
    if signers == [] then None
    else FirstOf(SignerError(crypto, signers[0], declared, rootKeys, offline),
                 SignersError(crypto, signers[1..], declared, rootKeys, offline))
  }

  function OnlineRoleError(
    crypto: Crypto, r: RoleSigners, declared: Role, rootKeys: map<string, string>, offline: map<string, string>)
    : Option<string>
  {
    if RoleError(r).Some? then RoleError(r)
    else if |r.signers| < declared.threshold then Some("VES_TUF_PUBLICATION_THRESHOLD_INVALID")
    else SignersError(crypto, r.signers, declared, rootKeys, offline)
  }

  function OnlineError(
    crypto: Crypto, timestamp: RoleSigners, snapshot: RoleSigners, root: Signed, offline: map<string, string>): Option<string>
    requires root.RootSigned?
  {
    if exists id :: id in offline && crypto.spki(offline[id]).None? then Some("VES_TUF_PUBLICATION_SIGNER_INVALID")
    else FirstOf(OnlineRoleError(crypto, timestamp, root.roles.timestamp, root.keys, offline),
                 OnlineRoleError(crypto, snapshot, root.roles.snapshot, root.keys, offline))
  }

  lemma {:induction false} SignersErrorIff(
    crypto: Crypto, signers: seq<Signer>, declared: Role, rootKeys: map<string, string>, offline: map<string, string>)
    ensures SignersError(crypto, signers, declared, rootKeys, offline).None? <==>
              forall s :: s in signers ==> SignerError(crypto, s, declared, rootKeys, offline).None?
  {
    hide SignerError;
    if signers != [] {
      SignersErrorIff(crypto, signers[1..], declared, rootKeys, offline);
      assert signers == [signers[0]] + signers[1..];
    }
  }

  // ---- Refresh ----

  datatype RefreshInput = RefreshInput(
    trustedRoot: Envelope,
    targets: Envelope,
    components: Envelope,
    snapshotVersion: int,
    timestampVersion: int,
    snapshotExpires: int,
    timestampExpires: int,
    timestamp: RoleSigners,
    snapshot: RoleSigners)

  function VersionError(version: int, targetsVersion: int): Option<string> {
    if version <= 0 then Some("VES_TUF_PUBLICATION_INPUT_INVALID")
    else if version <= targetsVersion then Some("VES_TUF_PUBLICATION_REFRESH_VERSION_INVALID")
    else None
  }

  function ExpiriesOf(x: RefreshInput): Expiries
    requires x.trustedRoot.signed.RootSigned? && x.targets.signed.TargetsSigned? && x.components.signed.TargetsSigned?
  {
    Expiries(x.trustedRoot.signed.expires, x.timestampExpires, x.snapshotExpires,
             Sooner(x.components.signed.expires, x.targets.signed.expires))
  }

  function RefreshError(crypto: Crypto, x: RefreshInput, now: int): Option<string>
    requires OfflineVerified(crypto, x.trustedRoot, x.targets, x.components, now)
  {
    FirstOf(VersionError(x.snapshotVersion, x.targets.signed.version),
    FirstOf(VersionError(x.timestampVersion, x.targets.signed.version),
    FirstOf(ExpiryError(ExpiriesOf(x), now),
            OnlineError(crypto, x.timestamp, x.snapshot, x.trustedRoot.signed,
                        OfflineKeys(x.trustedRoot.signed, x.targets.signed)))))
  }

  function SignedOnline(crypto: Crypto, x: RefreshInput): Result<Online>
    requires x.targets.signed.TargetsSigned?
  {
    SignOnlineRoles(
      crypto, x.targets, x.components, Versions(x.targets.signed.version, x.snapshotVersion, x.timestampVersion),
      x.snapshotExpires, x.timestampExpires, x.timestamp.signers, x.snapshot.signers)
  }

  function Refresh(crypto: Crypto, x: RefreshInput, now: int): Result<Online> {
    if !OfflineVerified(crypto, x.trustedRoot, x.targets, x.components, now) then Err(UNVERIFIED)
    else if RefreshError(crypto, x, now).Some? then Err(RefreshError(crypto, x, now).value)
    else
      match SignedOnline(crypto, x)
      case Err(code) => Err(code)
      case Ok(online) =>
        var root := x.trustedRoot.signed;
        if !MeetsThreshold(crypto, online.snapshot, root.keys, root.roles.snapshot)
           || !MeetsThreshold(crypto, online.timestamp, root.keys, root.roles.timestamp)
        then Err(UNVERIFIED)
        else Ok(online)
  }

  // ---- The client's side ----

  /** What a client that trusts `root` checks before it installs, sections 5.4 to 5.6 of the TUF
      specification: each file is signed by its role, unexpired, and exactly the file, at exactly the
      version, that the file above it names. */
  predicate ClientAccepts(
    crypto: Crypto, root: Envelope, online: Online, targets: Envelope, components: Envelope, at: int)
  {
    && root.signed.RootSigned? && root.signed.expires > at
    && online.timestamp.signed.TimestampSigned? && online.timestamp.signed.expires > at
    && MeetsThreshold(crypto, online.timestamp, root.signed.keys, root.signed.roles.timestamp)
    && online.snapshot.signed.SnapshotSigned? && online.snapshot.signed.expires > at
    && online.timestamp.signed.snapshotMeta == FileMeta(online.snapshot.signed.version, OfFile(online.snapshot))
    && MeetsThreshold(crypto, online.snapshot, root.signed.keys, root.signed.roles.snapshot)
    && targets.signed.TargetsSigned? && targets.signed.expires > at
    && online.snapshot.signed.targetsMeta == FileMeta(targets.signed.version, OfFile(targets))
    && MeetsThreshold(crypto, targets, root.signed.keys, root.signed.roles.targets)
    && DelegatesComponents(targets.signed)
    && components.signed.TargetsSigned? && components.signed.expires > at
    && online.snapshot.signed.componentsMeta == FileMeta(components.signed.version, OfFile(components))
    && MeetsThreshold(
         crypto, components, targets.signed.delegations.value.keys, targets.signed.delegations.value.roles[0].role)
  }

  /** Everything a refresh emits is accepted by a client of the same root, over the same offline bytes,
      until its timestamp expires; it raises both online versions above the targets they pin, and the
      timestamp is the first file to expire. */
  lemma RefreshServesClients(crypto: Crypto, x: RefreshInput, now: int, at: int)
    requires Refresh(crypto, x, now).Ok?
    ensures var online := Refresh(crypto, x, now).value;
            && (at < x.timestampExpires <==>
                  ClientAccepts(crypto, x.trustedRoot, online, x.targets, x.components, at))
            && online.snapshot.signed.version > x.targets.signed.version
            && online.timestamp.signed.version > x.targets.signed.version
            && online.timestamp.signed.expires <= online.snapshot.signed.expires
            && online.snapshot.signed.expires <= Sooner(x.components.signed.expires, x.targets.signed.expires)
               <= x.trustedRoot.signed.expires
  {
    hide RolePublished, KeysPublished, MeetsThreshold, OnlineError, OfflineKeys;
    var online := Refresh(crypto, x, now).value;
    assert SignedOnline(crypto, x) == Ok(online);
  }

  /** No key that signs a refresh shares its id or its material with a key in the table of offline keys,
      and each is declared by the root for its own role. */
  lemma RefreshKeepsRolesApart(crypto: Crypto, x: RefreshInput, now: int, s: Signer, id: string)
    requires Refresh(crypto, x, now).Ok? && (s in x.timestamp.signers || s in x.snapshot.signers)
    requires var offline := OfflineKeys(x.trustedRoot.signed, x.targets.signed); id in offline
    ensures var root, offline := x.trustedRoot.signed, OfflineKeys(x.trustedRoot.signed, x.targets.signed);
            && s.keyId != id && crypto.spki(s.publicKeyPem) != crypto.spki(offline[id])
            && s.keyId in root.keys && crypto.spki(root.keys[s.keyId]) == crypto.spki(s.publicKeyPem)
            && (s in x.timestamp.signers ==> s.keyId in root.roles.timestamp.keyids)
            && (s in x.snapshot.signers ==> s.keyId in root.roles.snapshot.keyids)
  {
    var root, offline := x.trustedRoot.signed, OfflineKeys(x.trustedRoot.signed, x.targets.signed);
    hide OfflineKeys, MeetsThreshold, SignedOnline, RoleError, RolePublished, KeysPublished;
    SignersErrorIff(crypto, x.timestamp.signers, root.roles.timestamp, root.keys, offline);
    SignersErrorIff(crypto, x.snapshot.signers, root.roles.snapshot, root.keys, offline);
  }

  // ---- From a release to its refreshes ----

  ghost predicate AllHonest(crypto: Crypto, x: Input) {
    forall s :: s in AllSigners(x) ==> Honest(crypto, s)
  }

  lemma RolesArePublished(signers: seq<Signer>, threshold: int)
    requires SignersValid(signers, threshold)
    ensures RolePublished(RoleOf(signers, threshold))
  {
    hide IsKeyId;
    var ids := Ids(signers);
    forall id | id in ids
      ensures IsKeyId(id)
    {
      var i :| 0 <= i < |ids| && ids[i] == id;
      assert signers[i] in signers;
    }
    forall k
      ensures k in KeySet(signers, KeyIdOf) <==> k in KeySet(ids, Whole)
    {
      if k in KeySet(signers, KeyIdOf) {
        var s :| s in signers && KeyIdOf(s) == k;
        var i :| 0 <= i < |signers| && signers[i] == s;
        assert ids[i] in ids;
      }
      if k in KeySet(ids, Whole) {
        var i :| 0 <= i < |ids| && ids[i] == k;
        assert signers[i] in signers;
      }
    }
    assert KeySet(signers, KeyIdOf) == KeySet(ids, Whole);
  }

  /** The root's key table gives every signer its own key, and holds no other. */
  lemma PublishedKeys(x: Input)
    requires OneKeyPerId(AllSigners(x))
    ensures UnionOf(AllSigners(x)).Ok?
    ensures var keys := KeyTable(UnionOf(AllSigners(x)).value);
            && (forall s :: s in AllSigners(x) ==> s.keyId in keys && keys[s.keyId] == s.publicKeyPem)
            && (forall id :: id in keys ==> exists s :: s in AllSigners(x) && s.keyId == id)
  {
    hide AllSigners;
    UnionHolds(AllSigners(x));
    KeyTableHolds(UnionOf(AllSigners(x)).value);
  }

  lemma InputErrorIff(x: Input, now: int)
    requires InputError(x, now).None?
    ensures SignersValid(x.root.signers, x.root.threshold) && SignersValid(x.timestamp.signers, x.timestamp.threshold)
    ensures SignersValid(x.snapshot.signers, x.snapshot.threshold) && SignersValid(x.targets.signers, x.targets.threshold)
    ensures x.rootVersion > 0 && x.metadataVersion > 0 && ExpiryError(x.expires, now).None?
  {
    hide RoleError, SignersValid;
    RoleErrorIff(x.root);
    RoleErrorIff(x.timestamp);
    RoleErrorIff(x.snapshot);
    RoleErrorIff(x.targets);
  }

  lemma RoleKeysAreOwn(r: RoleSigners)
    requires SignersValid(r.signers, r.threshold)
    ensures OneKeyPerId(r.signers)
    ensures forall s :: s in r.signers ==> s.keyId in KeyTable(r.signers) && KeyTable(r.signers)[s.keyId] == s.publicKeyPem
    ensures KeysPublished(KeyTable(r.signers))
  {
    hide IsKeyId, KeyTable;
    var signers := r.signers;
    DistinctIffSetSize(signers, KeyIdOf);
    forall s, t | s in signers && t in signers && s.keyId == t.keyId
      ensures s == t
    {
      DistinctMember(signers, KeyIdOf, s, t);
    }
    KeyTableHolds(signers);
    forall id | id in KeyTable(signers)
      ensures IsKeyId(id)
    {
      var s :| s in signers && KeyIdOf(s) == id;
    }
  }

  lemma HonestRoleSigns(crypto: Crypto, x: Input, signed: Signed, r: RoleSigners, keys: map<string, string>)
    requires AllHonest(crypto, x) && (r == x.root || r == x.timestamp || r == x.snapshot || r == x.targets)
    requires SignersValid(r.signers, r.threshold)
    ensures SignedEnvelope(crypto, signed, r.signers).Ok?
    ensures SignedEnvelope(crypto, signed, r.signers).value.signed == signed
    ensures (forall s :: s in r.signers ==> s.keyId in keys && keys[s.keyId] == s.publicKeyPem) ==>
              MeetsThreshold(crypto, SignedEnvelope(crypto, signed, r.signers).value, keys, RoleOf(r.signers, r.threshold))
  {
    hide SignersValid, SignedEnvelope, MeetsThreshold, Honest, RoleOf, KeyTable;
    forall s | s in r.signers
      ensures Honest(crypto, s)
    {
      assert s in AllSigners(x);
    }
    RoleKeysAreOwn(r);
    SignersMeetThreshold(crypto, signed, r.signers, r.threshold, KeyTable(r.signers));
    if forall s :: s in r.signers ==> s.keyId in keys && keys[s.keyId] == s.publicKeyPem {
      SignersMeetThreshold(crypto, signed, r.signers, r.threshold, keys);
    }
  }

  /** What a publication contains, and who signed it. */
  ghost predicate PublishedWell(crypto: Crypto, x: Input, p: Publication) {
    && OneKeyPerId(AllSigners(x)) && UnionOf(AllSigners(x)).Ok?
    && var version, keys := x.metadataVersion, KeyTable(UnionOf(AllSigners(x)).value);
    && p.root.signed == RootSignedOf(x, keys)
    && p.components.signed == ComponentsSignedOf(x) && p.targets.signed == TopTargetsSignedOf(x)
    && p.snapshot.signed
       == SnapshotSignedOf(p.targets, p.components, Versions(version, version, version), x.expires.snapshot)
    && p.timestamp.signed == TimestampSigned(version, x.expires.timestamp, FileMeta(version, OfFile(p.snapshot)))
    && MeetsThreshold(crypto, p.root, keys, RoleOf(x.root.signers, x.root.threshold))
    && MeetsThreshold(crypto, p.timestamp, keys, RoleOf(x.timestamp.signers, x.timestamp.threshold))
    && MeetsThreshold(crypto, p.snapshot, keys, RoleOf(x.snapshot.signers, x.snapshot.threshold))
    && MeetsThreshold(crypto, p.targets, keys, RoleOf(x.targets.signers, x.targets.threshold))
    && MeetsThreshold(crypto, p.components, KeyTable(x.targets.signers), RoleOf(x.targets.signers, x.targets.threshold))
  }

  /** With signers whose private and public keys match, publishing fails only for a reason the input
      checks name, or because one id would stand for two keys. */
  lemma HonestPublishingSucceedsIff(crypto: Crypto, x: Input, now: int)
    requires AllHonest(crypto, x)
    ensures Publish(crypto, x, now).Ok? <==> InputError(x, now).None? && OneKeyPerId(AllSigners(x))
    ensures Publish(crypto, x, now).Ok? ==> PublishedWell(crypto, x, Publish(crypto, x, now).value)
  {
    hide MeetsThreshold, InputError, SignedEnvelope, SignersValid, Honest, KeyTable, RoleOf, AllSigners, AllHonest;
    UnionHolds(AllSigners(x));
    if InputError(x, now).None? {
      InputErrorIff(x, now);
      var keys := if OneKeyPerId(AllSigners(x)) then KeyTable(UnionOf(AllSigners(x)).value) else map[];
      if OneKeyPerId(AllSigners(x)) {
        PublishedKeys(x);
      }
      EveryRoleIsAmongSigners(x);
      RoleKeysAreOwn(x.targets);
      HonestRoleSigns(crypto, x, ComponentsSignedOf(x), x.targets, KeyTable(x.targets.signers));
      HonestRoleSigns(crypto, x, TopTargetsSignedOf(x), x.targets, keys);
      var components := SignedEnvelope(crypto, ComponentsSignedOf(x), x.targets.signers).value;
      var targets := SignedEnvelope(crypto, TopTargetsSignedOf(x), x.targets.signers).value;
      var v := Versions(x.metadataVersion, x.metadataVersion, x.metadataVersion);
      var snapshotSigned := SnapshotSignedOf(targets, components, v, x.expires.snapshot);
      HonestRoleSigns(crypto, x, snapshotSigned, x.snapshot, keys);
      var snapshot := SignedEnvelope(crypto, snapshotSigned, x.snapshot.signers).value;
      HonestRoleSigns(
        crypto, x, TimestampSigned(v.timestamp, x.expires.timestamp, FileMeta(v.snapshot, OfFile(snapshot))), x.timestamp, keys);
      HonestRoleSigns(crypto, x, RootSignedOf(x, keys), x.root, keys);
    }
  }

  lemma EveryRoleIsAmongSigners(x: Input)
    ensures forall s :: s in x.root.signers || s in x.timestamp.signers || s in x.snapshot.signers || s in x.targets.signers
              <==> s in AllSigners(x)
  {
  }

  /** A release published by honest signers verifies offline until a root or targets file expires, and
      serves clients until its timestamp expires. */
  lemma PublicationVerifies(crypto: Crypto, x: Input, now: int, at: int)
    requires AllHonest(crypto, x) && Publish(crypto, x, now).Ok?
    ensures var p := Publish(crypto, x, now).value;
            && (OfflineVerified(crypto, p.root, p.targets, p.components, at) <==> at < x.expires.targets)
            && (ClientAccepts(crypto, p.root, Online(p.timestamp, p.snapshot), p.targets, p.components, at)
                <==> at < x.expires.timestamp)
  {
    hide MeetsThreshold, SignersValid, Honest, KeyTable, RoleOf, AllSigners, AllHonest, Publish, InputError, RolePublished,
      KeysPublished;
    HonestPublishingSucceedsIff(crypto, x, now);
    InputErrorIff(x, now);
    RolesArePublished(x.root.signers, x.root.threshold);
    RolesArePublished(x.timestamp.signers, x.timestamp.threshold);
    RolesArePublished(x.snapshot.signers, x.snapshot.threshold);
    RolesArePublished(x.targets.signers, x.targets.threshold);
    RoleKeysAreOwn(x.targets);
    RootKeysArePublished(x);
  }

  lemma RootKeysArePublished(x: Input)
    requires OneKeyPerId(AllSigners(x))
    requires SignersValid(x.root.signers, x.root.threshold) && SignersValid(x.timestamp.signers, x.timestamp.threshold)
    requires SignersValid(x.snapshot.signers, x.snapshot.threshold) && SignersValid(x.targets.signers, x.targets.threshold)
    ensures UnionOf(AllSigners(x)).Ok? && KeysPublished(KeyTable(UnionOf(AllSigners(x)).value))
  {
    hide IsKeyId, KeyTable, UnionOf;
    PublishedKeys(x);
    forall id | id in KeyTable(UnionOf(AllSigners(x)).value)
      ensures IsKeyId(id)
    {
      var s :| s in AllSigners(x) && s.keyId == id;
    }
  }

  ghost predicate Apart(crypto: Crypto, s: Signer, owners: seq<Signer>) {
    forall o :: o in owners ==> s.keyId != o.keyId && crypto.spki(s.publicKeyPem) != crypto.spki(o.publicKeyPem)
  }

  /** No online signer of the release shares an id or key material with a root or targets signer. */
  ghost predicate RolesApart(crypto: Crypto, x: Input) {
    forall s :: s in x.timestamp.signers || s in x.snapshot.signers ==> Apart(crypto, s, x.root.signers + x.targets.signers)
  }

  lemma IdIn(signers: seq<Signer>, id: string)
    ensures id in Ids(signers) <==> exists s :: s in signers && s.keyId == id
  {
    if id in Ids(signers) {
      var i :| 0 <= i < |signers| && Ids(signers)[i] == id;
      assert signers[i] in signers;
    }
    if s :| s in signers && s.keyId == id {
      var i :| 0 <= i < |signers| && signers[i] == s;
      assert Ids(signers)[i] == id;
    }
  }

  /** The table holds exactly the owners' keys. */
  ghost predicate TableOf(keys: map<string, string>, owners: seq<Signer>) {
    && (forall o :: o in owners ==> o.keyId in keys && keys[o.keyId] == o.publicKeyPem)
    && (forall id :: id in keys ==> exists o :: o in owners && o.keyId == id)
  }

  lemma OfflineKeysOfPublication(crypto: Crypto, x: Input, p: Publication)
    requires PublishedWell(crypto, x, p)
    requires SignersValid(x.targets.signers, x.targets.threshold) && DelegatesComponents(p.targets.signed)
    ensures TableOf(OfflineKeys(p.root.signed, p.targets.signed), x.root.signers + x.targets.signers)
  {
    hide MeetsThreshold, SignersValid, UnionOf, KeyTable, AllSigners, DelegatesComponents, Ids;
    var offline := OfflineKeys(p.root.signed, p.targets.signed);
    PublishedKeys(x);
    RoleKeysAreOwn(x.targets);
    EveryRoleIsAmongSigners(x);
    forall o | o in x.root.signers + x.targets.signers
      ensures o.keyId in offline && offline[o.keyId] == o.publicKeyPem
    {
      IdIn(x.root.signers, o.keyId);
      IdIn(x.targets.signers, o.keyId);
      if o.keyId in KeyTable(x.targets.signers) && o.keyId in Ids(x.targets.signers) {
        var t :| t in x.targets.signers && t.keyId == o.keyId;
        assert t == o;
      }
    }
    forall id | id in offline
      ensures exists o :: o in x.root.signers + x.targets.signers && o.keyId == id
    {
      IdIn(x.root.signers, id);
      IdIn(x.targets.signers, id);
    }
  }

  lemma SignerErrorIff(
    crypto: Crypto, s: Signer, declared: Role, rootKeys: map<string, string>, offline: map<string, string>,
    owners: seq<Signer>)
    requires crypto.spki(s.publicKeyPem).Some? && s.keyId in declared.keyids
    requires s.keyId in rootKeys && rootKeys[s.keyId] == s.publicKeyPem
    requires TableOf(offline, owners)
    ensures SignerError(crypto, s, declared, rootKeys, offline).None? <==> Apart(crypto, s, owners)
  {
    if Apart(crypto, s, owners) {
      forall id | id in offline
        ensures id != s.keyId && crypto.spki(offline[id]) != crypto.spki(s.publicKeyPem)
      {
        var o :| o in owners && o.keyId == id;
      }
    }
  }

  lemma OnlineRoleErrorIff(
    crypto: Crypto, r: RoleSigners, rootKeys: map<string, string>, offline: map<string, string>, owners: seq<Signer>)
    requires SignersValid(r.signers, r.threshold) && TableOf(offline, owners)
    requires forall s :: s in r.signers ==>
               Honest(crypto, s) && s.keyId in rootKeys && rootKeys[s.keyId] == s.publicKeyPem
    ensures OnlineRoleError(crypto, r, RoleOf(r.signers, r.threshold), rootKeys, offline).None? <==>
              forall s :: s in r.signers ==> Apart(crypto, s, owners)
  {
    var declared := RoleOf(r.signers, r.threshold);
    RoleErrorIff(r);
    SignersErrorIff(crypto, r.signers, declared, rootKeys, offline);
    hide SignerError, Apart, TableOf, Ids, IsKeyId, RoleError;
    forall s | s in r.signers
      ensures SignerError(crypto, s, declared, rootKeys, offline).None? <==> Apart(crypto, s, owners)
    {
      IdIn(r.signers, s.keyId);
      SignerErrorIff(crypto, s, declared, rootKeys, offline, owners);
    }
  }

  lemma OnlineErrorIff(
    crypto: Crypto, timestamp: RoleSigners, snapshot: RoleSigners, root: Signed, offline: map<string, string>,
    owners: seq<Signer>)
    requires root.RootSigned? && TableOf(offline, owners)
    requires SignersValid(timestamp.signers, timestamp.threshold) && SignersValid(snapshot.signers, snapshot.threshold)
    requires root.roles.timestamp == RoleOf(timestamp.signers, timestamp.threshold)
    requires root.roles.snapshot == RoleOf(snapshot.signers, snapshot.threshold)
    requires forall s :: s in timestamp.signers || s in snapshot.signers ==>
               Honest(crypto, s) && s.keyId in root.keys && root.keys[s.keyId] == s.publicKeyPem
    requires forall o :: o in owners ==> Honest(crypto, o)
    ensures OnlineError(crypto, timestamp, snapshot, root, offline).None? <==>
              forall s :: s in timestamp.signers || s in snapshot.signers ==> Apart(crypto, s, owners)
  {
    hide SignersValid, RoleOf, OnlineRoleError, Apart, Honest;
    OnlineRoleErrorIff(crypto, timestamp, root.keys, offline, owners);
    OnlineRoleErrorIff(crypto, snapshot, root.keys, offline, owners);
    forall id | id in offline
      ensures crypto.spki(offline[id]).Some?
    {
      var o :| o in owners && o.keyId == id;
      HonestMaterial(crypto, o);
    }
  }

  lemma OnlineAcceptedIff(crypto: Crypto, x: Input, p: Publication)
    requires AllHonest(crypto, x) && PublishedWell(crypto, x, p) && DelegatesComponents(p.targets.signed)
    requires SignersValid(x.timestamp.signers, x.timestamp.threshold) && SignersValid(x.snapshot.signers, x.snapshot.threshold)
    requires SignersValid(x.targets.signers, x.targets.threshold)
    ensures var offline := OfflineKeys(p.root.signed, p.targets.signed);
            OnlineError(crypto, x.timestamp, x.snapshot, p.root.signed, offline).None? <==> RolesApart(crypto, x)
  {
    var root, offline, owners := p.root.signed, OfflineKeys(p.root.signed, p.targets.signed), x.root.signers + x.targets.signers;
    hide MeetsThreshold, SignersValid, UnionOf, KeyTable, AllSigners, DelegatesComponents, OfflineKeys, OnlineError, Apart,
      Honest, RoleOf, TableOf;
    OfflineKeysOfPublication(crypto, x, p);
    PublishedKeys(x);
    EveryRoleIsAmongSigners(x);
    OnlineErrorIff(crypto, x.timestamp, x.snapshot, root, offline, owners);
  }

  lemma HonestMaterial(crypto: Crypto, s: Signer)
    requires Honest(crypto, s)
    ensures crypto.spki(s.publicKeyPem).Some?
  {
  }

  /** The online roles of an honest release, asked for a well-formed refresh of it, get one exactly when
      the release kept their keys apart from the offline ones, by id and by material. */
  lemma RefreshAcceptsPublicationIff(crypto: Crypto, x: Input, published: int, r: RefreshInput, now: int)
    requires AllHonest(crypto, x) && Publish(crypto, x, published).Ok?
    requires var p := Publish(crypto, x, published).value;
             r.trustedRoot == p.root && r.targets == p.targets && r.components == p.components
    requires r.timestamp == x.timestamp && r.snapshot == x.snapshot
    requires r.snapshotVersion > x.metadataVersion && r.timestampVersion > x.metadataVersion
    requires ExpiryError(Expiries(x.expires.root, r.timestampExpires, r.snapshotExpires, x.expires.targets), now).None?
    ensures Refresh(crypto, r, now).Ok? <==> RolesApart(crypto, x)
  {
    var p := Publish(crypto, x, published).value;
    HonestPublishingSucceedsIff(crypto, x, published);
    PublicationVerifies(crypto, x, published, now);
    InputErrorIff(x, published);
    OnlineAcceptedIff(crypto, x, p);
    PublishedKeys(x);
    EveryRoleIsAmongSigners(x);
    hide MeetsThreshold, SignersValid, Honest, KeyTable, RoleOf, AllSigners, AllHonest, Publish, InputError, RolePublished,
      KeysPublished, OnlineError, OfflineKeys, SignedEnvelope, RolesApart;
    var keys := p.root.signed.keys;
    var v := Versions(x.metadataVersion, r.snapshotVersion, r.timestampVersion);
    var snapshotSigned := SnapshotSignedOf(p.targets, p.components, v, r.snapshotExpires);
    HonestRoleSigns(crypto, x, snapshotSigned, x.snapshot, keys);
    var snapshot := SignedEnvelope(crypto, snapshotSigned, x.snapshot.signers).value;
    HonestRoleSigns(
      crypto, x, TimestampSigned(v.timestamp, r.timestampExpires, FileMeta(v.snapshot, OfFile(snapshot))), x.timestamp, keys);
  }
}
