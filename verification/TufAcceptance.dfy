/** What publishing and refreshing accept and what they write, said of the input and of single
    signatures, apart from the checks themselves. */
module TufAcceptance {
  import opened Results
  import opened CodeUnits
  import opened Text
  import opened TufMetadata
  import opened TufPublication
  import Patterns
  import R = TufRefresh

  // ---- Thresholds ----

  predicate HexOnly(s: string) { forall c :: c in s ==> Patterns.HexDigit(c) }

  /** The role names the key `id`, and a signature under that id checks out against the key. */
  ghost predicate Vouched(crypto: Crypto, file: Envelope, keys: map<string, string>, keyids: seq<string>, id: string) {
    && id in keyids && id in keys
    && exists s :: s in file.signatures && s.keyid == id && s.sig != "" && HexOnly(s.sig)
         && crypto.verify(keys[id], file.signed, s.sig)
  }

  /** A file is accepted for a role exactly when some `threshold` different keys of the role vouch for it. */
  ghost predicate VouchedByEnough(crypto: Crypto, file: Envelope, keys: map<string, string>, role: Role) {
    exists ids: set<string> :: |ids| >= role.threshold && forall id :: id in ids ==> Vouched(crypto, file, keys, role.keyids, id)
  }

  lemma SigningKeyIff(crypto: Crypto, file: Envelope, keys: map<string, string>, role: Role, id: string)
    ensures id in SigningKeys(crypto, file, keys, role) <==> Vouched(crypto, file, keys, role.keyids, id)
  {
    if id in SigningKeys(crypto, file, keys, role) {
      var s :| s in file.signatures && Counts(crypto, s, file.signed, keys, role) && s.keyid == id;
      assert HexOnly(s.sig);
    }
    if Vouched(crypto, file, keys, role.keyids, id) {
      var s :| s in file.signatures && s.keyid == id && s.sig != "" && HexOnly(s.sig)
               && crypto.verify(keys[id], file.signed, s.sig);
      assert Counts(crypto, s, file.signed, keys, role);
    }
  }

  lemma ThresholdIff(crypto: Crypto, file: Envelope, keys: map<string, string>, role: Role)
    ensures MeetsThreshold(crypto, file, keys, role) <==> VouchedByEnough(crypto, file, keys, role)
  {
    var signing := SigningKeys(crypto, file, keys, role);
    forall id
      ensures id in signing <==> Vouched(crypto, file, keys, role.keyids, id)
    {
      SigningKeyIff(crypto, file, keys, role, id);
    }
    hide SigningKeys, Vouched;
    if ids: set<string> :| |ids| >= role.threshold && forall id :: id in ids ==> Vouched(crypto, file, keys, role.keyids, id) {
      SubsetSize(ids, signing);
    }
  }

  // ---- Publishing ----

  predicate KeyIdText(id: string) { |id| == 64 && HexOnly(id) }

  /** Signers with well-formed, pairwise different ids and a threshold they can reach. */
  ghost predicate CanSign(signers: seq<Signer>, threshold: int) {
    && (forall s :: s in signers ==> KeyIdText(s.keyId) && s.publicKeyPem != "")
    && (forall i, j :: 0 <= i < j < |signers| ==> signers[i].keyId != signers[j].keyId)
    && 1 <= threshold <= |signers|
  }

  lemma KeyIdIff(id: string)
    ensures IsKeyId(id) <==> KeyIdText(id)
  {
  }

  lemma CanSignIff(signers: seq<Signer>, threshold: int)
    ensures CanSign(signers, threshold) <==> RoleError(RoleSigners(signers, threshold)).None?
  {
    RoleErrorIff(RoleSigners(signers, threshold));
    DistinctIffSetSize(signers, KeyIdOf);
    hide KeySet, SignersError, IsKeyId, KeyIdText;
    forall s | s in signers
      ensures IsKeyId(s.keyId) <==> KeyIdText(s.keyId)
    {
      KeyIdIff(s.keyId);
    }
    assert DistinctKeys(signers, KeyIdOf) <==>
      forall i, j :: 0 <= i < j < |signers| ==> signers[i].keyId != signers[j].keyId;
  }

  /** The input of a publication is accepted exactly when every role can sign, both versions are positive,
      and the expiries lie in the future in the order timestamp, snapshot, targets, root. */
  lemma InputIsAcceptedIff(x: Input, now: int)
    ensures InputError(x, now).None? <==>
              && CanSign(x.root.signers, x.root.threshold) && CanSign(x.timestamp.signers, x.timestamp.threshold)
              && CanSign(x.snapshot.signers, x.snapshot.threshold) && CanSign(x.targets.signers, x.targets.threshold)
              && x.rootVersion > 0 && x.metadataVersion > 0
              && now < x.expires.timestamp <= x.expires.snapshot <= x.expires.targets <= x.expires.root
  {
    hide CanSign, RoleError;
    CanSignIff(x.root.signers, x.root.threshold);
    CanSignIff(x.timestamp.signers, x.timestamp.threshold);
    CanSignIff(x.snapshot.signers, x.snapshot.threshold);
    CanSignIff(x.targets.signers, x.targets.threshold);
  }

  /** The signatures of a file are its signers' own over its contents, one each and in their order. */
  ghost predicate SignedBy(crypto: Crypto, file: Envelope, signers: seq<Signer>) {
    && |file.signatures| == |signers|
    && forall i :: 0 <= i < |signers| ==>
         && file.signatures[i].keyid == signers[i].keyId && file.signatures[i].sig != ""
         && crypto.sign(signers[i], file.signed) == Some(file.signatures[i].sig)
  }

  lemma SignedEnvelopeIff(crypto: Crypto, signed: Signed, signers: seq<Signer>, file: Envelope)
    ensures SignedEnvelope(crypto, signed, signers) == Ok(file) <==>
              file.signed == signed && SignedBy(crypto, file, signers)
  {
    var f := s => SignOne(crypto, s, signed);
    TraverseAt(signers, f);
    hide Traverse;
    if file.signed == signed && SignedBy(crypto, file, signers) {
      forall i | 0 <= i < |signers|
        ensures f(signers[i]) == Ok(file.signatures[i])
      {
        assert file.signatures[i] == Signature(signers[i].keyId, file.signatures[i].sig);
      }
      assert Traverse(signers, f).Ok? && Traverse(signers, f).value == file.signatures;
    }
  }

  ghost predicate KeyOf(signers: seq<Signer>, id: string, pem: string) {
    exists s :: s in signers && s.keyId == id && s.publicKeyPem == pem
  }

  /** A key table that lists the keys of the signers and nothing else. */
  ghost predicate Lists(keys: map<string, string>, signers: seq<Signer>) {
    && (forall s :: s in signers ==> s.keyId in keys)
    && (forall id :: id in keys ==> KeyOf(signers, id, keys[id]))
  }

  ghost predicate IsRoleOf(role: Role, r: RoleSigners) {
    && role.threshold == r.threshold && |role.keyids| == |r.signers|
    && forall i :: 0 <= i < |r.signers| ==> role.keyids[i] == r.signers[i].keyId
  }

  ghost predicate RootFile(root: Signed, x: Input) {
    && root.RootSigned? && root.version == x.rootVersion && root.expires == x.expires.root
    && root.consistentSnapshot == x.consistentSnapshot
    && Lists(root.keys, x.root.signers + x.timestamp.signers + x.snapshot.signers + x.targets.signers)
    && IsRoleOf(root.roles.root, x.root) && IsRoleOf(root.roles.timestamp, x.timestamp)
    && IsRoleOf(root.roles.snapshot, x.snapshot) && IsRoleOf(root.roles.targets, x.targets)
  }

  ghost predicate TargetsFile(targets: Signed, x: Input) {
    && targets.TargetsSigned? && targets.version == x.metadataVersion && targets.expires == x.expires.targets
    && targets.targets == map[x.manifestPath := x.manifest]
    && targets.delegations.Some? && Lists(targets.delegations.value.keys, x.targets.signers)
    && |targets.delegations.value.roles| == 1
    && var delegated := targets.delegations.value.roles[0];
    && delegated.name == "components" && IsRoleOf(delegated.role, x.targets)
    && multiset(delegated.paths) == multiset(x.componentPaths) && Sorted(delegated.paths, Whole)
  }

  ghost predicate ComponentsFile(components: Signed, x: Input) {
    && components.TargetsSigned? && components.version == x.metadataVersion
    && components.expires == x.expires.targets && components.targets == x.components && components.delegations.None?
  }

  /** Each online file names the version and the bytes of the files below it. */
  ghost predicate Pins(
    online: Online, targets: Envelope, components: Envelope, v: Versions, snapshotExpires: int, timestampExpires: int)
  {
    && online.snapshot.signed.SnapshotSigned?
    && online.snapshot.signed.version == v.snapshot && online.snapshot.signed.expires == snapshotExpires
    && online.snapshot.signed.targetsMeta == FileMeta(v.targets, OfFile(targets))
    && online.snapshot.signed.componentsMeta == FileMeta(v.targets, OfFile(components))
    && online.timestamp.signed.TimestampSigned?
    && online.timestamp.signed.version == v.timestamp && online.timestamp.signed.expires == timestampExpires
    && online.timestamp.signed.snapshotMeta == FileMeta(v.snapshot, OfFile(online.snapshot))
  }

  lemma OnlineFilesIff(
    crypto: Crypto, targets: Envelope, components: Envelope, v: Versions, snapshotExpires: int, timestampExpires: int,
    timestampSigners: seq<Signer>, snapshotSigners: seq<Signer>, online: Online)
    ensures SignOnlineRoles(
              crypto, targets, components, v, snapshotExpires, timestampExpires, timestampSigners, snapshotSigners)
            == Ok(online) <==>
              && Pins(online, targets, components, v, snapshotExpires, timestampExpires)
              && SignedBy(crypto, online.snapshot, snapshotSigners)
              && SignedBy(crypto, online.timestamp, timestampSigners)
  {
    hide SignedEnvelope, SignedBy;
    SignedEnvelopeIff(
      crypto, SnapshotSignedOf(targets, components, v, snapshotExpires), snapshotSigners, online.snapshot);
    SignedEnvelopeIff(
      crypto, TimestampSigned(v.timestamp, timestampExpires, FileMeta(v.snapshot, OfFile(online.snapshot))),
      timestampSigners, online.timestamp);
  }

  lemma IdsAreRole(r: RoleSigners)
    ensures IsRoleOf(RoleOf(r.signers, r.threshold), r)
  {
  }

  lemma {:induction false} TableLists(signers: seq<Signer>)
    ensures Lists(KeyTable(signers), signers)
    decreases |signers|
  {
    if signers != [] {
      var init, last := signers[..|signers| - 1], signers[|signers| - 1];
      assert signers == init + [last];
      TableLists(init);
      var keys := KeyTable(signers);
      forall id | id in keys
        ensures KeyOf(signers, id, keys[id])
      {
        if id == last.keyId {
          assert last in signers;
        } else {
          assert KeyOf(init, id, keys[id]);
        }
      }
    }
  }

  lemma RootIsTheInputs(crypto: Crypto, x: Input, root: Envelope)
    requires TrustedRoot(crypto, x) == Ok(root)
    ensures RootFile(root.signed, x) && SignedBy(crypto, root, x.root.signers)
  {
    hide SignedEnvelope, SignedBy, IsRoleOf, KeyTable, Lists, RoleOf, UnionOf;
    var union := UnionOf(AllSigners(x)).value;
    SignedEnvelopeIff(crypto, RootSignedOf(x, KeyTable(union)), x.root.signers, root);
    IdsAreRole(x.root);
    IdsAreRole(x.timestamp);
    IdsAreRole(x.snapshot);
    IdsAreRole(x.targets);
    UnionHolds(AllSigners(x));
    TableLists(union);
    SameLists(KeyTable(union), union, AllSigners(x));
  }

  lemma SameLists(keys: map<string, string>, signers: seq<Signer>, others: seq<Signer>)
    requires Lists(keys, signers) && forall s :: s in signers <==> s in others
    ensures Lists(keys, others)
  {
    forall id | id in keys
      ensures KeyOf(others, id, keys[id])
    {
      assert KeyOf(signers, id, keys[id]);
    }
  }

  lemma TargetsAreTheInputs(x: Input)
    ensures TargetsFile(TopTargetsSignedOf(x), x) && ComponentsFile(ComponentsSignedOf(x), x)
  {
    hide IsRoleOf, KeyTable, Lists, RoleOf, SortBy, Sorted;
    IdsAreRole(x.targets);
    TableLists(x.targets.signers);
    SortMultiset(x.componentPaths, Whole);
    SortSorted(x.componentPaths, Whole);
  }

  /** Whatever the signers, a publication holds the input's files and keys and nothing else, every file is
      signed by its own role's signers alone, and each online file names the files below it. */
  lemma PublicationHolds(crypto: Crypto, x: Input, now: int, p: Publication)
    requires Publish(crypto, x, now) == Ok(p)
    ensures InputError(x, now).None?
    ensures RootFile(p.root.signed, x) && TargetsFile(p.targets.signed, x) && ComponentsFile(p.components.signed, x)
    ensures Pins(Online(p.timestamp, p.snapshot), p.targets, p.components,
                 Versions(x.metadataVersion, x.metadataVersion, x.metadataVersion), x.expires.snapshot, x.expires.timestamp)
    ensures SignedBy(crypto, p.root, x.root.signers) && SignedBy(crypto, p.timestamp, x.timestamp.signers)
    ensures SignedBy(crypto, p.snapshot, x.snapshot.signers)
    ensures SignedBy(crypto, p.targets, x.targets.signers) && SignedBy(crypto, p.components, x.targets.signers)
  {
    hide SignedEnvelope, SignedBy, RootFile, TargetsFile, ComponentsFile, Pins, InputError, SignOnlineRoles, TrustedRoot,
      TopTargetsSignedOf, ComponentsSignedOf;
    SignedEnvelopeIff(crypto, ComponentsSignedOf(x), x.targets.signers, p.components);
    SignedEnvelopeIff(crypto, TopTargetsSignedOf(x), x.targets.signers, p.targets);
    TargetsAreTheInputs(x);
    OnlineFilesIff(
      crypto, p.targets, p.components, Versions(x.metadataVersion, x.metadataVersion, x.metadataVersion),
      x.expires.snapshot, x.expires.timestamp, x.timestamp.signers, x.snapshot.signers, Online(p.timestamp, p.snapshot));
    RootIsTheInputs(crypto, x, p.root);
  }

  // ---- Refreshing ----

  ghost predicate KeyIdsOnly(keys: map<string, string>) { forall id :: id in keys ==> KeyIdText(id) }

  /** A role of a metadata file: well-formed, pairwise different key ids and a threshold they can reach. */
  ghost predicate Declared(r: Role) {
    && (forall id :: id in r.keyids ==> KeyIdText(id))
    && (forall i, j :: 0 <= i < j < |r.keyids| ==> r.keyids[i] != r.keyids[j])
    && 1 <= r.threshold <= |r.keyids|
  }

  lemma DeclaredIff(r: Role)
    ensures R.RolePublished(r) <==> Declared(r)
  {
    DistinctIffSetSize(r.keyids, Whole);
    hide KeySet, IsKeyId, KeyIdText;
    forall id | id in r.keyids
      ensures IsKeyId(id) <==> KeyIdText(id)
    {
      KeyIdIff(id);
    }
    assert DistinctKeys(r.keyids, Whole) <==> forall i, j :: 0 <= i < j < |r.keyids| ==> r.keyids[i] != r.keyids[j];
  }

  lemma KeyIdsOnlyIff(keys: map<string, string>)
    ensures R.KeysPublished(keys) <==> KeyIdsOnly(keys)
  {
    hide IsKeyId, KeyIdText;
    forall id | id in keys
      ensures IsKeyId(id) <==> KeyIdText(id)
    {
      KeyIdIff(id);
    }
  }

  ghost predicate RootStands(crypto: Crypto, root: Envelope, now: int) {
    && root.signed.RootSigned? && root.signed.version > 0 && now < root.signed.expires
    && KeyIdsOnly(root.signed.keys)
    && Declared(root.signed.roles.root) && Declared(root.signed.roles.timestamp)
    && Declared(root.signed.roles.snapshot) && Declared(root.signed.roles.targets)
    && VouchedByEnough(crypto, root, root.signed.keys, root.signed.roles.root)
  }

  ghost predicate DelegatesOnce(targets: Signed) {
    && targets.TargetsSigned? && targets.delegations.Some?
    && KeyIdsOnly(targets.delegations.value.keys) && |targets.delegations.value.roles| == 1
    && targets.delegations.value.roles[0].name == "components" && Declared(targets.delegations.value.roles[0].role)
  }

  /** The offline files of a release that stand at `now`. */
  ghost predicate OfflineStands(crypto: Crypto, root: Envelope, targets: Envelope, components: Envelope, now: int) {
    && RootStands(crypto, root, now)
    && DelegatesOnce(targets.signed) && targets.signed.version > 0 && now < targets.signed.expires
    && VouchedByEnough(crypto, targets, root.signed.keys, root.signed.roles.targets)
    && components.signed.TargetsSigned? && components.signed.version == targets.signed.version
    && now < components.signed.expires
    && VouchedByEnough(
         crypto, components, targets.signed.delegations.value.keys, targets.signed.delegations.value.roles[0].role)
  }

  lemma RootStandsIff(crypto: Crypto, root: Envelope, now: int)
    ensures R.RootVerified(crypto, root, now) <==> RootStands(crypto, root, now)
  {
    hide MeetsThreshold, VouchedByEnough, R.RolePublished, Declared, R.KeysPublished, KeyIdsOnly;
    if root.signed.RootSigned? {
      KeyIdsOnlyIff(root.signed.keys);
      DeclaredIff(root.signed.roles.root);
      DeclaredIff(root.signed.roles.timestamp);
      DeclaredIff(root.signed.roles.snapshot);
      DeclaredIff(root.signed.roles.targets);
      ThresholdIff(crypto, root, root.signed.keys, root.signed.roles.root);
    }
  }

  lemma DelegatesOnceIff(targets: Signed)
    ensures R.DelegatesComponents(targets) <==> DelegatesOnce(targets)
  {
    hide R.RolePublished, Declared, R.KeysPublished, KeyIdsOnly;
    if targets.TargetsSigned? && targets.delegations.Some? {
      KeyIdsOnlyIff(targets.delegations.value.keys);
      if |targets.delegations.value.roles| == 1 {
        DeclaredIff(targets.delegations.value.roles[0].role);
      }
    }
  }

  /** The offline files verify exactly when they stand. */
  lemma OfflineVerifiedIff(crypto: Crypto, root: Envelope, targets: Envelope, components: Envelope, now: int)
    ensures R.OfflineVerified(crypto, root, targets, components, now) <==>
              OfflineStands(crypto, root, targets, components, now)
  {
    hide MeetsThreshold, VouchedByEnough, R.RootVerified, RootStands, R.DelegatesComponents, DelegatesOnce;
    RootStandsIff(crypto, root, now);
    DelegatesOnceIff(targets.signed);
    if R.RootVerified(crypto, root, now) && R.DelegatesComponents(targets.signed) {
      VerifiedShapes(crypto, root, targets.signed, now);
      ThresholdIff(crypto, targets, root.signed.keys, root.signed.roles.targets);
      var d := targets.signed.delegations.value;
      ThresholdIff(crypto, components, d.keys, d.roles[0].role);
    }
  }

  lemma VerifiedShapes(crypto: Crypto, root: Envelope, targets: Signed, now: int)
    requires R.RootVerified(crypto, root, now) && R.DelegatesComponents(targets)
    ensures root.signed.RootSigned? && targets.TargetsSigned? && targets.delegations.Some?
    ensures |targets.delegations.value.roles| == 1
  {
  }

  /** `pem` is the offline key with the id `id`: the components delegation's key of that id if its role
      names it, and otherwise the root's, if its root or targets role names it. */
  ghost predicate OfflineKey(root: Signed, targets: Signed, id: string, pem: string)
    requires root.RootSigned? && DelegatesOnce(targets)
  {
    var keys := targets.delegations.value.keys;
    if id in keys && id in targets.delegations.value.roles[0].role.keyids then pem == keys[id]
    else id in root.keys && (id in root.roles.root.keyids || id in root.roles.targets.keyids) && pem == root.keys[id]
  }

  /** A signer that has a key, declared for its role by the root with the same material, that is no
      offline key by id or by material. */
  ghost predicate OnlineSigner(crypto: Crypto, s: Signer, keyids: seq<string>, root: Signed, targets: Signed)
    requires root.RootSigned? && DelegatesOnce(targets)
  {
    && crypto.spki(s.publicKeyPem).Some?
    && s.keyId in keyids && s.keyId in root.keys && crypto.spki(root.keys[s.keyId]) == crypto.spki(s.publicKeyPem)
    && forall id, pem :: OfflineKey(root, targets, id, pem) ==>
         id != s.keyId && crypto.spki(pem) != crypto.spki(s.publicKeyPem)
  }

  ghost predicate OnlineRole(crypto: Crypto, r: RoleSigners, declared: Role, root: Signed, targets: Signed)
    requires root.RootSigned? && DelegatesOnce(targets)
  {
    && CanSign(r.signers, r.threshold) && declared.threshold <= |r.signers|
    && forall s :: s in r.signers ==> OnlineSigner(crypto, s, declared.keyids, root, targets)
  }

  lemma OfflineKeyIff(root: Signed, targets: Signed, id: string, pem: string)
    requires root.RootSigned? && DelegatesOnce(targets) && R.DelegatesComponents(targets)
    ensures OfflineKey(root, targets, id, pem) <==>
              id in R.OfflineKeys(root, targets) && R.OfflineKeys(root, targets)[id] == pem
  {
  }

  lemma OnlineSignerIff(crypto: Crypto, s: Signer, declared: Role, root: Signed, targets: Signed)
    requires root.RootSigned? && DelegatesOnce(targets) && R.DelegatesComponents(targets)
    ensures R.SignerError(crypto, s, declared, root.keys, R.OfflineKeys(root, targets)).None? <==>
              OnlineSigner(crypto, s, declared.keyids, root, targets)
  {
    hide R.OfflineKeys, R.DelegatesComponents, DelegatesOnce, OfflineKey;
    var offline := R.OfflineKeys(root, targets);
    forall id, pem
      ensures OfflineKey(root, targets, id, pem) <==> id in offline && offline[id] == pem
    {
      OfflineKeyIff(root, targets, id, pem);
    }
    if OnlineSigner(crypto, s, declared.keyids, root, targets) {
      forall id | id in offline
        ensures id != s.keyId && crypto.spki(offline[id]) != crypto.spki(s.publicKeyPem)
      {
        assert OfflineKey(root, targets, id, offline[id]);
      }
    }
  }

  lemma OnlineRoleIff(crypto: Crypto, r: RoleSigners, declared: Role, root: Signed, targets: Signed)
    requires root.RootSigned? && DelegatesOnce(targets) && R.DelegatesComponents(targets)
    ensures R.OnlineRoleError(crypto, r, declared, root.keys, R.OfflineKeys(root, targets)).None? <==>
              OnlineRole(crypto, r, declared, root, targets)
  {
    hide R.OfflineKeys, R.DelegatesComponents, DelegatesOnce, R.SignerError, OnlineSigner, CanSign, RoleError;
    CanSignIff(r.signers, r.threshold);
    R.SignersErrorIff(crypto, r.signers, declared, root.keys, R.OfflineKeys(root, targets));
    forall s | s in r.signers
      ensures R.SignerError(crypto, s, declared, root.keys, R.OfflineKeys(root, targets)).None? <==>
                OnlineSigner(crypto, s, declared.keyids, root, targets)
    {
      OnlineSignerIff(crypto, s, declared, root, targets);
    }
  }

  /** What a refresh asks of its input, over offline files that stand. */
  ghost predicate RefreshFits(crypto: Crypto, x: R.RefreshInput, now: int)
    requires OfflineStands(crypto, x.trustedRoot, x.targets, x.components, now)
  {
    var root, targets := x.trustedRoot.signed, x.targets.signed;
    && x.snapshotVersion > targets.version && x.timestampVersion > targets.version
    && now < x.timestampExpires <= x.snapshotExpires
    && x.snapshotExpires <= targets.expires && x.snapshotExpires <= x.components.signed.expires
    && (targets.expires <= root.expires || x.components.signed.expires <= root.expires)
    && (forall id, pem :: OfflineKey(root, targets, id, pem) ==> crypto.spki(pem).Some?)
    && OnlineRole(crypto, x.timestamp, root.roles.timestamp, root, targets)
    && OnlineRole(crypto, x.snapshot, root.roles.snapshot, root, targets)
  }

  lemma OfflineMaterialIff(crypto: Crypto, root: Signed, targets: Signed)
    requires root.RootSigned? && DelegatesOnce(targets) && R.DelegatesComponents(targets)
    ensures (exists id :: id in R.OfflineKeys(root, targets) && crypto.spki(R.OfflineKeys(root, targets)[id]).None?) <==>
              !forall id, pem :: OfflineKey(root, targets, id, pem) ==> crypto.spki(pem).Some?
  {
    hide R.OfflineKeys, R.DelegatesComponents, DelegatesOnce, OfflineKey;
    var offline := R.OfflineKeys(root, targets);
    forall id, pem
      ensures OfflineKey(root, targets, id, pem) <==> id in offline && offline[id] == pem
    {
      OfflineKeyIff(root, targets, id, pem);
    }
    if id :| id in offline && crypto.spki(offline[id]).None? {
      assert OfflineKey(root, targets, id, offline[id]);
    }
  }

  lemma RefreshErrorIff(crypto: Crypto, x: R.RefreshInput, now: int)
    requires OfflineStands(crypto, x.trustedRoot, x.targets, x.components, now)
    requires R.OfflineVerified(crypto, x.trustedRoot, x.targets, x.components, now)
    ensures R.RefreshError(crypto, x, now).None? <==> RefreshFits(crypto, x, now)
  {
    hide MeetsThreshold, VouchedByEnough, R.OfflineKeys, R.OnlineRoleError, OnlineRole, OfflineKey, R.RolePublished,
      R.KeysPublished, Declared, KeyIdsOnly;
    var root, targets := x.trustedRoot.signed, x.targets.signed;
    OfflineMaterialIff(crypto, root, targets);
    OnlineRoleIff(crypto, x.timestamp, root.roles.timestamp, root, targets);
    OnlineRoleIff(crypto, x.snapshot, root.roles.snapshot, root, targets);
  }

  /** A refresh succeeds with `online` exactly when the offline files stand, the input fits them, `online`
      pins those very files at the versions and expiries asked for, each of its files is signed by its
      role's signers alone, and enough of the keys the root declares for that role vouch for it. */
  lemma RefreshedIff(crypto: Crypto, x: R.RefreshInput, now: int, online: Online)
    ensures R.Refresh(crypto, x, now) == Ok(online) <==>
              && OfflineStands(crypto, x.trustedRoot, x.targets, x.components, now) && RefreshFits(crypto, x, now)
              && Pins(online, x.targets, x.components,
                      Versions(x.targets.signed.version, x.snapshotVersion, x.timestampVersion),
                      x.snapshotExpires, x.timestampExpires)
              && SignedBy(crypto, online.snapshot, x.snapshot.signers)
              && SignedBy(crypto, online.timestamp, x.timestamp.signers)
              && var root := x.trustedRoot.signed;
              && VouchedByEnough(crypto, online.snapshot, root.keys, root.roles.snapshot)
              && VouchedByEnough(crypto, online.timestamp, root.keys, root.roles.timestamp)
  {
    hide MeetsThreshold, VouchedByEnough, R.RefreshError, RefreshFits, Pins, SignedBy, SignOnlineRoles, R.RootVerified,
      RootStands, R.DelegatesComponents, DelegatesOnce;
    OfflineVerifiedIff(crypto, x.trustedRoot, x.targets, x.components, now);
    if R.OfflineVerified(crypto, x.trustedRoot, x.targets, x.components, now) {
      RefreshErrorIff(crypto, x, now);
      var root := x.trustedRoot.signed;
      VerifiedShapes(crypto, x.trustedRoot, x.targets.signed, now);
      ThresholdIff(crypto, online.snapshot, root.keys, root.roles.snapshot);
      ThresholdIff(crypto, online.timestamp, root.keys, root.roles.timestamp);
      OnlineFilesIff(
        crypto, x.targets, x.components, Versions(x.targets.signed.version, x.snapshotVersion, x.timestampVersion),
        x.snapshotExpires, x.timestampExpires, x.timestamp.signers, x.snapshot.signers, online);
    }
  }
}
